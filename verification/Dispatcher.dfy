/** Workers, reaper and kernel as one system of interleaved steps: who gets which exit status. */
module Dispatcher {
  import opened Options
  import opened SlotTable

  /** One worker thread between two messages, or inside platform_spawn. serial is the number
      of the child it forked; the program does not see serials. */
  datatype Worker =
    | Idle
    | Claimed(slot: nat)                          // holds the mutex, has not forked yet
    | Forked(slot: nat, pid: nat, serial: nat)    // holds the mutex, has not stored the pid yet
    | Busy(slot: nat, serial: nat, parked: bool)  // registered; parked once in the timed wait
    | Returned(status: int, serial: nat)          // await_child returned status
    | NoSlot                                      // the scan found no free slot

  datatype Reaper =
    | Checking                                            // at the loop condition
    | Polling                                             // about to call waitpid
    | Holding(pid: nat, status: int, serial: nat)         // waitpid returned pid
    | Dispatching(pid: nat, status: int, serial: nat)     // has the mutex
    | Gone

  /** A child of this process, alive or a zombie with its raw status. Orphans have no parent. */
  datatype Proc = Proc(serial: nat, parent: Option<nat>, ended: Option<int>)

  datatype Holder = ByWorker(w: nat) | ByReaper

  datatype Birth = Birth(parent: Option<nat>, pid: nat)

  /** The last four components are history: which worker registered a slot last, who forked
      each serial and as which pid, the raw status each serial ended with, and the children
      whose worker stopped waiting. */
  datatype State = State(
    slots: seq<Slot>, mutex: Option<Holder>, workers: seq<Worker>, reaper: Reaper, stop: bool,
    procs: map<nat, Proc>, next: nat,
    owner: seq<nat>, born: map<nat, Birth>, ended: map<nat, int>, gaveUp: set<nat>)

  datatype Step =
    | Claim(w: nat)
    | ForkFails(w: nat)
    | Fork(w: nat, pid: nat)
    | Register(w: nat)
    | Await(w: nat)
    | Wake(w: nat)
    | Next(w: nat)
    | Exit(pid: nat, status: int)
    | Orphan(pid: nat)
    | ReaperCheck
    | ReaperNothing
    | ReaperWait(pid: nat)
    | ReaperLock
    | ReaperDispatch
    | Stop

  function Init(workers: nat): State {
    State(seq(MAX_CONCURRENCY, _ => FREE), None, seq(workers, _ => Idle), Checking, false,
          map[], 0, seq(MAX_CONCURRENCY, _ => 0), map[], map[], {})
  }

  // ---- steps ----

  /** The kernel gives out positive pids that no child of this process has. */
  predicate KernelMayUse(s: State, pid: nat) {
    pid > 0 && pid !in s.procs
  }

  predicate Enabled(s: State, step: Step) {
    match step
    case Claim(w) => w < |s.workers| && s.workers[w].Idle? && s.mutex.None?
    case ForkFails(w) => w < |s.workers| && s.workers[w].Claimed?
    case Fork(w, pid) => w < |s.workers| && s.workers[w].Claimed? && KernelMayUse(s, pid)
    case Register(w) =>
      w < |s.workers| && s.workers[w].Forked? && s.workers[w].slot < |s.slots| && s.workers[w].slot < |s.owner|
    case Await(w) =>
      w < |s.workers| && s.workers[w].Busy? && !s.workers[w].parked && s.workers[w].slot < |s.slots| && s.mutex.None?
    case Wake(w) =>
      w < |s.workers| && s.workers[w].Busy? && s.workers[w].parked && s.workers[w].slot < |s.slots| && s.mutex.None?
    case Next(w) => w < |s.workers| && s.workers[w].Returned?
    case Exit(pid, status) => pid in s.procs && s.procs[pid].ended.None? && status != -1
    case Orphan(pid) => KernelMayUse(s, pid)
    case ReaperCheck => s.reaper.Checking?
    case ReaperNothing => s.reaper.Polling?
    case ReaperWait(pid) => s.reaper.Polling? && pid in s.procs && s.procs[pid].ended.Some?
    case ReaperLock => s.reaper.Holding? && s.mutex.None?
    case ReaperDispatch => s.reaper.Dispatching?
    case Stop => true
  }

  function Apply(s: State, step: Step): State
    requires Enabled(s, step)
  {
    match step
    case Claim(w) =>
      var k := FirstFree(s.slots, 0);
      if k < |s.slots| then s.(workers := s.workers[w := Claimed(k)], mutex := Some(ByWorker(w)))
      else s.(workers := s.workers[w := NoSlot])
    case ForkFails(w) => s.(workers := s.workers[w := Idle], mutex := None)
    case Fork(w, pid) =>
      s.(workers := s.workers[w := Forked(s.workers[w].slot, pid, s.next)],
         procs := s.procs[pid := Proc(s.next, Some(w), None)],
         born := s.born[s.next := Birth(Some(w), pid)], next := s.next + 1)
    case Register(w) =>
      var f := s.workers[w];
      s.(slots := Registered(s.slots, f.slot, f.pid), mutex := None,
         workers := s.workers[w := Busy(f.slot, f.serial, false)], owner := s.owner[f.slot := w])
    case Await(w) => if s.slots[s.workers[w].slot].done then Collect(s, w) else Park(s, w)
    case Wake(w) =>
      if s.slots[s.workers[w].slot].done then Collect(s, w)
      else if s.stop then Abandon(s, w)
      else s
    case Next(w) => s.(workers := s.workers[w := Idle])
    case Exit(pid, status) =>
      var p := s.procs[pid];
      s.(procs := s.procs[pid := p.(ended := Some(status))], ended := s.ended[p.serial := status])
    case Orphan(pid) =>
      s.(procs := s.procs[pid := Proc(s.next, None, None)], born := s.born[s.next := Birth(None, pid)],
         next := s.next + 1)
    case ReaperCheck => s.(reaper := if s.stop then Gone else Polling)
    case ReaperNothing => s.(reaper := Checking)
    case ReaperWait(pid) =>
      var p := s.procs[pid];
      s.(procs := s.procs - {pid}, reaper := Holding(pid, p.ended.value, p.serial))
    case ReaperLock =>
      s.(mutex := Some(ByReaper), reaper := Dispatching(s.reaper.pid, s.reaper.status, s.reaper.serial))
    case ReaperDispatch =>
      s.(slots := Dispatched(s.slots, s.reaper.pid, s.reaper.status), mutex := None, reaper := Checking)
    case Stop => s.(stop := true)
  }

  /** await_child finds its slot done. */
  function Collect(s: State, w: nat): State
    requires w < |s.workers| && s.workers[w].Busy? && s.workers[w].slot < |s.slots|
  {
    var b := s.workers[w];
    s.(slots := Freed(s.slots, b.slot), workers := s.workers[w := Returned(s.slots[b.slot].status, b.serial)])
  }

  function Park(s: State, w: nat): State
    requires w < |s.workers| && s.workers[w].Busy?
  {
    s.(workers := s.workers[w := Busy(s.workers[w].slot, s.workers[w].serial, true)])
  }

  /** await_child is interrupted by the stop flag. */
  function Abandon(s: State, w: nat): State
    requires w < |s.workers| && s.workers[w].Busy? && s.workers[w].slot < |s.slots|
  {
    var b := s.workers[w];
    s.(slots := Freed(s.slots, b.slot), workers := s.workers[w := Returned(-1, b.serial)],
       gaveUp := s.gaveUp + {b.serial})
  }

  // ---- runs ----

  /** The assumption about the kernel: a pid is not given out again while a slot still records
      it or the reaper still holds it. */
  predicate NotInUse(s: State, pid: nat) {
    && (forall i :: 0 <= i < |s.slots| ==> s.slots[i].pid != pid)
    && !Held(s, pid)
  }

  predicate Held(s: State, pid: nat) {
    (s.reaper.Holding? || s.reaper.Dispatching?) && s.reaper.pid == pid
  }

  predicate Lawful(s: State, step: Step) {
    && Enabled(s, step)
    && (step.Fork? || step.Orphan? ==> NotInUse(s, step.pid))
  }

  /** A run; lawful says whether it respects the assumption about pids. */
  predicate Runs(s: State, steps: seq<Step>, lawful: bool)
    decreases |steps|
  {
    steps == [] ||
    (Enabled(s, steps[0]) && (lawful ==> Lawful(s, steps[0])) && Runs(Apply(s, steps[0]), steps[1..], lawful))
  }

  function After(s: State, steps: seq<Step>, lawful: bool): State
    requires Runs(s, steps, lawful)
    decreases |steps|
  {
    if steps == [] then s else After(Apply(s, steps[0]), steps[1..], lawful)
  }

  // ---- the invariant ----

  predicate Reaping(s: State) {
    s.reaper.Holding? || s.reaper.Dispatching?
  }

  /** Serial n was forked by worker w and runs, or ran, as pid. */
  predicate BornTo(s: State, n: nat, w: nat, pid: nat) {
    n in s.born && s.born[n] == Birth(Some(w), pid)
  }

  /** Process n, known by pid, is still on its way from the kernel to a slot. */
  predicate Underway(s: State, pid: nat, n: nat) {
    (pid in s.procs && s.procs[pid].serial == n) || (Held(s, pid) && s.reaper.serial == n)
  }

  /** pid is neither a process of the kernel nor in the reaper's hands. */
  predicate Past(s: State, pid: nat) {
    pid !in s.procs && !Held(s, pid)
  }

  predicate Unrecorded(slots: seq<Slot>, pid: nat) {
    forall i :: 0 <= i < |slots| ==> slots[i].pid != pid
  }

  /** Slots that record a child record different pids. */
  predicate DistinctPids(slots: seq<Slot>) {
    forall i, j :: 0 <= i < |slots| && 0 <= j < |slots| && i != j && slots[i].pid > 0 ==> slots[i].pid != slots[j].pid
  }

  predicate WorkerOk(s: State, w: nat)
    requires w < |s.workers| && |s.slots| == |s.owner|
  {
    match s.workers[w]
    case Idle => s.mutex != Some(ByWorker(w))
    case NoSlot => s.mutex != Some(ByWorker(w))
    case Claimed(i) => s.mutex == Some(ByWorker(w)) && i < |s.slots| && IsFree(s.slots[i])
    case Forked(i, pid, n) =>
      && s.mutex == Some(ByWorker(w)) && i < |s.slots| && IsFree(s.slots[i])
      && pid > 0 && BornTo(s, n, w, pid) && n !in s.gaveUp && Underway(s, pid, n) && Unrecorded(s.slots, pid)
    case Busy(i, n, _) =>
      && s.mutex != Some(ByWorker(w)) && i < |s.slots| && s.owner[i] == w
      && s.slots[i].pid > 0 && BornTo(s, n, w, s.slots[i].pid) && n !in s.gaveUp
      && (if s.slots[i].done then n in s.ended && s.slots[i].status == s.ended[n] && Past(s, s.slots[i].pid)
          else Underway(s, s.slots[i].pid, n))
    case Returned(status, n) =>
      && s.mutex != Some(ByWorker(w))
      && n in s.born && s.born[n].parent == Some(w)
      && ((n in s.ended && status == s.ended[n]) || (status == -1 && n in s.gaveUp && s.stop))
  }

  predicate SlotOk(s: State, i: nat)
    requires i < |s.slots| == |s.owner|
  {
    IsFree(s.slots[i]) ||
    (s.owner[i] < |s.workers| && s.workers[s.owner[i]].Busy? && s.workers[s.owner[i]].slot == i)
  }

  /** The worker that forked n still waits for it, or is about to. */
  predicate Expected(s: State, w: nat, pid: nat, n: nat) {
    && w < |s.workers|
    && (|| (s.workers[w].Forked? && s.workers[w].pid == pid && s.workers[w].serial == n)
        || (s.workers[w].Busy? && s.workers[w].serial == n && s.workers[w].slot < |s.slots|
            && s.slots[s.workers[w].slot].pid == pid && !s.slots[s.workers[w].slot].done))
  }

  /** A process not yet dispatched is an orphan, an abandoned child, or expected by its worker. */
  predicate Accounted(s: State, pid: nat, n: nat) {
    n in s.born && s.born[n].pid == pid
    && (s.born[n].parent.None? || n in s.gaveUp || Expected(s, s.born[n].parent.value, pid, n))
  }

  predicate ProcOk(s: State, pid: nat)
    requires pid in s.procs
  {
    var p := s.procs[pid];
    && pid > 0 && Accounted(s, pid, p.serial) && s.born[p.serial].parent == p.parent
    && (if p.ended.Some? then p.serial in s.ended && s.ended[p.serial] == p.ended.value
        else p.serial !in s.ended)
  }

  predicate ReaperOk(s: State) {
    && (s.reaper.Dispatching? <==> s.mutex == Some(ByReaper))
    && (Reaping(s) ==>
          && s.reaper.pid > 0 && s.reaper.pid !in s.procs
          && s.reaper.serial in s.ended && s.ended[s.reaper.serial] == s.reaper.status
          && Accounted(s, s.reaper.pid, s.reaper.serial))
  }

  predicate HistoryOk(s: State) {
    && |s.slots| == |s.owner| == MAX_CONCURRENCY
    && (forall n :: n in s.born ==> n < s.next)
    && (forall n :: n in s.ended ==> n < s.next && s.ended[n] != -1)
    && (s.gaveUp != {} ==> s.stop)
    && (forall n :: n in s.gaveUp ==> n < s.next)
    && DistinctPids(s.slots)
  }

  predicate Inv(s: State) {
    && HistoryOk(s) && ReaperOk(s)
    && (forall w :: 0 <= w < |s.workers| ==> WorkerOk(s, w))
    && (forall i :: 0 <= i < |s.slots| ==> SlotOk(s, i))
    && (forall p :: p in s.procs ==> ProcOk(s, p))
  }

  lemma InitInv(n: nat)
    ensures Inv(Init(n))
  {
  }

  // ---- every step keeps it ----

  /** A step a worker takes. */
  predicate OfWorker(step: Step) {
    step.Claim? || step.ForkFails? || step.Fork? || step.Register? || step.Next? || step.Await? || step.Wake?
  }

  /** The worker a step belongs to meets its part of the invariant. */
  lemma ActorOk(s: State, step: Step)
    requires Inv(s) && Enabled(s, step)
    ensures OfWorker(step) ==> WorkerOk(s, step.w)
    ensures (step.Exit? || step.ReaperWait?) ==> ProcOk(s, step.pid)
  {
    hide WorkerOk, ProcOk;
  }

  /** A slot that is freed or gets a status keeps the pids apart, and so does one that is given a pid
      no other records. */
  lemma DistinctUpdate(slots: seq<Slot>, i: nat, x: Slot)
    requires DistinctPids(slots) && i < |slots|
    requires x.pid == 0 || x.pid == slots[i].pid || Unrecorded(slots, x.pid)
    ensures DistinctPids(slots[i := x])
  {
  }

  lemma DistinctStep(s: State, step: Step)
    requires Inv(s) && Lawful(s, step)
    ensures DistinctPids(Apply(s, step).slots)
  {
    ActorOk(s, step);
    assert HistoryOk(s);
    hide Inv, KernelMayUse, NotInUse, BornTo, Underway, Held, Past, Accounted, Expected, DistinctPids, Unrecorded;
    if step.Register? {
      var f := s.workers[step.w];
      DistinctUpdate(s.slots, f.slot, Slot(f.pid, 0, false));
    } else if step.Await? || step.Wake? {
      var k := s.workers[step.w].slot;
      DistinctUpdate(s.slots, k, Slot(0, s.slots[k].status, false));
    } else if step.ReaperDispatch? {
      var k := FirstMatch(s.slots, s.reaper.pid, 0);
      if k < |s.slots| { DistinctUpdate(s.slots, k, Slot(s.slots[k].pid, s.reaper.status, true)); }
    }
  }

  lemma HistoryStepWait(s: State, step: Step)
    requires HistoryOk(s) && Enabled(s, step) && (step.Await? || step.Wake?)
    requires DistinctPids(Apply(s, step).slots) && WorkerOk(s, step.w)
    ensures HistoryOk(Apply(s, step))
  {
    hide DistinctPids, Unrecorded, Underway, Past, Held;
  }

  lemma HistoryStepSpawn(s: State, step: Step)
    requires HistoryOk(s) && Enabled(s, step) && OfWorker(step) && !step.Await? && !step.Wake?
    requires DistinctPids(Apply(s, step).slots)
    ensures HistoryOk(Apply(s, step))
  {
    hide DistinctPids, KernelMayUse, FirstFree;
  }

  lemma HistoryStepWorker(s: State, step: Step)
    requires Inv(s) && Lawful(s, step) && OfWorker(step)
    ensures HistoryOk(Apply(s, step))
  {
    ActorOk(s, step);
    DistinctStep(s, step);
    assert HistoryOk(s) && Enabled(s, step);
    hide Inv, Lawful, HistoryOk, Enabled, Apply, DistinctPids, WorkerOk;
    if step.Await? || step.Wake? { HistoryStepWait(s, step); } else { HistoryStepSpawn(s, step); }
  }

  lemma HistoryStepOther(s: State, step: Step)
    requires Inv(s) && Lawful(s, step) && !OfWorker(step)
    ensures HistoryOk(Apply(s, step))
  {
    ActorOk(s, step);
    DistinctStep(s, step);
    assert HistoryOk(s) && ReaperOk(s);
    hide Inv, DistinctPids, Unrecorded, Underway, Past, Expected, Held, NotInUse, FirstMatch;
  }

  lemma HistoryStep(s: State, step: Step)
    requires Inv(s) && Lawful(s, step)
    ensures HistoryOk(Apply(s, step)) && |Apply(s, step).workers| == |s.workers|
  {
    SameSizes(s, step);
    hide Inv, Lawful, HistoryOk;
    if OfWorker(step) { HistoryStepWorker(s, step); } else { HistoryStepOther(s, step); }
  }

  lemma SameSizes(s: State, step: Step)
    requires Enabled(s, step)
    ensures |Apply(s, step).workers| == |s.workers| && |Apply(s, step).slots| == |s.slots|
  {
    hide KernelMayUse, FirstFree, FirstMatch;
  }

  /** A waiting worker's step leaves every process accounted for. */
  lemma AccountedAwait(s: State, step: Step, pid: nat, n: nat)
    requires Inv(s) && Lawful(s, step) && Accounted(s, pid, n)
    requires step.Await? || step.Wake?
    ensures Accounted(Apply(s, step), pid, n)
  {
    ActorOk(s, step);
    if s.born[n].parent.Some? && s.born[n].parent.value < |s.workers| {
      assert WorkerOk(s, s.born[n].parent.value);
    }
    hide Inv, Unrecorded, KernelMayUse, NotInUse;
  }

  /** So does forking and registering. */
  lemma AccountedSpawn(s: State, step: Step, pid: nat, n: nat)
    requires Inv(s) && Lawful(s, step) && Accounted(s, pid, n)
    requires step.Fork? || step.Register?
    ensures Accounted(Apply(s, step), pid, n)
  {
    ActorOk(s, step);
    if s.born[n].parent.Some? && s.born[n].parent.value < |s.workers| {
      assert WorkerOk(s, s.born[n].parent.value);
    }
    hide Inv, Unrecorded, KernelMayUse, NotInUse;
  }

  /** So does any other step of a worker. */
  lemma AccountedWorker(s: State, step: Step, pid: nat, n: nat)
    requires Inv(s) && Lawful(s, step) && Accounted(s, pid, n)
    requires step.Claim? || step.ForkFails? || step.Next?
    ensures Accounted(Apply(s, step), pid, n)
  {
    ActorOk(s, step);
    if s.born[n].parent.Some? && s.born[n].parent.value < |s.workers| {
      assert WorkerOk(s, s.born[n].parent.value);
    }
    hide Inv, Unrecorded, KernelMayUse, NotInUse;
  }

  /** A step leaves a process accounted for, unless it dispatches it. */
  lemma AccountedStep(s: State, step: Step, pid: nat, n: nat)
    requires Inv(s) && Lawful(s, step) && Accounted(s, pid, n)
    requires step.ReaperDispatch? ==> pid != s.reaper.pid
    ensures Accounted(Apply(s, step), pid, n)
  {
    if step.Claim? || step.ForkFails? || step.Next? {
      AccountedWorker(s, step, pid, n);
    } else if step.Fork? || step.Register? {
      AccountedSpawn(s, step, pid, n);
    } else if step.Await? || step.Wake? {
      AccountedAwait(s, step, pid, n);
    } else {
      ActorOk(s, step);
      if s.born[n].parent.Some? && s.born[n].parent.value < |s.workers| {
        assert WorkerOk(s, s.born[n].parent.value);
      }
    }
  }

  /** A worker's step, as the reaper sees it. */
  lemma ReaperStepWorker(s: State, step: Step)
    requires Inv(s) && Lawful(s, step) && OfWorker(step)
    ensures ReaperOk(Apply(s, step))
  {
    ActorOk(s, step);
    if Reaping(s) {
      AccountedStep(s, step, s.reaper.pid, s.reaper.serial);
    }
    hide Accounted, Expected, WorkerOk, DistinctPids, Unrecorded;
  }

  /** What the kernel does, as the reaper sees it. */
  lemma ReaperStepKernel(s: State, step: Step)
    requires Inv(s) && Lawful(s, step) && (step.Exit? || step.Orphan? || step.Stop?)
    ensures ReaperOk(Apply(s, step))
  {
    ActorOk(s, step);
    if Reaping(s) {
      AccountedStep(s, step, s.reaper.pid, s.reaper.serial);
    }
    hide Accounted, Expected, WorkerOk, SlotOk, DistinctPids, Unrecorded;
  }

  /** What the reaper does itself. */
  lemma ReaperStepOwn(s: State, step: Step)
    requires Inv(s) && Lawful(s, step) && !OfWorker(step) && !step.Exit? && !step.Orphan? && !step.Stop?
    ensures ReaperOk(Apply(s, step))
  {
    ActorOk(s, step);
    if step.ReaperLock? {
      AccountedStep(s, step, s.reaper.pid, s.reaper.serial);
    }
    if step.ReaperWait? {
      AccountedStep(s, step, step.pid, s.procs[step.pid].serial);
    }
    hide Accounted, Expected, WorkerOk, SlotOk, DistinctPids, Unrecorded;
  }

  lemma ReaperStep(s: State, step: Step)
    requires Inv(s) && Lawful(s, step)
    ensures ReaperOk(Apply(s, step))
  {
    hide Inv, Lawful, ReaperOk;
    if OfWorker(step) {
      ReaperStepWorker(s, step);
    } else if step.Exit? || step.Orphan? || step.Stop? {
      ReaperStepKernel(s, step);
    } else {
      ReaperStepOwn(s, step);
    }
  }

  /** Claiming a slot. */
  lemma WorkerStepClaim(s: State, step: Step, v: nat)
    requires Inv(s) && Lawful(s, step) && v < |s.workers| && step.Claim?
    ensures WorkerOk(Apply(s, step), v)
  {
    ActorOk(s, step);
    assert WorkerOk(s, v);
    hide Accounted, Expected, KernelMayUse, NotInUse, SlotOk, ProcOk;
  }

  /** Giving a claim up, and going on to the next message. */
  lemma WorkerStepLeave(s: State, step: Step, v: nat)
    requires Inv(s) && Lawful(s, step) && v < |s.workers|
    requires step.ForkFails? || step.Next?
    ensures WorkerOk(Apply(s, step), v)
  {
    ActorOk(s, step);
    assert WorkerOk(s, v);
    hide Accounted, Expected, KernelMayUse, NotInUse, SlotOk, ProcOk;
  }

  /** Forking and registering. */
  lemma WorkerStepSpawn(s: State, step: Step, v: nat)
    requires Inv(s) && Lawful(s, step) && v < |s.workers|
    requires step.Fork? || step.Register?
    ensures WorkerOk(Apply(s, step), v)
  {
    ActorOk(s, step);
    assert WorkerOk(s, v);
  }

  /** Going to sleep and waking up. */
  lemma WorkerStepWake(s: State, step: Step, v: nat)
    requires Inv(s) && Lawful(s, step) && v < |s.workers| && step.Wake?
    ensures WorkerOk(Apply(s, step), v)
  {
    ActorOk(s, step);
    assert WorkerOk(s, v);
    if s.workers[step.w].Busy? {
      assert SlotOk(s, s.workers[step.w].slot);
    }
    hide Inv, Accounted, Expected;
  }

  /** Waiting for the child. */
  lemma WorkerStepAwait(s: State, step: Step, v: nat)
    requires Inv(s) && Lawful(s, step) && v < |s.workers| && step.Await?
    ensures WorkerOk(Apply(s, step), v)
  {
    ActorOk(s, step);
    assert WorkerOk(s, v);
    if s.workers[step.w].Busy? {
      assert SlotOk(s, s.workers[step.w].slot);
    }
    hide Inv, Accounted, Expected;
  }

  /** What kernel, reaper and signals do. */
  lemma WorkerStepKernel(s: State, step: Step, v: nat)
    requires Inv(s) && Lawful(s, step) && v < |s.workers|
    requires !OfWorker(step)
    requires !step.ReaperDispatch?
    ensures WorkerOk(Apply(s, step), v)
  {
    ActorOk(s, step);
    assert WorkerOk(s, v);
  }

  /** The reaper hands a status to the slot that records its pid. */
  lemma WorkerStepDispatch(s: State, v: nat)
    requires Inv(s) && Lawful(s, ReaperDispatch) && v < |s.workers|
    ensures WorkerOk(Apply(s, ReaperDispatch), v)
  {
    assert WorkerOk(s, v);
    if s.workers[v].Busy? {
      var i := s.workers[v].slot;
      var k := FirstMatch(s.slots, s.reaper.pid, 0);
      assert s.slots[i].pid == s.reaper.pid ==> k == i;
    }
  }

  lemma WorkerStep(s: State, step: Step, v: nat)
    requires Inv(s) && Lawful(s, step) && v < |s.workers|
    ensures WorkerOk(Apply(s, step), v)
  {
    hide Inv, WorkerOk, Lawful;
    if step.Claim? {
      WorkerStepClaim(s, step, v);
    } else if step.ForkFails? || step.Next? {
      WorkerStepLeave(s, step, v);
    } else if step.Fork? || step.Register? {
      WorkerStepSpawn(s, step, v);
    } else if step.Await? {
      WorkerStepAwait(s, step, v);
    } else if step.Wake? {
      WorkerStepWake(s, step, v);
    } else if step.ReaperDispatch? {
      WorkerStepDispatch(s, v);
    } else {
      WorkerStepKernel(s, step, v);
    }
  }

  lemma SlotStepWorker(s: State, step: Step, i: nat)
    requires Inv(s) && Lawful(s, step) && i < |s.slots| && OfWorker(step)
    ensures SlotOk(Apply(s, step), i)
  {
    ActorOk(s, step);
    assert SlotOk(s, i) && |s.slots| == |s.owner|;
    hide Inv, Accounted, Expected, Underway, Unrecorded, KernelMayUse, NotInUse, BornTo;
  }

  lemma SlotStepOther(s: State, step: Step, i: nat)
    requires Inv(s) && Lawful(s, step) && i < |s.slots| && !OfWorker(step)
    ensures SlotOk(Apply(s, step), i)
  {
    assert SlotOk(s, i) && ReaperOk(s) && |s.slots| == |s.owner|;
    hide Inv, Accounted, Expected, KernelMayUse, NotInUse;
  }

  lemma SlotStep(s: State, step: Step, i: nat)
    requires Inv(s) && Lawful(s, step) && i < |s.slots|
    ensures SlotOk(Apply(s, step), i)
  {
    hide Inv, Lawful, SlotOk;
    if OfWorker(step) { SlotStepWorker(s, step, i); } else { SlotStepOther(s, step, i); }
  }

  /** A process that was there before the step. */
  lemma ProcStays(s: State, step: Step, p: nat)
    requires HistoryOk(s) && Enabled(s, step) && !step.Exit? && p in s.procs && p in Apply(s, step).procs
    requires s.procs[p].serial in s.born
    requires ProcOk(s, p) && Accounted(Apply(s, step), p, s.procs[p].serial)
    ensures ProcOk(Apply(s, step), p)
  {
    hide Accounted, FirstFree, FirstMatch, DistinctPids;
  }

  lemma ProcExits(s: State, pid: nat, status: int, p: nat)
    requires Enabled(s, Exit(pid, status)) && p in s.procs
    requires ProcOk(s, p) && ProcOk(s, pid) && Accounted(Apply(s, Exit(pid, status)), p, s.procs[p].serial)
    ensures ProcOk(Apply(s, Exit(pid, status)), p)
  {
    hide Expected;
  }

  lemma ProcNew(s: State, step: Step, p: nat)
    requires HistoryOk(s) && Lawful(s, step) && p !in s.procs && p in Apply(s, step).procs
    ensures ProcOk(Apply(s, step), p)
  {
    hide FirstFree, FirstMatch, DistinctPids, NotInUse;
  }

  lemma ProcStep(s: State, step: Step, p: nat)
    requires Inv(s) && Lawful(s, step) && p in Apply(s, step).procs
    ensures ProcOk(Apply(s, step), p)
  {
    assert HistoryOk(s) && Enabled(s, step);
    if p in s.procs {
      ActorOk(s, step);
      assert ProcOk(s, p) && ReaperOk(s);
      assert Accounted(s, p, s.procs[p].serial) && s.procs[p].serial in s.born;
      assert step.ReaperDispatch? ==> p != s.reaper.pid;
      hide Inv, Lawful, HistoryOk, Enabled, Apply, ProcOk, Accounted, ReaperOk, WorkerOk;
      AccountedStep(s, step, p, s.procs[p].serial);
      if step.Exit? { ProcExits(s, step.pid, step.status, p); } else { ProcStays(s, step, p); }
    } else {
      ProcNew(s, step, p);
    }
  }

  lemma StepInv(s: State, step: Step)
    requires Inv(s) && Lawful(s, step)
    ensures Inv(Apply(s, step)) && |Apply(s, step).workers| == |s.workers|
  {
    var s' := Apply(s, step);
    SameSizes(s, step);
    HistoryStep(s, step);
    ReaperStep(s, step);
    assert |s'.slots| == |s'.owner|;
    hide Apply, Enabled, Lawful, WorkerOk, SlotOk, ProcOk, HistoryOk, ReaperOk;
    forall w | 0 <= w < |s'.workers| ensures WorkerOk(s', w) { WorkerStep(s, step, w); }
    forall i | 0 <= i < |s'.slots| ensures SlotOk(s', i) { SlotStep(s, step, i); }
    forall p | p in s'.procs ensures ProcOk(s', p) { ProcStep(s, step, p); }
  }

  // ---- what holds in every run ----

  lemma RunsStep(s: State, steps: seq<Step>)
    requires Runs(s, steps, true) && steps != []
    ensures Lawful(s, steps[0]) && Runs(Apply(s, steps[0]), steps[1..], true)
    ensures After(s, steps, true) == After(Apply(s, steps[0]), steps[1..], true)
  {
    hide Enabled, Apply, NotInUse;
  }

  lemma {:induction false} EveryRun(s: State, steps: seq<Step>)
    requires Inv(s) && Runs(s, steps, true)
    ensures Inv(After(s, steps, true)) && |After(s, steps, true).workers| == |s.workers|
    decreases |steps|
  {
    if steps == [] {
      assert After(s, steps, true) == s;
    } else {
      RunsStep(s, steps);
      hide *;
      StepInv(s, steps[0]);
      EveryRun(Apply(s, steps[0]), steps[1..]);
    }
  }

  lemma HistoryKept(s: State, step: Step)
    requires Inv(s) && Lawful(s, step)
    ensures
      var s1 := Apply(s, step);
      && (forall n :: n in s.born ==> n in s1.born && s1.born[n] == s.born[n])
      && (forall n :: n in s.ended ==> n in s1.ended && s1.ended[n] == s.ended[n])
  {
    ActorOk(s, step);
    hide WorkerOk, SlotOk, Accounted, Expected, DistinctPids;
  }

  /** The kernel's history is never rewritten: a serial keeps its parent, its pid and, once
      it has ended, its status. */
  lemma {:induction false} HistoryStays(s: State, steps: seq<Step>)
    requires Inv(s) && Runs(s, steps, true)
    ensures
      var s' := After(s, steps, true);
      && (forall n :: n in s.born ==> n in s'.born && s'.born[n] == s.born[n])
      && (forall n :: n in s.ended ==> n in s'.ended && s'.ended[n] == s.ended[n])
    decreases |steps|
  {
    if steps != [] {
      RunsStep(s, steps);
      hide *;
      StepInv(s, steps[0]);
      HistoryKept(s, steps[0]);
      HistoryStays(Apply(s, steps[0]), steps[1..]);
    }
  }

  /** In every reachable state, whatever await_child has returned to a worker is the raw status
      its own child ended with, or -1 because the wait was interrupted by the stop flag; -1
      means nothing else. It is never the status of another worker's child or of an orphan. */
  lemma StatusIsOwn(concurrency: int, steps: seq<Step>, w: nat)
    requires Runs(Init(Clamp(concurrency)), steps, true)
    requires
      var s := After(Init(Clamp(concurrency)), steps, true);
      w < |s.workers| && s.workers[w].Returned?
    ensures
      var s := After(Init(Clamp(concurrency)), steps, true);
      var r := s.workers[w];
      && r.serial in s.born && s.born[r.serial].parent == Some(w)
      && (r.status != -1 ==> r.serial in s.ended && r.status == s.ended[r.serial])
      && (r.status == -1 ==> r.serial in s.gaveUp && s.stop)
  {
    InitInv(Clamp(concurrency));
    EveryRun(Init(Clamp(concurrency)), steps);
    assert WorkerOk(After(Init(Clamp(concurrency)), steps, true), w);
  }

  /** While the reaper holds the mutex: a pid that matches a slot belongs to the child of the
      very worker waiting on that slot, and a pid that matches none is an orphan or the child
      of a worker that was interrupted. */
  lemma DispatchGoesHome(concurrency: int, steps: seq<Step>)
    requires Runs(Init(Clamp(concurrency)), steps, true)
    requires After(Init(Clamp(concurrency)), steps, true).reaper.Dispatching?
    ensures
      var s := After(Init(Clamp(concurrency)), steps, true);
      var k := FirstMatch(s.slots, s.reaper.pid, 0);
      && s.reaper.serial in s.born
      && (k < |s.slots| <==> s.born[s.reaper.serial].parent.Some? && s.reaper.serial !in s.gaveUp)
      && (k < |s.slots| ==>
            var w := s.born[s.reaper.serial].parent.value;
            w < |s.workers| && s.workers[w].Busy? && s.workers[w].slot == k && s.workers[w].serial == s.reaper.serial)
  {
    var n := Clamp(concurrency);
    InitInv(n);
    EveryRun(Init(n), steps);
    var s := After(Init(n), steps, true);
    hide Runs, After;
    var k := FirstMatch(s.slots, s.reaper.pid, 0);
    var birth := s.born[s.reaper.serial];
    if birth.parent.Some? && birth.parent.value < |s.workers| {
      assert WorkerOk(s, birth.parent.value);
    }
    if k < |s.slots| {
      assert SlotOk(s, k);
      assert WorkerOk(s, s.owner[k]);
    }
  }

  // ---- a free slot always exists ----

  /** Owners of the first k slots. */
  ghost function Owners(s: State, k: nat): set<nat>
    requires k <= |s.owner|
  {
    set i | 0 <= i < k :: s.owner[i]
  }

  lemma {:induction false} OwnersCount(s: State, k: nat)
    requires Inv(s) && k <= |s.slots|
    requires forall i :: 0 <= i < |s.slots| ==> !IsFree(s.slots[i])
    ensures |Owners(s, k)| == k
  {
    if k > 0 {
      OwnersCount(s, k - 1);
      assert SlotOk(s, k - 1);
      forall i | 0 <= i < k - 1 ensures s.owner[i] != s.owner[k - 1] {
        assert SlotOk(s, i);
      }
      hide Inv;
      assert Owners(s, k) == Owners(s, k - 1) + {s.owner[k - 1]};
    }
  }

  lemma {:induction false} BelowCount(n: nat, xs: set<nat>)
    requires forall x :: x in xs ==> x < n
    ensures |xs| <= n
  {
    if n > 0 {
      BelowCount(n - 1, xs - {n - 1});
    } else {
      assert xs == {};
    }
  }

  /** With no more workers than slots, a worker that is not waiting finds a free slot. */
  lemma FreeSlotExists(s: State, w: nat)
    requires Inv(s) && |s.workers| <= MAX_CONCURRENCY && w < |s.workers| && !s.workers[w].Busy?
    ensures FirstFree(s.slots, 0) < |s.slots|
  {
    if FirstFree(s.slots, 0) == |s.slots| {
      OwnersCount(s, |s.slots|);
      var owners := Owners(s, |s.slots|);
      forall x | x in owners ensures x < |s.workers| && x != w {
        var i :| 0 <= i < |s.slots| && s.owner[i] == x;
        assert SlotOk(s, i);
      }
      BelowCount(|s.workers|, owners + {w});
    }
  }

  predicate NoneStranded(s: State) {
    forall w :: 0 <= w < |s.workers| ==> !s.workers[w].NoSlot?
  }

  /** With the concurrency cfg_load allows, no worker ever finds the table full. */
  lemma NeverFull(concurrency: int, steps: seq<Step>)
    requires Runs(Init(Clamp(concurrency)), steps, true)
    ensures NoneStranded(After(Init(Clamp(concurrency)), steps, true))
  {
    InitInv(Clamp(concurrency));
    NeverFullFrom(Init(Clamp(concurrency)), steps);
  }

  lemma {:induction false} NeverFullFrom(s: State, steps: seq<Step>)
    requires Inv(s) && NoneStranded(s) && |s.workers| <= MAX_CONCURRENCY && Runs(s, steps, true)
    ensures NoneStranded(After(s, steps, true))
    decreases |steps|
  {
    if steps == [] {
      assert After(s, steps, true) == s;
    } else {
      RunsStep(s, steps);
      hide *;
      StepInv(s, steps[0]);
      NotStrandedStep(s, steps[0]);
      NeverFullFrom(Apply(s, steps[0]), steps[1..]);
    }
  }

  lemma NotStrandedStep(s: State, step: Step)
    requires Inv(s) && NoneStranded(s) && |s.workers| <= MAX_CONCURRENCY && Lawful(s, step)
    ensures NoneStranded(Apply(s, step)) && |Apply(s, step).workers| == |s.workers|
  {
    if step.Claim? {
      FreeSlotExists(s, step.w);
    }
    hide Inv;
  }

  // ---- without the assumption about pids ----

  lemma RunsOn(s: State, step: Step, rest: seq<Step>)
    requires Enabled(s, step) && Runs(Apply(s, step), rest, false)
    ensures Runs(s, [step] + rest, false)
    ensures After(s, [step] + rest, false) == After(Apply(s, step), rest, false)
  {
    hide Enabled, Apply, Lawful;
    assert ([step] + rest)[1..] == rest;
  }

  /** An orphan known as pid 7 succeeds and is reaped; before the reaper gets the mutex the
      kernel gives pid 7 to the child a worker forks and registers. */
  const REISSUE: seq<Step> := [
    Orphan(7), Exit(7, 0), ReaperCheck, ReaperWait(7), Claim(0), Fork(0, 7), Register(0),
    ReaperLock, ReaperDispatch, Await(0)]

  function Tail(k: nat): seq<Step>
    requires k <= |REISSUE|
  {
    REISSUE[k..]
  }

  lemma RunsTail(s: State, k: nat)
    requires k < |REISSUE| && Enabled(s, REISSUE[k]) && Runs(Apply(s, REISSUE[k]), Tail(k + 1), false)
    ensures Runs(s, Tail(k), false) && After(s, Tail(k), false) == After(Apply(s, REISSUE[k]), Tail(k + 1), false)
  {
    RunsOn(s, REISSUE[k], Tail(k + 1));
    assert [REISSUE[k]] + Tail(k + 1) == Tail(k);
  }

  /** The orphan is in the reaper's hands; its pid is free again for the kernel. */
  function Reaped(): State {
    Init(1).(reaper := Holding(7, 0, 0), next := 1, born := map[0 := Birth(None, 7)], ended := map[0 := 0])
  }

  /** Worker 0 has forked and registered another pid 7. */
  function Reissued(): State {
    var s := Reaped();
    s.(slots := s.slots[0 := Slot(7, 0, false)], workers := [Busy(0, 1, false)],
       procs := map[7 := Proc(1, Some(0), None)], next := 2, born := s.born[1 := Birth(Some(0), 7)])
  }

  /** The dispatched status of the orphan has reached worker 0. */
  function Misled(): State {
    var s := Reissued();
    s.(slots := s.slots[0 := Slot(0, 0, false)], workers := [Returned(0, 1)], reaper := Checking)
  }

  lemma ToReaped() returns (s1: State, s2: State, s3: State)
    ensures Enabled(Init(1), Orphan(7)) && s1 == Apply(Init(1), Orphan(7))
    ensures Enabled(s1, Exit(7, 0)) && s2 == Apply(s1, Exit(7, 0))
    ensures Enabled(s2, ReaperCheck) && s3 == Apply(s2, ReaperCheck)
    ensures Enabled(s3, ReaperWait(7)) && Reaped() == Apply(s3, ReaperWait(7))
  {
    s1 := Apply(Init(1), Orphan(7));
    s2 := Apply(s1, Exit(7, 0));
    s3 := Apply(s2, ReaperCheck);
    assert s3.procs == map[7 := Proc(0, None, Some(0))];
    assert Apply(s3, ReaperWait(7)).procs == map[];
  }

  lemma ToReissued() returns (s5: State, s6: State)
    ensures Enabled(Reaped(), Claim(0)) && s5 == Apply(Reaped(), Claim(0))
    ensures Enabled(s5, Fork(0, 7)) && s6 == Apply(s5, Fork(0, 7))
    ensures Enabled(s6, Register(0)) && Reissued() == Apply(s6, Register(0))
  {
    var s := Reaped();
    assert FirstFree(s.slots, 0) == 0;
    s5 := Apply(s, Claim(0));
    assert s5 == s.(workers := [Claimed(0)], mutex := Some(ByWorker(0)));
    s6 := Apply(s5, Fork(0, 7));
    assert s6.workers == [Forked(0, 7, 1)];
    assert s6.owner[0 := 0] == s.owner;
  }

  lemma ToMisled() returns (s8: State, s9: State)
    ensures Enabled(Reissued(), ReaperLock) && s8 == Apply(Reissued(), ReaperLock)
    ensures Enabled(s8, ReaperDispatch) && s9 == Apply(s8, ReaperDispatch)
    ensures Enabled(s9, Await(0)) && Misled() == Apply(s9, Await(0))
  {
    var s := Reissued();
    s8 := Apply(s, ReaperLock);
    assert FirstMatch(s8.slots, 7, 0) == 0;
    s9 := Apply(s8, ReaperDispatch);
    assert s9.slots == s.slots[0 := Slot(7, 0, true)];
    assert s9.workers[0 := Returned(0, 1)] == [Returned(0, 1)];
  }

  /** The assumption is needed: if a pid may be given out again while the reaper holds it, a
      worker is told that its child succeeded while that child is still running. */
  lemma ReissuedPidMisleads()
    ensures Runs(Init(1), REISSUE, false) && After(Init(1), REISSUE, false) == Misled()
    ensures
      var s := Misled();
      && s.workers[0] == Returned(0, 1)
      && s.born[1].parent == Some(0) && 1 !in s.ended && s.procs[7] == Proc(1, Some(0), None)
  {
    var s1, s2, s3 := ToReaped();
    var s5, s6 := ToReissued();
    var s8, s9 := ToMisled();
    hide Enabled, Apply, Runs, After;
    Unwind(Init(1), s1, s2, s3, Reaped(), s5, s6, Reissued(), s8, s9, Misled());
  }

  lemma TailEnds()
    ensures Tail(10) == [] && Tail(0) == REISSUE
  {
  }

  lemma Unwind(s0: State, s1: State, s2: State, s3: State, s4: State, s5: State, s6: State, s7: State,
               s8: State, s9: State, s10: State)
    requires Enabled(s0, Orphan(7)) && s1 == Apply(s0, Orphan(7))
    requires Enabled(s1, Exit(7, 0)) && s2 == Apply(s1, Exit(7, 0))
    requires Enabled(s2, ReaperCheck) && s3 == Apply(s2, ReaperCheck)
    requires Enabled(s3, ReaperWait(7)) && s4 == Apply(s3, ReaperWait(7))
    requires Enabled(s4, Claim(0)) && s5 == Apply(s4, Claim(0))
    requires Enabled(s5, Fork(0, 7)) && s6 == Apply(s5, Fork(0, 7))
    requires Enabled(s6, Register(0)) && s7 == Apply(s6, Register(0))
    requires Enabled(s7, ReaperLock) && s8 == Apply(s7, ReaperLock)
    requires Enabled(s8, ReaperDispatch) && s9 == Apply(s8, ReaperDispatch)
    requires Enabled(s9, Await(0)) && s10 == Apply(s9, Await(0))
    ensures Runs(s0, REISSUE, false) && After(s0, REISSUE, false) == s10
  {
    TailEnds();
    RunsEnd(s10);
    hide Enabled, Apply, Lawful, Runs, After, Tail;
    RunsTail(s9, 9);
    RunsTail(s8, 8);
    RunsTail(s7, 7);
    RunsTail(s6, 6);
    RunsTail(s5, 5);
    RunsTail(s4, 4);
    RunsTail(s3, 3);
    RunsTail(s2, 2);
    RunsTail(s1, 1);
    RunsTail(s0, 0);
  }

  lemma RunsEnd(s: State)
    ensures Runs(s, [], false) && After(s, [], false) == s
  {
  }
}
