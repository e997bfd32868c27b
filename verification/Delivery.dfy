/** No exit status is lost: where the status of a child is that a worker waits for, and how it gets to
    the worker from any state of any run. */
module Delivery {
  import opened Options
  import opened SlotTable
  import opened Dispatcher

  // ---- where a status is ----

  /** The kernel still runs child n, known as pid. */
  predicate Running(s: State, pid: nat, n: nat) {
    pid in s.procs && s.procs[pid] == Proc(n, s.procs[pid].parent, None)
  }

  /** The kernel keeps the status of child n for waitpid. */
  predicate Zombie(s: State, pid: nat, n: nat, status: int) {
    pid in s.procs && s.procs[pid] == Proc(n, s.procs[pid].parent, Some(status))
  }

  /** The reaper has collected it. */
  predicate Collected(s: State, pid: nat, n: nat, status: int) {
    Held(s, pid) && s.reaper.serial == n && s.reaper.status == status
  }

  /** It stands in the slot of the worker that waits. */
  predicate Delivered(s: State, i: nat, status: int)
    requires i < |s.slots|
  {
    s.slots[i].done && s.slots[i].status == status
  }

  predicate Waits(s: State, w: nat, n: nat) {
    w < |s.workers| && s.workers[w].Busy? && s.workers[w].serial == n && s.workers[w].slot < |s.slots|
  }

  /** In every reachable state, for every worker that waits: its child runs and has no status, or the
      status it ended with is in exactly one of three places: with the kernel, with the reaper, or in the
      worker's own slot. */
  lemma NoStatusLost(concurrency: int, steps: seq<Step>, w: nat, n: nat)
    requires Runs(Init(Clamp(concurrency)), steps, true)
    requires Waits(After(Init(Clamp(concurrency)), steps, true), w, n)
    ensures
      var s := After(Init(Clamp(concurrency)), steps, true);
      var i := s.workers[w].slot;
      var pid := s.slots[i].pid;
      if n !in s.ended then Running(s, pid, n) && !Held(s, pid) && !s.slots[i].done
      else
        var status := s.ended[n];
        || (Zombie(s, pid, n, status) && !Held(s, pid) && !s.slots[i].done)
        || (Collected(s, pid, n, status) && pid !in s.procs && !s.slots[i].done)
        || (Delivered(s, i, status) && pid !in s.procs && !Held(s, pid))
  {
    InitInv(Clamp(concurrency));
    EveryRun(Init(Clamp(concurrency)), steps);
    StatusIsSomewhere(After(Init(Clamp(concurrency)), steps, true), w, n);
  }

  lemma StatusIsSomewhere(s: State, w: nat, n: nat)
    requires Inv(s) && Waits(s, w, n)
    ensures
      var i := s.workers[w].slot;
      var pid := s.slots[i].pid;
      if n !in s.ended then Running(s, pid, n) && !Held(s, pid) && !s.slots[i].done
      else
        var status := s.ended[n];
        || (Zombie(s, pid, n, status) && !Held(s, pid) && !s.slots[i].done)
        || (Collected(s, pid, n, status) && pid !in s.procs && !s.slots[i].done)
        || (Delivered(s, i, status) && pid !in s.procs && !Held(s, pid))
  {
    assert WorkerOk(s, w) && ReaperOk(s);
    var pid := s.slots[s.workers[w].slot].pid;
    if pid in s.procs { assert ProcOk(s, pid); }
    hide Inv, Accounted, DistinctPids, Unrecorded;
  }

  /** A worker that looks at its slot is told its child's status if it has arrived, stop flag or not; only a
      status that has not arrived is given up, after a wait and when the stop flag is set. */
  lemma ToldExactly(concurrency: int, steps: seq<Step>, w: nat, n: nat, step: Step)
    requires Runs(Init(Clamp(concurrency)), steps, true)
    requires var s := After(Init(Clamp(concurrency)), steps, true);
      Waits(s, w, n) && (step == Await(w) || step == Wake(w)) && Enabled(s, step)
    ensures
      var s := After(Init(Clamp(concurrency)), steps, true);
      var arrived := s.slots[s.workers[w].slot].done;
      var after := Apply(s, step).workers[w];
      && (arrived ==> n in s.ended && after == Returned(s.ended[n], n))
      && (!arrived ==>
            if step.Wake? && s.stop then after == Returned(-1, n) else after == Busy(s.workers[w].slot, n, true))
  {
    InitInv(Clamp(concurrency));
    EveryRun(Init(Clamp(concurrency)), steps);
    var s := After(Init(Clamp(concurrency)), steps, true);
    StatusIsSomewhere(s, w, n);
    assert WorkerOk(s, w) && |s.workers| == |Apply(s, step).workers|;
    hide Inv, Runs, After, Init, Clamp;
  }

  // ---- how it gets there ----

  /** The mutex is held by someone who exists, and the reaper only leaves when told to stop. */
  predicate Attended(s: State) {
    && (s.mutex.Some? && s.mutex.value.ByWorker? ==>
          var v := s.mutex.value.w; v < |s.workers| && (s.workers[v].Claimed? || s.workers[v].Forked?))
    && (s.reaper.Gone? ==> s.stop)
  }

  lemma AttendedStep(s: State, step: Step)
    requires Inv(s) && Attended(s) && Lawful(s, step)
    ensures Attended(Apply(s, step))
  {
    ActorOk(s, step);
    assert ReaperOk(s);
    hide Inv, SlotOk, ProcOk, Accounted, DistinctPids, Unrecorded, NotInUse, Dispatched, Freed, Registered;
  }

  lemma {:induction false} AlwaysAttended(s: State, steps: seq<Step>)
    requires Inv(s) && Attended(s) && Runs(s, steps, true)
    ensures Attended(After(s, steps, true))
    decreases |steps|
  {
    if steps == [] {
      assert After(s, steps, true) == s;
    } else {
      RunsStep(s, steps);
      hide *;
      StepInv(s, steps[0]);
      AttendedStep(s, steps[0]);
      AlwaysAttended(Apply(s, steps[0]), steps[1..]);
    }
  }

  lemma OnwardRuns(s: State, step: Step, rest: seq<Step>)
    requires Lawful(s, step) && Runs(Apply(s, step), rest, true)
    ensures Runs(s, [step] + rest, true)
    ensures After(s, [step] + rest, true) == After(Apply(s, step), rest, true)
  {
    hide Enabled, Apply, Lawful;
    LawfulEnabled(s, step);
    assert ([step] + rest)[1..] == rest;
  }

  lemma LawfulEnabled(s: State, step: Step)
    requires Lawful(s, step)
    ensures Enabled(s, step)
  {
    hide Enabled, NotInUse;
  }

  /** How many more steps the status has to go at most. */
  function Distance(s: State, w: nat, n: nat): nat
    requires Waits(s, w, n)
  {
    var far :=
      if s.slots[s.workers[w].slot].done then (if s.reaper.Dispatching? then 2 else 1)
      else match s.reaper
        case Dispatching(_, _, m) => if m == n then 3 else 7
        case Holding(_, _, m) => if m == n then 4 else 8
        case Polling => 5
        case _ => 6;
    2 * far + if s.mutex.Some? && s.mutex.value.ByWorker? then 1 else 0
  }

  /** The next step on the way. */
  function Onward(s: State, w: nat, n: nat): Step
    requires Waits(s, w, n)
  {
    var i := s.workers[w].slot;
    if s.mutex.Some? && s.mutex.value.ByWorker? then
      var v := s.mutex.value.w;
      if v < |s.workers| && s.workers[v].Forked? then Register(v) else ForkFails(v)
    else if s.reaper.Dispatching? then ReaperDispatch
    else if s.slots[i].done then (if s.workers[w].parked then Wake(w) else Await(w))
    else match s.reaper
      case Holding(_, _, _) => ReaperLock
      case Polling => ReaperWait(s.slots[i].pid)
      case _ => ReaperCheck
  }

  lemma OnwardLawful(s: State, w: nat, n: nat)
    requires Inv(s) && Attended(s) && !s.stop && Waits(s, w, n) && n in s.ended
    ensures Lawful(s, Onward(s, w, n))
  {
    StatusIsSomewhere(s, w, n);
    assert ReaperOk(s);
    if s.mutex.Some? && s.mutex.value.ByWorker? {
      assert WorkerOk(s, s.mutex.value.w) && HistoryOk(s);
    }
    hide Inv, WorkerOk, SlotOk, ProcOk, Accounted, DistinctPids, Unrecorded, NotInUse;
  }

  /** A step onward brings the status nearer or hands it over. */
  lemma OnwardNearer(s: State, w: nat, n: nat)
    requires Inv(s) && Attended(s) && !s.stop && Waits(s, w, n) && n in s.ended && Lawful(s, Onward(s, w, n))
    ensures
      var s' := Apply(s, Onward(s, w, n));
      && !s'.stop && n in s'.ended && s'.ended[n] == s.ended[n]
      && w < |s'.workers|
      && (s'.workers[w] == Returned(s.ended[n], n) || (Waits(s', w, n) && Distance(s', w, n) < Distance(s, w, n)))
  {
    StatusIsSomewhere(s, w, n);
    assert WorkerOk(s, w) && ReaperOk(s) && HistoryOk(s);
    if s.mutex.Some? && s.mutex.value.ByWorker? {
      assert WorkerOk(s, s.mutex.value.w);
    }
    hide Inv, SlotOk, ProcOk, Accounted, Unrecorded, NotInUse;
  }

  lemma {:induction false} Arrives(s: State, w: nat, n: nat) returns (steps: seq<Step>)
    requires Inv(s) && Attended(s) && !s.stop && Waits(s, w, n) && n in s.ended
    ensures Runs(s, steps, true)
    ensures w < |After(s, steps, true).workers| && After(s, steps, true).workers[w] == Returned(s.ended[n], n)
    decreases Distance(s, w, n)
  {
    hide *;
    OnwardLawful(s, w, n);
    OnwardNearer(s, w, n);
    var step := Onward(s, w, n);
    LawfulEnabled(s, step);
    var s' := Apply(s, step);
    StepInv(s, step);
    AttendedStep(s, step);
    var rest: seq<Step> := [];
    if s'.workers[w] == Returned(s.ended[n], n) {
      NoMore(s');
    } else {
      rest := Arrives(s', w, n);
    }
    OnwardRuns(s, step, rest);
    steps := [step] + rest;
  }

  lemma NoMore(s: State)
    ensures Runs(s, [], true) && After(s, [], true) == s
  {
  }

  /** From every reachable state of a process not told to stop, whoever holds the mutex and whatever the reaper is
      doing, a run goes on that hands a waiting worker the status its own child ended with. */
  lemma {:induction false} StatusArrives(concurrency: int, steps: seq<Step>, w: nat, n: nat)
    returns (rest: seq<Step>)
    requires Runs(Init(Clamp(concurrency)), steps, true)
    requires
      var s := After(Init(Clamp(concurrency)), steps, true);
      !s.stop && Waits(s, w, n) && n in s.ended
    ensures
      var s := After(Init(Clamp(concurrency)), steps, true);
      && Runs(s, rest, true) && w < |After(s, rest, true).workers|
      && After(s, rest, true).workers[w] == Returned(s.ended[n], n)
  {
    var s0 := Init(Clamp(concurrency));
    InitInv(Clamp(concurrency));
    assert Attended(s0);
    hide *;
    EveryRun(s0, steps);
    AlwaysAttended(s0, steps);
    rest := Arrives(After(s0, steps, true), w, n);
  }
}
