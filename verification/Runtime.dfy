/** The layers put together: the handler runs of a mesh are children that the dispatcher of their
    actor forked, awaited and reaped. */
module Runtime {
  import opened Bytes
  import opened Options
  import opened Retry
  import opened Mesh
  import Dispatcher
  import SlotTable
  import Spawn

  /** One call of platform_spawn: what the actor's process has done until it returns, what happened
      around the handler, what the handler wrote, and how it and its relay ended. */
  datatype Spawned = Spawned(
    process: seq<Dispatcher.Step>, setup: Spawn.Setup, output: Bytes, child: Spawn.Child)

  /** What invoke_handler reports for a return value of platform_spawn. */
  function Reported(r: int, output: Bytes): Run {
    if r >= 0 then Output(output) else if r == -2 then TooBig else Failed
  }

  predicate Lawful(threads: nat, e: Spawned) {
    Dispatcher.Runs(Dispatcher.Init(SlotTable.Clamp(threads)), e.process, true)
  }

  /** The process with so many workers when platform_spawn returns. */
  function End(threads: nat, e: Spawned): Dispatcher.State
    requires Lawful(threads, e)
  {
    Dispatcher.After(Dispatcher.Init(SlotTable.Clamp(threads)), e.process, true)
  }

  /** The worker has awaited its child, and the kernel's statuses are those of the children. */
  predicate Awaited(threads: nat, w: nat, e: Spawned) {
    && Lawful(threads, e) && Spawn.ChildPossible(e.child)
    && var d := End(threads, e);
    && w < |d.workers| && d.workers[w].Returned?
    && (d.workers[w].serial in d.ended ==> d.ended[d.workers[w].serial] == Spawn.Raw(Spawn.ChildEnd(e.child)))
  }

  /** The report of worker w's handler run comes from this call of platform_spawn. */
  predicate Backed(threads: nat, w: nat, run: Run, e: Spawned) {
    if Spawn.Ready(e.setup) then
      Awaited(threads, w, e) &&
      run == Reported(Spawn.Result(e.setup, e.output, PAYLOAD_CAP, End(threads, e).workers[w].status), e.output)
    else run == Failed
  }

  /** Worker w forked the child and was told its status, the innermost handler exited with 0 or its
      relay could not wait for it, and the output is under the cap. */
  predicate RanWell(threads: nat, w: nat, e: Spawned) {
    && Spawn.Ready(e.setup) && |e.output| < PAYLOAD_CAP && Awaited(threads, w, e)
    && var d := End(threads, e);
    var n := d.workers[w].serial;
    && n in d.born && d.born[n].parent == Some(w)
    && n in d.ended && d.workers[w].status == d.ended[n] == Spawn.Raw(Spawn.ChildEnd(e.child))
    && (Spawn.Succeeded(e.child) || e.child == Spawn.Relayed(Spawn.Fails))
  }

  /** A run is reported with output exactly when the worker's own child ran well, and then with the
      whole of what that child wrote. */
  lemma OutputExactly(threads: nat, w: nat, run: Run, e: Spawned)
    requires Backed(threads, w, run, e)
    ensures run.Output? <==> RanWell(threads, w, e)
    ensures run.Output? ==> run.bytes == e.output
    ensures run.TooBig? <==> Spawn.Ready(e.setup) && |e.output| >= PAYLOAD_CAP
  {
    if Spawn.Ready(e.setup) {
      Dispatcher.StatusIsOwn(threads, e.process, w);
      var d := End(threads, e);
      hide Dispatcher.Runs, Dispatcher.After, Dispatcher.Init, SlotTable.Clamp;
      Spawn.SuccessExactly(e.setup, e.output, PAYLOAD_CAP, e.child, d.workers[w].status == -1);
    }
  }

  // ---- the runs of a mesh ----

  /** Every handler run of a mesh run comes from a call of platform_spawn in its actor's process. */
  ghost predicate AllBacked(states: seq<State>, steps: seq<Step>, spawned: seq<Spawned>) {
    && |states| == |steps| + 1 && |spawned| == |steps|
    && forall q :: 0 <= q < |steps| && steps[q].RunHandler? ==>
      && steps[q].a < |states[q].actors|
      && Backed(|states[q].actors[steps[q].a].workers|, steps[q].w, steps[q].run, spawned[q])
  }

  /** Step q is a handler run of actor a's worker w on message j. */
  predicate RanAt(states: seq<State>, steps: seq<Step>, q: nat, a: nat, w: nat, j: nat, run: Run) {
    && q < |steps| && q < |states| && steps[q].RunHandler? && steps[q].a == a && steps[q].w == w && steps[q].run == run
    && AtWork(states[q], a, w) && states[q].actors[a].workers[w].j == j
  }

  lemma NotedOne(s: State, s': State, a: nat, j: nat, run: Run, b: nat, i: nat)
    requires a < |s.actors| && b < |s.actors| && SameLogs(Noted(s, a, j, run), s')
    requires b < |s'.actors| && i in s'.actors[b].ran
    ensures (i in s.actors[b].ran && s'.actors[b].ran[i] == s.actors[b].ran[i]) || (b == a && i == j)
    ensures b == a && i == j ==> s'.actors[b].ran[i] == run
    ensures i in s.actors[b].taken ==> i in s'.actors[b].taken && s'.actors[b].taken[i] == s.actors[b].taken[i]
  {
  }

  /** A report on record was there before the step or is the one the step makes. */
  lemma StepReport(s: State, t: Step, a: nat, j: nat)
    requires Inv(s) && Enabled(s, t) && a < |s.actors|
    requires a < |Apply(s, t).actors| && j in Apply(s, t).actors[a].ran
    ensures var x, x' := s.actors[a], Apply(s, t).actors[a];
      && j in x.taken && j in x'.taken && x'.taken[j] == x.taken[j]
      && (|| (j in x.ran && x'.ran[j] == x.ran[j])
          || (t.RunHandler? && t.a == a && t.w == x.taken[j] && t.run == x'.ran[j] && AtWork(s, a, t.w)
              && x.workers[t.w].j == j))
  {
    assert ActorOk(s, a) && TakenOk(s, a, j);
    if t.RunHandler? {
      var p := s.actors[t.a].workers[t.w];
      Busy(s, t.a, t.w);
      RunLogs(s, t.a, t.w, t.run, t.now, t.id, t.report);
      ApplyRun(s, t.a, t.w, t.run, t.now, t.id, t.report);
      assert AtWork(s, t.a, t.w) && At(s, t.a, t.w);
      hide Apply, Enabled, Inv, ActorOk, SameLogs, Noted, Ran, WorkerOk, BoxedOnly, AnswerOk, TrueReason, BusOk;
      NotedOne(s, Apply(s, t), t.a, p.j, t.run, a, j);
    } else {
      OtherLogs(s, t);
      hide Apply, Enabled, Inv, ActorOk, AnswerOk, TrueReason;
    }
  }

  lemma NoReports(s: State)
    requires Initial(s)
    ensures forall a :: 0 <= a < |s.actors| ==> s.actors[a].ran == map[]
  {
    forall a | 0 <= a < |s.actors| ensures s.actors[a].ran == map[] {
      assert StartsEmpty(s.actors[a]);
    }
  }

  /** The report on record for a message is of a run on it by the worker that received it. */
  lemma {:induction false} ReportHasRun(states: seq<State>, steps: seq<Step>, n: nat, a: nat, j: nat)
    requires IsRun(states, steps) && n <= |steps| && a < |states[n].actors| && j in states[n].actors[a].ran
    ensures var x := states[n].actors[a];
      j in x.taken && exists q: nat :: q < n && RanAt(states, steps, q, a, x.taken[j], j, x.ran[j])
  {
    NoReports(states[0]);
    if n > 0 {
      var s, t := states[n - 1], steps[n - 1];
      EveryRun(states, steps, n - 1);
      assert Enabled(s, t) && states[n] == Apply(s, t);
      StepLocal(s, t);
      assert |states[n].actors| == |s.actors|;
      StepReport(s, t, a, j);
      hide Inv, Enabled, Apply, Initial, AtWork, IsRun, Local, SendsOwn;
      if j in s.actors[a].ran && states[n].actors[a].ran[j] == s.actors[a].ran[j] {
        ReportHasRun(states, steps, n - 1, a, j);
        var q: nat :| q < n - 1 && RanAt(states, steps, q, a, s.actors[a].taken[j], j, s.actors[a].ran[j]);
        assert RanAt(states, steps, q, a, states[n].actors[a].taken[j], j, states[n].actors[a].ran[j]);
      } else {
        assert RanAt(states, steps, n - 1, a, states[n].actors[a].taken[j], j, states[n].actors[a].ran[j]);
      }
    }
  }

  /** Step q is the handler run that a frame in reply to message j tells of. */
  ghost predicate TellsOf(states: seq<State>, steps: seq<Step>, spawned: seq<Spawned>, q: nat, a: nat, w: nat, j: nat,
      threads: nat, c: Config, body: Bytes, frame: Bytes)
  {
    && q < |steps| && q < |spawned| && steps[q].RunHandler? && RanAt(states, steps, q, a, w, j, steps[q].run)
    && var e := spawned[q];
       if RanWell(threads, w, e) then Carries(c, e.output, frame)
       else IsRejection(c, body,
         if Spawn.Ready(e.setup) && |e.output| >= PAYLOAD_CAP then ResultCapExceeded else MaxRetriesExceeded, frame)
  }

  /** Through every layer: once its worker is done with a message, and unless the message was left
      without a reply, the actor's one reply is made by the worker that received it. If no handler has run
      on the message, it is the rejection of an expired or oversized one. Else it tells of a run by that
      very worker: it carries the whole output of the child which that worker forked and whose success it
      was told, if it was told of success; if not it is a rejection, for too much output or for too many
      failures. */
  lemma ReplyIsOwnChilds(
    states: seq<State>, steps: seq<Step>, spawned: seq<Spawned>, n: nat, a: nat, j: nat)
    returns (i: nat, q: nat)
    requires IsRun(states, steps) && AllBacked(states, steps, spawned) && n <= |steps| && a < |states[n].actors|
    requires var x := states[n].actors[a]; j in x.taken && !InHand(x, j) && j !in x.silent
    ensures var s := states[n];
      var x := s.actors[a];
      var w := x.taken[j];
      && Replies(s, i, a, j) && s.born[Id(s.bus[i])] == Worker(a, w)
      && (forall i': nat :: Replies(s, i', a, j) ==> i' == i)
      && j < |s.bus|
      && (if j !in x.ran then IsEarly(x.cfg, s.bus[j], s.bus[i])
          else q < n && TellsOf(states, steps, spawned, q, a, w, j, |x.workers|, x.cfg, s.bus[j], s.bus[i]))
  {
    var s := states[n];
    var x := s.actors[a];
    OutcomeExactly(states, steps, n, a, j);
    hide IsRun, AllBacked, Inv, MadeBy, Caus, InHand, Tells, TellsOf, IsRejection, IsEarly, Id;
    i :| Replies(s, i, a, j) && Tells(x.cfg, s.bus[j], LastRun(x, j), s.bus[i])
      && forall i': nat :: Replies(s, i', a, j) ==> i' == i;
    q := 0;
    MadeByReceiver(states, steps, n, a, j, i);
    if j in x.ran {
      q := TellsOfRun(states, steps, spawned, n, a, j, s.bus[j], s.bus[i]);
    } else {
      NoRunNoResult(x.cfg, s.bus[j], s.bus[i]);
    }
  }

  lemma NoRunNoResult(c: Config, body: Bytes, frame: Bytes)
    requires Tells(c, body, None, frame)
    ensures IsEarly(c, body, frame)
  {
    hide IsRejection, IsEarly, Carries;
  }

  /** A frame that tells of the report on record for a message tells of a run on it by its receiver. */
  lemma TellsOfRun(
    states: seq<State>, steps: seq<Step>, spawned: seq<Spawned>, n: nat, a: nat, j: nat, body: Bytes, frame: Bytes)
    returns (q: nat)
    requires IsRun(states, steps) && AllBacked(states, steps, spawned) && n <= |steps| && a < |states[n].actors|
    requires var x := states[n].actors[a];
      j in x.taken && j in x.ran && Tells(x.cfg, body, LastRun(x, j), frame)
    ensures var x := states[n].actors[a];
      q < n && TellsOf(states, steps, spawned, q, a, x.taken[j], j, |x.workers|, x.cfg, body, frame)
  {
    var x := states[n].actors[a];
    ReportHasRun(states, steps, n, a, j);
    q :| q < n && RanAt(states, steps, q, a, x.taken[j], j, x.ran[j]);
    SameThreads(states, steps, q, n, a);
    assert Backed(|x.workers|, x.taken[j], x.ran[j], spawned[q]);
    hide IsRun, AllBacked, RanWell, Backed, AtWork, Carries, IsRejection, IsEarly;
    OutputExactly(|x.workers|, x.taken[j], x.ran[j], spawned[q]);
  }

  /** A message left alone because its handler said nothing: the child of a run on it by its receiver ran
      well and wrote nothing. */
  lemma SilenceIsOwnChilds(
    states: seq<State>, steps: seq<Step>, spawned: seq<Spawned>, n: nat, a: nat, j: nat)
    returns (q: nat)
    requires IsRun(states, steps) && AllBacked(states, steps, spawned) && n <= |steps| && a < |states[n].actors|
    requires var x := states[n].actors[a]; j in x.silent && x.silent[j] == Nothing
    ensures var x := states[n].actors[a];
      && j in x.taken && q < n && RanAt(states, steps, q, a, x.taken[j], j, Output([]))
      && RanWell(|x.workers|, x.taken[j], spawned[q]) && spawned[q].output == []
  {
    EveryRun(states, steps, n);
    var x := states[n].actors[a];
    assert ActorOk(states[n], a) && TakenOk(states[n], a, j);
    assert LastRun(x, j) == Some(Output([]));
    hide Inv, ActorOk, TakenOk;
    ReportHasRun(states, steps, n, a, j);
    q :| q < n && RanAt(states, steps, q, a, x.taken[j], j, x.ran[j]);
    SameThreads(states, steps, q, n, a);
    assert Backed(|x.workers|, x.taken[j], x.ran[j], spawned[q]);
    hide IsRun, AllBacked, RanWell, Backed, AtWork;
    OutputExactly(|x.workers|, x.taken[j], x.ran[j], spawned[q]);
  }

  lemma SameThreads(states: seq<State>, steps: seq<Step>, q: nat, n: nat, a: nat)
    requires IsRun(states, steps) && q <= n <= |steps| && a < |states[n].actors|
    ensures a < |states[q].actors| && |states[q].actors[a].workers| == |states[n].actors[a].workers|
  {
    ActorsStay(states, steps, n);
    ActorsStay(states, steps, q);
    hide IsRun;
    ConfigStays(states, steps, q, a);
    ConfigStays(states, steps, n, a);
  }

  /** The reply to a message is its receiver's. */
  lemma MadeByReceiver(states: seq<State>, steps: seq<Step>, n: nat, a: nat, j: nat, i: nat)
    requires IsRun(states, steps) && n <= |steps| && a < |states[n].actors|
    requires var s := states[n]; j in s.actors[a].taken && !InHand(s.actors[a], j) && Replies(s, i, a, j)
    ensures var s := states[n]; s.born[Id(s.bus[i])] == Worker(a, s.actors[a].taken[j])
  {
    EveryRun(states, steps, n);
    var s := states[n];
    assert ActorOk(s, a) && TakenOk(s, a, j);
    hide IsRun, Tells, Hears;
    ReplyMeansAnswered(s, a, i, j);
  }
}
