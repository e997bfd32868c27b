/** The life of one message in a mesh run: what its worker does with it, step by step among all the other
    steps, is what serve_once does with it alone. */
module Life {
  import opened Bytes
  import opened Wire
  import opened Mesh
  import Retry

  // ---- what a step does to an actor's workers ----

  /** The step is a worker's, on the message it has. */
  predicate Works(t: Step) {
    !t.Inject? && !t.Receive?
  }

  /** How a step leaves the worker that takes it. */
  predicate PhaseAfter(s: State, t: Step, q: Phase)
    requires Enabled(s, t) && !t.Inject?
  {
    var x := s.actors[t.a];
    var p := x.workers[t.w];
    match t
    case Receive(_, _, j) => q == Held(j)
    case Put(_, _, _) => q == Working(p.j, 0)
    case NoAttempt(_, _) => q == Phase.Ending(p.j)
    case RunHandler(_, _, run, _, _, _) =>
      (match Retry.Decide(run, p.attempt, x.cfg.retryMax)
       case Publish(_) => q.Sending? && q.j == p.j
       case Again => q == Working(p.j, p.attempt + 1)
       case _ => q == Phase.Ending(p.j))
    case Send(_, _) => q.Sent? && q.j == p.j
    case Unbox(_, _) => q == Phase.Ending(p.j)
    case _ => q == Idle
  }

  /** Only worker w of actor a moves, to phase q; no message is handed out. */
  ghost predicate Moves(s: State, s': State, a: nat, w: nat, q: Phase) {
    && |s'.actors| == |s.actors| && a < |s.actors| && w < |s.actors[a].workers|
    && s'.actors[a].cfg == s.actors[a].cfg && s'.actors[a].taken == s.actors[a].taken
    && s'.actors[a].workers == s.actors[a].workers[w := q]
    && s.bus <= s'.bus
    && forall b :: 0 <= b < |s.actors| && b != a ==> s'.actors[b] == s.actors[b]
  }

  lemma MoveMoves(s: State, a: nat, w: nat, q: Phase)
    requires a < |s.actors| && w < |s.actors[a].workers|
    ensures Moves(s, Move(s, a, w, q), a, w, q)
  {
  }

  lemma SilentMoves(s: State, a: nat, w: nat, j: nat, why: Why, q: Phase)
    requires a < |s.actors| && w < |s.actors[a].workers|
    ensures Moves(s, Silent(s, a, w, j, why, q), a, w, q)
  {
  }

  lemma SendNowMovesOn(s: State, a: nat, w: nat, j: nat, frame: Bytes, q: Phase)
    requires a < |s.actors| && w < |s.actors[a].workers|
    ensures Moves(s, SendNow(s, a, w, j, frame, q), a, w, q)
  {
    hide Id, Full;
  }

  lemma BoxMovesOn(s: State, a: nat, w: nat, j: nat, frame: Bytes)
    requires a < |s.actors| && w < |s.actors[a].workers|
    ensures Moves(s, Box(s, a, w, j, frame), a, w, Sending(j, frame))
  {
    hide Id;
  }

  lemma NotedMoves(s: State, s': State, a: nat, w: nat, j: nat, run: Retry.Run, q: Phase)
    requires a < |s.actors| && Moves(Noted(s, a, j, run), s', a, w, q)
    ensures Moves(s, s', a, w, q)
  {
  }

  /** The phase a handler run leads to. */
  lemma RunMoves(s: State, t: Step) returns (q: Phase)
    requires Enabled(s, t) && t.RunHandler?
    ensures Moves(s, Apply(s, t), t.a, t.w, q) && PhaseAfter(s, t, q)
  {
    var p := s.actors[t.a].workers[t.w];
    RanIs(s, t.a, t.w, t.run, t.now, t.id, t.report);
    ApplyRun(s, t.a, t.w, t.run, t.now, t.id, t.report);
    RunPhase(s, t);
    var s1 := Noted(s, t.a, p.j, t.run);
    var next := Retry.Decide(t.run, p.attempt, s.actors[t.a].cfg.retryMax);
    assert t.a < |s1.actors| && t.w < |s1.actors[t.a].workers|;
    hide *;
    match next {
      case Publish(bytes) =>
        var frame := Answer(s1, t.a, p.j, t.now, t.id, bytes);
        q := Sending(p.j, frame);
        BoxMovesOn(s1, t.a, t.w, p.j, frame);
      case Finish =>
        q := Phase.Ending(p.j);
        SilentMoves(s1, t.a, t.w, p.j, Nothing, q);
      case Reject(_) =>
        q := Phase.Ending(p.j);
        SendNowMovesOn(s1, t.a, t.w, p.j, Rejected(s1, t.a, p.j, t.now, t.id, t.report), q);
      case Again =>
        q := Working(p.j, p.attempt + 1);
        MoveMoves(s1, t.a, t.w, q);
    }
    NotedMoves(s, Apply(s, t), t.a, t.w, p.j, t.run, q);
  }

  lemma RunPhase(s: State, t: Step)
    requires Enabled(s, t) && t.RunHandler?
    ensures var p := s.actors[t.a].workers[t.w];
      match Retry.Decide(t.run, p.attempt, s.actors[t.a].cfg.retryMax)
      case Publish(_) => forall f :: PhaseAfter(s, t, Sending(p.j, f))
      case Again => PhaseAfter(s, t, Working(p.j, p.attempt + 1))
      case _ => PhaseAfter(s, t, Phase.Ending(p.j))
  {
    hide Enabled;
  }

  lemma SetMoves(s: State, a: nat, w: nat, q: Phase, x: Actor)
    requires a < |s.actors| && w < |s.actors[a].workers|
    requires var y := s.actors[a]; x.cfg == y.cfg && x.taken == y.taken && x.workers == y.workers[w := q]
    ensures Moves(s, SetActor(s, a, x), a, w, q)
  {
  }

  lemma EmitMoves(s: State, s': State, a: nat, w: nat, q: Phase, frame: Bytes)
    requires Moves(s, s', a, w, q)
    ensures Moves(s, Emit(s', frame), a, w, q)
  {
    hide Full, Id;
  }

  /** The steps other than handler runs, by what they are made of. */
  lemma StepIs(s: State, t: Step)
    requires Enabled(s, t) && Works(t) && !t.RunHandler?
    ensures t.a < |s.actors| && t.w < |s.actors[t.a].workers|
    ensures
      var s', x := Apply(s, t), s.actors[t.a];
      var p := x.workers[t.w];
      match t
      case Drop(a, w) => p.Held? && s' == Silent(s, a, w, p.j, Short, Idle)
      case RejectEarly(a, w, now, id, report) =>
        && p.Held? && p.j < |s.bus| && Full(s.bus[p.j]) && ConfigOk(x.cfg) && StampFits(s, id, now, report)
        && s' == SendNow(s, a, w, p.j, Rejected(s, a, p.j, now, id, report), Idle)
      case Put(a, w, _) =>
        && p.Held? && p.j < |s.bus|
        && s' == SetActor(s, a, Moving(x, w, Working(p.j, 0)).(inbox := x.inbox[Id(s.bus[p.j]) := s.bus[p.j]]))
      case NoAttempt(a, w) => p.Working? && s' == Silent(s, a, w, p.j, NoTry, Phase.Ending(p.j))
      case Send(a, w) => p.Sending? && s' == Emit(Move(s, a, w, Sent(p.j, p.frame)), p.frame)
      case Unbox(a, w) =>
        p.Sent? && s' == SetActor(s, a, Moving(x, w, Phase.Ending(p.j)).(outbox := x.outbox - {Id(p.frame)}))
      case Unstore(a, w) =>
        && p.Ending? && p.j < |s.bus|
        && s' == SetActor(s, a, Moving(x, w, Idle).(inbox := x.inbox - {Id(s.bus[p.j])}))
      case _ => true
  {
    hide Silent, SendNow, Rejected, SetActor, Moving, Emit, Move, Full, Id, ConfigOk, StampFits, Says, Refused;
  }

  lemma PhaseIs(s: State, t: Step, p: Phase)
    requires Enabled(s, t) && Works(t) && !t.RunHandler? && p == s.actors[t.a].workers[t.w]
    ensures
      match t
      case Put(_, _, _) => p.Held? && PhaseAfter(s, t, Working(p.j, 0))
      case NoAttempt(_, _) => p.Working? && PhaseAfter(s, t, Phase.Ending(p.j))
      case Send(_, _) => p.Sending? && PhaseAfter(s, t, Sent(p.j, p.frame))
      case Unbox(_, _) => p.Sent? && PhaseAfter(s, t, Phase.Ending(p.j))
      case _ => PhaseAfter(s, t, Idle)
  {
    hide Full, ConfigOk, StampFits, Says, Refused, EarlyReason;
  }

  lemma OtherMoves(s: State, t: Step) returns (q: Phase)
    requires Enabled(s, t) && Works(t) && !t.RunHandler?
    ensures Moves(s, Apply(s, t), t.a, t.w, q) && PhaseAfter(s, t, q)
  {
    assert !t.Inject? && !t.Receive?;
    hide *;
    StepIs(s, t);
    var x := s.actors[t.a];
    var p := x.workers[t.w];
    PhaseIs(s, t, p);
    match t
    case Drop(a, w) =>
      q := Idle;
      SilentMoves(s, a, w, p.j, Short, q);
    case RejectEarly(a, w, now, id, report) =>
      q := Idle;
      SendNowMovesOn(s, a, w, p.j, Rejected(s, a, p.j, now, id, report), q);
    case Put(a, w, _) =>
      q := Working(p.j, 0);
      KeepsCore(x, w, q);
      SetMoves(s, a, w, q, Moving(x, w, q).(inbox := x.inbox[Id(s.bus[p.j]) := s.bus[p.j]]));
    case NoAttempt(a, w) =>
      q := Phase.Ending(p.j);
      SilentMoves(s, a, w, p.j, NoTry, q);
    case Send(a, w) =>
      q := Sent(p.j, p.frame);
      MoveMoves(s, a, w, q);
      EmitMoves(s, Move(s, a, w, q), a, w, q, p.frame);
    case Unbox(a, w) =>
      q := Phase.Ending(p.j);
      KeepsCore(x, w, q);
      SetMoves(s, a, w, q, Moving(x, w, q).(outbox := x.outbox - {Id(p.frame)}));
    case Unstore(a, w) =>
      q := Idle;
      KeepsCore(x, w, q);
      SetMoves(s, a, w, q, Moving(x, w, q).(inbox := x.inbox - {Id(s.bus[p.j])}));
  }

  lemma KeepsCore(x: Actor, w: nat, q: Phase)
    requires w < |x.workers|
    ensures var y := Moving(x, w, q); y.cfg == x.cfg && y.taken == x.taken && y.workers == x.workers[w := q]
  {
  }

  lemma StepMoves(s: State, t: Step) returns (q: Phase)
    requires Enabled(s, t) && Works(t)
    ensures Moves(s, Apply(s, t), t.a, t.w, q) && PhaseAfter(s, t, q)
  {
    hide *;
    if t.RunHandler? { q := RunMoves(s, t); } else { q := OtherMoves(s, t); }
  }

  // ---- what a worker does with a message ----

  /** What a step of a worker does with its message. Storing a result in the outbox is publishing it, and
      the backoff belongs to the run it follows. */
  function Did(s: State, t: Step): seq<Retry.Event>
    requires Enabled(s, t)
  {
    match t
    case RejectEarly(a, w, now, _, _) => [Retry.Rejection(EarlyReason(s.bus[s.actors[a].workers[w].j], now))]
    case Put(_, _, _) => [Retry.PutInbox]
    case RunHandler(a, w, run, _, _, _) =>
      var attempt := s.actors[a].workers[w].attempt;
      var next := Retry.Decide(run, attempt, s.actors[a].cfg.retryMax);
      [Retry.Invoked(run)]
        + if next.Again? then [Retry.Backoff(Retry.BACKOFF * Pow2(attempt))] else Retry.Ending(next)
    case Unstore(_, _) => [Retry.DeleteInbox]
    case _ => []
  }

  /** The step is one of actor a, on message j. */
  predicate On(s: State, t: Step, a: nat, j: nat)
    requires Enabled(s, t)
  {
    Works(t) && t.a == a && var p := s.actors[t.a].workers[t.w]; !p.Idle? && p.j == j
  }

  /** What actor a has done with message j in the first n steps of a run. */
  ghost function Log(states: seq<State>, steps: seq<Step>, n: nat, a: nat, j: nat): seq<Retry.Event>
    requires IsRun(states, steps) && n <= |steps|
  {
    if n == 0 then []
    else
      Log(states, steps, n - 1, a, j)
        + if On(states[n - 1], steps[n - 1], a, j) then Did(states[n - 1], steps[n - 1]) else []
  }

  /** How far a message has come, with the clock reading it was held against and what its handler
      reported. */
  datatype Stage =
    | Unread
    | Trying(now: int, failed: nat)
    | Untried(now: int)
    | Decided(now: int, failed: nat, run: Retry.Run)
    | Done(now: int, answers: nat -> Retry.Run)

  ghost predicate Stored(s: State, a: nat, j: nat, now: int)
    requires a < |s.actors|
  {
    var x := s.actors[a];
    && j in x.taken && x.taken[j] < |x.workers| && j < |s.bus| && Full(s.bus[j]) && !Refused(s.bus[j], now)
  }

  ghost predicate StageOk(s: State, a: nat, j: nat, log: seq<Retry.Event>, st: Stage)
    requires a < |s.actors|
  {
    var x := s.actors[a];
    match st
    case Unread => log == [] && (j in x.taken ==> x.taken[j] < |x.workers| && x.workers[x.taken[j]] == Held(j))
    case Trying(now, m) =>
      && Stored(s, a, j, now) && x.workers[x.taken[j]] == Working(j, m)
      && log == [Retry.PutInbox] + Retry.Failures(m)
    case Untried(now) =>
      && Stored(s, a, j, now) && x.workers[x.taken[j]] == Phase.Ending(j)
      && x.cfg.retryMax < 0 && log == [Retry.PutInbox]
    case Decided(now, m, run) =>
      && Stored(s, a, j, now) && m <= x.cfg.retryMax
      && (var p := x.workers[x.taken[j]]; (p.Sending? || p.Sent? || p.Ending?) && p.j == j)
      && (var next := Retry.Decide(run, m, x.cfg.retryMax);
          !next.Again? && log == [Retry.PutInbox] + Retry.Failures(m) + [Retry.Invoked(run)] + Retry.Ending(next))
    case Done(now, answers) =>
      && j in x.taken && !InHand(x, j) && j < |s.bus|
      && log == Retry.Served(s.bus[j], now, answers, x.cfg.retryMax)
  }

  // ---- steps that have nothing to do with it ----

  lemma InjectStays(s: State, body: Bytes, a: nat, j: nat, log: seq<Retry.Event>, st: Stage)
    requires Enabled(s, Inject(body)) && a < |s.actors| && StageOk(s, a, j, log, st)
    ensures a < |Apply(s, Inject(body)).actors| && StageOk(Apply(s, Inject(body)), a, j, log, st)
  {
    hide Full, Id, Refused, Retry.Decide, Retry.Failures, Retry.Ending, Retry.Served, Fresh;
  }

  lemma ReceiveStays(s: State, t: Step, a: nat, j: nat, log: seq<Retry.Event>, st: Stage)
    requires Enabled(s, t) && t.Receive? && a < |s.actors| && StageOk(s, a, j, log, st)
    ensures a < |Apply(s, t).actors| && StageOk(Apply(s, t), a, j, log, st)
  {
    hide Full, Id, Refused, Retry.Decide, Retry.Failures, Retry.Ending, Retry.Served, Hears, ConfigOk;
  }

  lemma OtherStays(s: State, t: Step, s': State, q: Phase, a: nat, j: nat, log: seq<Retry.Event>, st: Stage)
    requires Enabled(s, t) && Works(t) && a < |s.actors| && StageOk(s, a, j, log, st) && !On(s, t, a, j)
    requires Moves(s, s', t.a, t.w, q) && (q.Idle? || q.j != j || t.a != a)
    requires !s.actors[t.a].workers[t.w].Idle?
    ensures a < |s'.actors| && StageOk(s', a, j, log, st)
  {
    hide Enabled, Full, Id, Refused, Retry.Decide, Retry.Failures, Retry.Ending, Retry.Served;
  }

  // ---- steps on the message ----

  lemma ServedEarly(body: Bytes, now: int, answers: nat -> Retry.Run, retryMax: int)
    requires Full(body) && Refused(body, now)
    ensures Retry.Served(body, now, answers, retryMax) == [Retry.Rejection(EarlyReason(body, now))]
  {
    hide Retry.Attempts, Expired, Cast;
  }

  lemma ServedLate(body: Bytes, now: int, answers: nat -> Retry.Run, retryMax: int)
    requires Full(body) && !Refused(body, now)
    ensures Retry.Served(body, now, answers, retryMax) ==
      [Retry.PutInbox] + Retry.Attempts(answers, retryMax, 0) + [Retry.DeleteInbox]
  {
    hide Retry.Attempts, Expired, Cast;
  }

  lemma EndsAs(answers: nat -> Retry.Run, retryMax: int, m: nat, run: Retry.Run)
    requires m <= retryMax && answers(m) == run && !Retry.Decide(run, m, retryMax).Again?
    requires forall i: nat :: i < m ==> answers(i) == Retry.Failed
    ensures Retry.Attempts(answers, retryMax, 0) ==
      Retry.Failures(m) + [Retry.Invoked(run)] + Retry.Ending(Retry.Decide(run, m, retryMax))
  {
    hide Retry.Attempts, Retry.Failures, Pow2;
    Retry.AfterFailures(answers, retryMax, m);
    Retry.AttemptStep(answers, retryMax, m, Retry.Failures(m));
    var log := Retry.Failures(m) + [Retry.Invoked(run)];
    assert log + [] == log;
  }

  /** Held: the message is too short, refused, or stored. */
  lemma FirstStep(s: State, t: Step, s': State, q: Phase, a: nat, j: nat, log: seq<Retry.Event>) returns (st': Stage)
    requires Enabled(s, t) && (t.Drop? || t.RejectEarly? || t.Put?) && On(s, t, a, j) && StageOk(s, a, j, log, Unread)
    requires Moves(s, s', t.a, t.w, q) && PhaseAfter(s, t, q)
    requires j in s.actors[a].taken && s.actors[a].taken[j] == t.w
    ensures a < |s'.actors| && StageOk(s', a, j, log + Did(s, t), st')
    ensures if t.Drop? then st'.Done? && Did(s, t) == [] else !st'.Unread? && st'.now == t.now
  {
    var body := s.bus[j];
    match t
    case Drop(_, _) =>
      st' := Done(0, _ => Retry.Failed);
      assert log + [] == log;
      hide Retry.Attempts, Id;
    case RejectEarly(_, _, now, _, _) =>
      st' := Done(now, _ => Retry.Failed);
      ServedEarly(body, now, _ => Retry.Failed, s.actors[a].cfg.retryMax);
      hide Retry.Served, Refused, EarlyReason, StampFits, Says, Id;
    case Put(_, _, now) =>
      st' := Trying(now, 0);
      assert [Retry.PutInbox] + [] == [Retry.PutInbox];
      hide Retry.Served, Refused, Id;
  }

  /** What a handler run adds to the log, and the phase it leads to. */
  lemma RunDoes(s: State, t: Step, q: Phase)
    requires Enabled(s, t) && t.RunHandler? && PhaseAfter(s, t, q)
    ensures t.a < |s.actors| && t.w < |s.actors[t.a].workers| && s.actors[t.a].workers[t.w].Working?
    ensures
      var p, retryMax := s.actors[t.a].workers[t.w], s.actors[t.a].cfg.retryMax;
      var next := Retry.Decide(t.run, p.attempt, retryMax);
      && p.attempt <= retryMax
      && (if next.Again? then
            && q == Working(p.j, p.attempt + 1) && t.run == Retry.Failed
            && Did(s, t) == [Retry.Invoked(t.run)] + [Retry.Backoff(Retry.BACKOFF * Pow2(p.attempt))]
          else
            && (q.Sending? || q.Ending?) && q.j == p.j
            && Did(s, t) == [Retry.Invoked(t.run)] + Retry.Ending(next))
  {
    hide Full, ConfigOk, StampFits, Says, ReportOk, Pow2, Retry.Ending;
  }

  /** At work, and the handler runs. */
  lemma RunStep(s: State, t: Step, s': State, q: Phase, a: nat, j: nat, log: seq<Retry.Event>, st: Stage)
    returns (st': Stage)
    requires Enabled(s, t) && t.RunHandler? && On(s, t, a, j) && StageOk(s, a, j, log, st) && st.Trying?
    requires Moves(s, s', t.a, t.w, q) && PhaseAfter(s, t, q)
    requires j in s.actors[a].taken && s.actors[a].taken[j] == t.w
    ensures a < |s'.actors| && StageOk(s', a, j, log + Did(s, t), st')
    ensures !st'.Unread? && st'.now == st.now
  {
    var m, retryMax := st.failed, s.actors[a].cfg.retryMax;
    RunDoes(s, t, q);
    hide Enabled, PhaseAfter, Did, Refused, Id, Full, Retry.Served, Retry.Failures, Retry.Ending, Pow2;
    Retry.FailuresGrow(m + 1);
    var next := Retry.Decide(t.run, m, retryMax);
    st' := if next.Again? then Trying(st.now, m + 1) else Decided(st.now, m, t.run);
    LogGrows(Retry.Failures(m), t.run, Retry.Backoff(Retry.BACKOFF * Pow2(m)), Retry.Ending(next));
    hide Retry.Decide;
  }

  /** At work, and the handler is not allowed to run. */
  lemma NoRunStep(s: State, t: Step, s': State, q: Phase, a: nat, j: nat, log: seq<Retry.Event>, st: Stage)
    returns (st': Stage)
    requires Enabled(s, t) && t.NoAttempt? && On(s, t, a, j) && StageOk(s, a, j, log, st) && st.Trying?
    requires Moves(s, s', t.a, t.w, q) && PhaseAfter(s, t, q)
    requires j in s.actors[a].taken && s.actors[a].taken[j] == t.w
    requires st.failed == 0 || st.failed <= s.actors[a].cfg.retryMax
    ensures a < |s'.actors| && StageOk(s', a, j, log + Did(s, t), st')
    ensures !st'.Unread? && st'.now == st.now
  {
    st' := Untried(st.now);
    Retry.FailuresGrow(0);
    assert [Retry.PutInbox] + [] + [] == [Retry.PutInbox];
    hide Refused, Id, Full, ConfigOk, Retry.Served, Retry.Failures, Retry.Decide;
  }

  lemma LogGrows(before: seq<Retry.Event>, run: Retry.Run, wait: Retry.Event, end: seq<Retry.Event>)
    ensures [Retry.PutInbox] + before + ([Retry.Invoked(run)] + [wait]) ==
      [Retry.PutInbox] + (before + [Retry.Invoked(run), wait])
    ensures [Retry.PutInbox] + before + ([Retry.Invoked(run)] + end) ==
      [Retry.PutInbox] + before + [Retry.Invoked(run)] + end
  {
  }

  /** Decided: the result is sent and taken out of the outbox. */
  lemma SentStep(s: State, t: Step, s': State, q: Phase, a: nat, j: nat, log: seq<Retry.Event>, st: Stage)
    requires Enabled(s, t) && (t.Send? || t.Unbox?) && On(s, t, a, j) && StageOk(s, a, j, log, st) && st.Decided?
    requires Moves(s, s', t.a, t.w, q) && PhaseAfter(s, t, q)
    requires j in s.actors[a].taken && s.actors[a].taken[j] == t.w
    ensures a < |s'.actors| && StageOk(s', a, j, log + Did(s, t), st)
  {
    assert Did(s, t) == [] && (q.Sent? || q.Ending?) && q.j == j;
    assert log + [] == log;
    hide Enabled, PhaseAfter, Did, Refused, Id, Full, Retry.Served, Retry.Failures, Retry.Decide, Retry.Ending;
  }

  /** The whole log of a message that was stored, once it is deleted from the inbox. */
  lemma WholeLog(body: Bytes, retryMax: int, log: seq<Retry.Event>, st: Stage) returns (answers: nat -> Retry.Run)
    requires (st.Decided? || st.Untried?) && Full(body) && !Refused(body, st.now)
    requires st.Untried? ==> retryMax < 0 && log == [Retry.PutInbox]
    requires st.Decided? ==>
      && st.failed <= retryMax && !Retry.Decide(st.run, st.failed, retryMax).Again?
      && log == [Retry.PutInbox] + Retry.Failures(st.failed) + [Retry.Invoked(st.run)]
           + Retry.Ending(Retry.Decide(st.run, st.failed, retryMax))
    ensures log + [Retry.DeleteInbox] == Retry.Served(body, st.now, answers, retryMax)
  {
    hide Full, Refused, Retry.Served, Retry.Failures, Retry.Attempts, Retry.Decide, Retry.Ending;
    if st.Decided? {
      answers := k => if k < st.failed then Retry.Failed else st.run;
      EndsAs(answers, retryMax, st.failed, st.run);
      Bracketed(Retry.Failures(st.failed), [Retry.Invoked(st.run)],
                Retry.Ending(Retry.Decide(st.run, st.failed, retryMax)));
    } else {
      answers := _ => Retry.Failed;
      Retry.NoAttempts(answers, retryMax);
      Bracketed([], [], []);
    }
    ServedLate(body, st.now, answers, retryMax);
  }

  /** Decided: the message is deleted from the inbox. */
  lemma LastStep(s: State, t: Step, s': State, q: Phase, a: nat, j: nat, log: seq<Retry.Event>, st: Stage)
    returns (st': Stage)
    requires Enabled(s, t) && t.Unstore? && On(s, t, a, j) && StageOk(s, a, j, log, st)
    requires st.Decided? || st.Untried?
    requires Moves(s, s', t.a, t.w, q) && PhaseAfter(s, t, q)
    requires j in s.actors[a].taken && s.actors[a].taken[j] == t.w
    ensures a < |s'.actors| && StageOk(s', a, j, log + Did(s, t), st')
    ensures !st'.Unread? && st'.now == st.now
  {
    assert Did(s, t) == [Retry.DeleteInbox] && q == Idle;
    hide Enabled, PhaseAfter, Did, Refused, Id, Full, Retry.Served, Retry.Failures, Retry.Decide, Retry.Ending;
    var answers := WholeLog(s.bus[j], s.actors[a].cfg.retryMax, log, st);
    st' := Done(st.now, answers);
  }

  lemma Bracketed(x: seq<Retry.Event>, y: seq<Retry.Event>, z: seq<Retry.Event>)
    ensures [Retry.PutInbox] + x + y + z + [Retry.DeleteInbox] == [Retry.PutInbox] + (x + y + z) + [Retry.DeleteInbox]
    ensures [Retry.PutInbox] + [] + [Retry.DeleteInbox] == [Retry.PutInbox] + [Retry.DeleteInbox]
  {
  }

  // ---- every run ----

  /** A worker that takes a step has the message of its phase, and the phase fits the step. */
  lemma StepFits(s: State, t: Step)
    requires Inv(s) && Enabled(s, t) && Works(t)
    ensures t.a < |s.actors| && t.w < |s.actors[t.a].workers|
    ensures var x := s.actors[t.a];
      var p := x.workers[t.w];
      && !p.Idle? && p.j < |s.bus| && p.j in x.taken && x.taken[p.j] == t.w
      && (p.Working? && p.attempt > 0 ==> p.attempt <= x.cfg.retryMax)
      && match t
         case Drop(_, _) => p.Held?
         case RejectEarly(_, _, _, _, _) => p.Held?
         case Put(_, _, _) => p.Held?
         case NoAttempt(_, _) => p.Working?
         case RunHandler(_, _, _, _, _, _) => p.Working?
         case Send(_, _) => p.Sending?
         case Unbox(_, _) => p.Sent?
         case Unstore(_, _) => p.Ending?
         case _ => true
  {
    assert At(s, t.a, t.w) && !s.actors[t.a].workers[t.w].Idle?;
    Busy(s, t.a, t.w);
    hide Inv, TakenOk, BusOk, BoxedOnly, Full, Id, ConfigOk, StampFits, Says, ReportOk, Refused, Tells, ReplyOk;
  }

  /** And the stage of its message fits the phase. */
  lemma StageFits(s: State, a: nat, j: nat, log: seq<Retry.Event>, st: Stage)
    requires a < |s.actors| && StageOk(s, a, j, log, st)
    requires var x := s.actors[a]; j in x.taken && x.taken[j] < |x.workers| && InHand(x, j)
    ensures !st.Done?
    ensures var p := s.actors[a].workers[s.actors[a].taken[j]];
      && (p.Held? ==> st.Unread?)
      && (p.Working? ==> st.Trying? && st.failed == p.attempt)
      && (p.Sending? || p.Sent? ==> st.Decided?)
      && (p.Ending? ==> st.Decided? || st.Untried?)
  {
    hide Full, Refused, Retry.Served, Retry.Failures, Retry.Decide, Retry.Ending;
  }

  /** A message is held against the clock once, by the step that stores or refuses it. */
  predicate KeepsClock(t: Step, log: seq<Retry.Event>, did: seq<Retry.Event>, st: Stage, st': Stage) {
    if st.Unread? then
      || (st'.Done? && did == [])
      || ((t.Put? || t.RejectEarly?) && !st'.Unread? && st'.now == t.now)
    else !st.Done? && !st'.Unread? && st'.now == st.now
  }

  lemma OwnStep(s: State, t: Step, q: Phase, a: nat, j: nat, log: seq<Retry.Event>, st: Stage) returns (st': Stage)
    requires Inv(s) && Enabled(s, t) && On(s, t, a, j) && StageOk(s, a, j, log, st)
    requires Moves(s, Apply(s, t), t.a, t.w, q) && PhaseAfter(s, t, q)
    ensures a < |Apply(s, t).actors| && StageOk(Apply(s, t), a, j, log + Did(s, t), st')
    ensures KeepsClock(t, log, Did(s, t), st, st')
  {
    StepFits(s, t);
    var s' := Apply(s, t);
    assert InHand(s.actors[a], j) && t.a == a && !t.Inject? && !t.Receive?;
    hide *;
    StageFits(s, a, j, log, st);
    if t.Drop? || t.RejectEarly? || t.Put? {
      st' := FirstStep(s, t, s', q, a, j, log);
    } else if t.RunHandler? {
      st' := RunStep(s, t, s', q, a, j, log, st);
    } else if t.NoAttempt? {
      st' := NoRunStep(s, t, s', q, a, j, log, st);
    } else if t.Unstore? {
      st' := LastStep(s, t, s', q, a, j, log, st);
    } else {
      st' := st;
      SentStep(s, t, s', q, a, j, log, st);
    }
    ClockKept(t, log, Did(s, t), st, st');
  }

  lemma ClockKept(t: Step, log: seq<Retry.Event>, did: seq<Retry.Event>, st: Stage, st': Stage)
    requires st.Unread? ==>
      (st'.Done? && did == []) || ((t.Put? || t.RejectEarly?) && !st'.Unread? && st'.now == t.now)
    requires !st.Unread? ==> !st.Done? && !st'.Unread? && st'.now == st.now
    ensures KeepsClock(t, log, did, st, st')
  {
  }

  lemma PhaseKeepsMessage(s: State, t: Step, q: Phase)
    requires Enabled(s, t) && Works(t) && PhaseAfter(s, t, q)
    ensures q.Idle? || q.j == s.actors[t.a].workers[t.w].j
  {
    hide Full, ConfigOk, StampFits, Says, ReportOk, Refused;
  }

  lemma OneStep(s: State, t: Step, a: nat, j: nat, log: seq<Retry.Event>, st: Stage) returns (st': Stage)
    requires Inv(s) && Enabled(s, t) && a < |s.actors| && StageOk(s, a, j, log, st)
    ensures a < |Apply(s, t).actors|
    ensures StageOk(Apply(s, t), a, j, log + if On(s, t, a, j) then Did(s, t) else [], st')
    ensures if On(s, t, a, j) then KeepsClock(t, log, Did(s, t), st, st') else st' == st
  {
    assert log + [] == log;
    if !Works(t) {
      st' := st;
      hide *;
      assert t.Inject? || t.Receive? by { WorksNot(t); }
      if t.Inject? { InjectStays(s, t.body, a, j, log, st); } else { ReceiveStays(s, t, a, j, log, st); }
      OffNot(s, t, a, j);
    } else {
      hide *;
      StepFits(s, t);
      var q := StepMoves(s, t);
      if On(s, t, a, j) {
        st' := OwnStep(s, t, q, a, j, log, st);
      } else {
        st' := st;
        PhaseKeepsMessage(s, t, q);
        OffOther(s, t, a, j);
        OtherStays(s, t, Apply(s, t), q, a, j, log, st);
      }
    }
  }

  lemma WorksNot(t: Step)
    requires !Works(t)
    ensures t.Inject? || t.Receive?
  {
  }

  lemma OffNot(s: State, t: Step, a: nat, j: nat)
    requires Enabled(s, t) && (t.Inject? || t.Receive?)
    ensures !On(s, t, a, j)
  {
    hide Enabled;
  }

  lemma OffOther(s: State, t: Step, a: nat, j: nat)
    requires Enabled(s, t) && Works(t) && !On(s, t, a, j)
    requires t.a < |s.actors| && t.w < |s.actors[t.a].workers| && !s.actors[t.a].workers[t.w].Idle?
    ensures t.a != a || s.actors[t.a].workers[t.w].j != j
  {
    hide Enabled;
  }

  lemma NoneRead(s: State, a: nat, j: nat)
    requires Initial(s) && a < |s.actors|
    ensures StageOk(s, a, j, [], Unread)
  {
    assert StartsEmpty(s.actors[a]);
    hide Retry.Served, Retry.Failures, Retry.Decide, Retry.Ending;
  }

  /** Step q stores or refuses message j for actor a, at this clock reading. */
  ghost predicate Looked(states: seq<State>, steps: seq<Step>, q: nat, a: nat, j: nat, now: int)
    requires IsRun(states, steps)
  {
    q < |steps| && On(states[q], steps[q], a, j) && (steps[q].Put? || steps[q].RejectEarly?) && steps[q].now == now
  }

  /** The reading a message was held against is that of one of the first n steps, unless nothing was done. */
  ghost predicate ClockOk(states: seq<State>, steps: seq<Step>, n: nat, a: nat, j: nat, st: Stage)
    requires IsRun(states, steps) && n <= |steps|
  {
    || st.Unread? || (st.Done? && Log(states, steps, n, a, j) == [])
    || exists q: nat :: q < n && Looked(states, steps, q, a, j, st.now)
  }

  lemma {:induction false} ClockStep(
    states: seq<State>, steps: seq<Step>, n: nat, a: nat, j: nat, st: Stage, st': Stage)
    requires IsRun(states, steps) && 0 < n <= |steps| && ClockOk(states, steps, n - 1, a, j, st)
    requires var s, t, log := states[n - 1], steps[n - 1], Log(states, steps, n - 1, a, j);
      && (st.Unread? ==> log == [])
      && if On(s, t, a, j) then KeepsClock(t, log, Did(s, t), st, st') else st' == st
    ensures ClockOk(states, steps, n, a, j, st')
  {
    var s, t := states[n - 1], steps[n - 1];
    assert Log(states, steps, n, a, j) ==
      Log(states, steps, n - 1, a, j) + if On(s, t, a, j) then Did(s, t) else [];
    hide On, Did, IsRun, Log;
    if !st.Unread? && exists q: nat :: q < n - 1 && Looked(states, steps, q, a, j, st.now) {
      var q: nat :| q < n - 1 && Looked(states, steps, q, a, j, st.now);
      assert q < n && Looked(states, steps, q, a, j, st'.now);
    } else if st.Unread? && !st'.Unread? && !(st'.Done? && Log(states, steps, n, a, j) == []) {
      assert Looked(states, steps, n - 1, a, j, st'.now);
    }
  }

  lemma {:induction false} StageAt(states: seq<State>, steps: seq<Step>, n: nat, a: nat, j: nat) returns (st: Stage)
    requires IsRun(states, steps) && n <= |steps| && a < |states[0].actors|
    ensures a < |states[n].actors| && StageOk(states[n], a, j, Log(states, steps, n, a, j), st)
    ensures ClockOk(states, steps, n, a, j, st)
  {
    if n == 0 {
      st := Unread;
      hide StageOk, On, Did;
      NoneRead(states[0], a, j);
    } else {
      var s, t := states[n - 1], steps[n - 1];
      assert Enabled(s, t) && states[n] == Apply(s, t);
      assert Log(states, steps, n, a, j) ==
        Log(states, steps, n - 1, a, j) + if On(s, t, a, j) then Did(s, t) else [];
      hide *;
      EveryRun(states, steps, n - 1);
      var was := StageAt(states, steps, n - 1, a, j);
      st := OneStep(s, t, a, j, Log(states, steps, n - 1, a, j), was);
      UnreadEmpty(s, a, j, Log(states, steps, n - 1, a, j), was);
      ClockStep(states, steps, n, a, j, was, st);
    }
  }

  lemma UnreadEmpty(s: State, a: nat, j: nat, log: seq<Retry.Event>, st: Stage)
    requires a < |s.actors| && StageOk(s, a, j, log, st)
    ensures st.Unread? ==> log == []
  {
  }

  /** What a log is when its message is at some stage, held against serve_once. */
  lemma StageServes(s: State, a: nat, j: nat, log: seq<Retry.Event>, st: Stage)
    returns (now: int, answers: nat -> Retry.Run)
    requires a < |s.actors| && StageOk(s, a, j, log, st) && j in s.actors[a].taken && j < |s.bus|
    requires st.Trying? ==> st.failed == 0 || st.failed <= s.actors[a].cfg.retryMax
    ensures log <= Retry.Served(s.bus[j], now, answers, s.actors[a].cfg.retryMax)
    ensures !InHand(s.actors[a], j) ==> log == Retry.Served(s.bus[j], now, answers, s.actors[a].cfg.retryMax)
    ensures if st.Unread? then log == [] else now == st.now
  {
    var body, retryMax := s.bus[j], s.actors[a].cfg.retryMax;
    now, answers := 0, _ => Retry.Failed;
    hide Full, Refused, Retry.Served, Retry.Failures, Retry.Attempts, Retry.Decide, Retry.Ending;
    match st
    case Unread =>
    case Done(n, f) => now, answers := n, f;
    case Trying(n, m) =>
      now := n;
      ServedLate(body, now, answers, retryMax);
      Retry.FailuresGrow(0);
      if m <= retryMax {
        Retry.AfterFailures(answers, retryMax, m);
        Leads(Retry.Failures(m), Retry.Attempts(answers, retryMax, m));
      } else {
        Leads([], Retry.Attempts(answers, retryMax, 0));
        assert [] + Retry.Attempts(answers, retryMax, 0) == Retry.Attempts(answers, retryMax, 0);
      }
    case Untried(n) =>
      now := n;
      answers := WholeLog(body, retryMax, log, st);
    case Decided(n, m, run) =>
      now := n;
      answers := WholeLog(body, retryMax, log, st);
  }

  lemma Leads(x: seq<Retry.Event>, y: seq<Retry.Event>)
    ensures [Retry.PutInbox] + x <= [Retry.PutInbox] + (x + y) + [Retry.DeleteInbox]
  {
    assert [Retry.PutInbox] + (x + y) + [Retry.DeleteInbox] == [Retry.PutInbox] + x + (y + [Retry.DeleteInbox]);
  }

  /** In any run of any mesh, whatever all the others do in between: what an actor has done with a message it
      received is the beginning of what serve_once does with that message, for the clock reading its worker
      took and for some handler, and all of it once the worker is done with the message. */
  lemma {:induction false} LifeExactly(states: seq<State>, steps: seq<Step>, n: nat, a: nat, j: nat)
    returns (now: int, answers: nat -> Retry.Run)
    requires IsRun(states, steps) && n <= |steps| && a < |states[n].actors| && j in states[n].actors[a].taken
    ensures j < |states[n].bus|
    ensures
      var x := states[n].actors[a];
      var log, whole := Log(states, steps, n, a, j), Retry.Served(states[n].bus[j], now, answers, x.cfg.retryMax);
      && log <= whole && (!InHand(x, j) ==> log == whole)
      && (log != [] ==> exists q: nat :: q < n && Looked(states, steps, q, a, j, now))
  {
    var s := states[n];
    ActorsStay(states, steps, n);
    EveryRun(states, steps, n);
    hide *;
    var st := StageAt(states, steps, n, a, j);
    TakenFits(s, a, j, Log(states, steps, n, a, j), st);
    now, answers := StageServes(s, a, j, Log(states, steps, n, a, j), st);
    ClockRead(states, steps, n, a, j, st);
  }

  lemma ClockRead(states: seq<State>, steps: seq<Step>, n: nat, a: nat, j: nat, st: Stage)
    requires IsRun(states, steps) && n <= |steps| && ClockOk(states, steps, n, a, j, st)
    ensures st.Unread? || Log(states, steps, n, a, j) == [] ||
      exists q: nat :: q < n && Looked(states, steps, q, a, j, st.now)
  {
    hide Looked, Log, IsRun;
  }

  lemma TakenFits(s: State, a: nat, j: nat, log: seq<Retry.Event>, st: Stage)
    requires Inv(s) && a < |s.actors| && j in s.actors[a].taken && StageOk(s, a, j, log, st)
    ensures j < |s.bus| && (st.Trying? ==> st.failed == 0 || st.failed <= s.actors[a].cfg.retryMax)
  {
    assert ActorOk(s, a) && TakenOk(s, a, j);
    if st.Trying? { assert WorkerOk(s, a, s.actors[a].taken[j]); }
    hide Inv, ActorOk, AnswerOk, TrueReason, Hears, Full, Id, Tells, Refused, Retry.Served, Retry.Failures;
  }

  // ---- the clock in a reply ----

  /** The frame a step makes, sent at once or put into the outbox. */
  ghost predicate Makes(s: State, s': State, a: nat, w: nat, frame: Bytes) {
    || (s'.bus == s.bus + [frame])
    || (a < |s'.actors| && w < |s'.actors[a].workers|
        && var q := s'.actors[a].workers[w]; q.Sending? && q.frame == frame)
  }

  /** A reply carries the id its worker drew for it and the clock reading it was made at, from which its
      readers count its ttl. */
  lemma MadeNow(s: State, t: Step, frame: Bytes)
    requires Enabled(s, t) && (t.RunHandler? || t.RejectEarly?)
    requires Makes(s, Apply(s, t), t.a, t.w, frame)
    ensures Full(frame) && Id(frame) == t.id && SignedAt(frame, 112) == t.now
  {
    hide *;
    if t.RejectEarly? { EarlyMakes(s, t, frame); } else { RunMakes(s, t, frame); }
  }

  lemma RunMakes(s: State, t: Step, frame: Bytes)
    requires Enabled(s, t) && t.RunHandler? && Makes(s, Apply(s, t), t.a, t.w, frame)
    ensures Full(frame) && Id(frame) == t.id && SignedAt(frame, 112) == t.now
  {
    var p, retryMax := s.actors[t.a].workers[t.w], s.actors[t.a].cfg.retryMax;
    RanIs(s, t.a, t.w, t.run, t.now, t.id, t.report);
    ApplyRun(s, t.a, t.w, t.run, t.now, t.id, t.report);
    hide Apply, Enabled, Ran, Answer, Rejected, Says, ReportOk, StampFits, Makes, Id, Noted, LastRun;
    NotedSame(s, t.a, p.j, t.run);
    assert ConfigOk(s.actors[t.a].cfg) && Full(s.bus[p.j]);
    DecidedMakes(s, Noted(s, t.a, p.j, t.run), Apply(s, t), t, p, Retry.Decide(t.run, p.attempt, retryMax), frame);
  }

  /** From what a handler run leads to. */
  lemma DecidedMakes(s: State, s1: State, s': State, t: Step, p: Phase, next: Retry.Next, frame: Bytes)
    requires t.RunHandler? && p.Working? && Makes(s, s', t.a, t.w, frame) && s1.bus == s.bus
    requires t.a < |s1.actors| && t.w < |s1.actors[t.a].workers| && ConfigOk(s1.actors[t.a].cfg)
    requires p.j < |s1.bus| && Full(s1.bus[p.j])
    requires StampFits(s1, t.id, t.now, t.report) && StampFits(s1, t.id, t.now, [])
    requires match next
      case Publish(bytes) =>
        0 < |bytes| < Retry.PAYLOAD_CAP && s' == Box(s1, t.a, t.w, p.j, Answer(s1, t.a, p.j, t.now, t.id, bytes))
      case Finish => s' == Silent(s1, t.a, t.w, p.j, Nothing, Phase.Ending(p.j))
      case Reject(reason) =>
        && Says(t.report, s1.bus[p.j], reason)
        && s' == SendNow(s1, t.a, t.w, p.j, Rejected(s1, t.a, p.j, t.now, t.id, t.report), Phase.Ending(p.j))
      case Again => s' == Move(s1, t.a, t.w, Working(p.j, p.attempt + 1))
    ensures Full(frame) && Id(frame) == t.id && SignedAt(frame, 112) == t.now
  {
    hide *;
    match next {
      case Publish(bytes) =>
        AnswerReads(s1, t.a, p.j, t.now, t.id, bytes);
        BoxMakes(s, s1, t.a, t.w, p.j, Answer(s1, t.a, p.j, t.now, t.id, bytes), frame);
      case Finish =>
        SilentMakes(s, s1, t.a, t.w, p.j, Nothing, Phase.Ending(p.j), frame);
      case Reject(reason) =>
        RejectedReads(s1, t.a, p.j, t.now, t.id, t.report, reason);
        SendNowMakes(s, s1, t.a, t.w, p.j, Rejected(s1, t.a, p.j, t.now, t.id, t.report), Phase.Ending(p.j), frame);
      case Again =>
        MoveMakes(s, s1, t.a, t.w, Working(p.j, p.attempt + 1), frame);
    }
  }

  lemma NotedSame(s: State, a: nat, j: nat, run: Retry.Run)
    requires a < |s.actors|
    ensures var s1 := Noted(s, a, j, run);
      && s1.bus == s.bus && |s1.actors| == |s.actors| && s1.actors[a].workers == s.actors[a].workers
      && s1.actors[a].cfg == s.actors[a].cfg
  {
  }

  lemma EarlyMakes(s: State, t: Step, frame: Bytes)
    requires Enabled(s, t) && t.RejectEarly? && Makes(s, Apply(s, t), t.a, t.w, frame)
    ensures Full(frame) && Id(frame) == t.id && SignedAt(frame, 112) == t.now
  {
    var p := s.actors[t.a].workers[t.w];
    var reason := EarlyReason(s.bus[p.j], t.now);
    assert p.Held? && Full(s.bus[p.j]) && ConfigOk(s.actors[t.a].cfg) && Says(t.report, s.bus[p.j], reason);
    assert StampFits(s, t.id, t.now, t.report);
    StepIs(s, t);
    hide *;
    RejectedReads(s, t.a, p.j, t.now, t.id, t.report, reason);
    SendNowMakes(s, s, t.a, t.w, p.j, Rejected(s, t.a, p.j, t.now, t.id, t.report), Idle, frame);
  }

  lemma BoxMakes(s: State, s1: State, a: nat, w: nat, j: nat, f: Bytes, frame: Bytes)
    requires a < |s1.actors| && w < |s1.actors[a].workers| && s1.bus == s.bus
    requires Makes(s, Box(s1, a, w, j, f), a, w, frame)
    ensures frame == f
  {
    hide Id;
  }

  lemma SendNowMakes(s: State, s1: State, a: nat, w: nat, j: nat, f: Bytes, q: Phase, frame: Bytes)
    requires a < |s1.actors| && w < |s1.actors[a].workers| && s1.bus == s.bus && !q.Sending?
    requires Makes(s, SendNow(s1, a, w, j, f, q), a, w, frame)
    ensures frame == f
  {
    hide Id, Full;
    assert (s.bus + [f])[|s.bus|] == f && (s.bus + [frame])[|s.bus|] == frame;
  }

  lemma SilentMakes(s: State, s1: State, a: nat, w: nat, j: nat, why: Why, q: Phase, frame: Bytes)
    requires a < |s1.actors| && w < |s1.actors[a].workers| && s1.bus == s.bus && !q.Sending?
    ensures !Makes(s, Silent(s1, a, w, j, why, q), a, w, frame)
  {
  }

  lemma MoveMakes(s: State, s1: State, a: nat, w: nat, q: Phase, frame: Bytes)
    requires a < |s1.actors| && w < |s1.actors[a].workers| && s1.bus == s.bus && !q.Sending?
    ensures !Makes(s, Move(s1, a, w, q), a, w, frame)
  {
  }
}
