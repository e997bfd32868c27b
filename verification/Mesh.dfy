/** A mesh of actors: every worker's life of a message, the inboxes and outboxes, and the bus.
    Each step is one LMDB transaction, one send, one receive or one handler run of one worker. */
module Mesh {
  import opened Bytes
  import opened Options
  import opened Wire
  import opened Publish
  import opened Retry
  import opened Subscribe

  datatype Config = Config(actor: Bytes, topics: Bytes, resultTopic: Bytes, retryMax: int, ttl: int)

  predicate ConfigOk(c: Config) {
    0 !in c.actor && 0 !in c.topics && 0 !in c.resultTopic && FitsSigned(c.ttl, 8)
  }

  /** Where a worker is; j is the bus position of its message. */
  datatype Phase =
    | Idle
    | Held(j: nat)                       // received
    | Working(j: nat, attempt: nat)      // stored in the inbox, retry loop
    | Sending(j: nat, frame: Bytes)      // result stored in the outbox
    | Sent(j: nat, frame: Bytes)         // result on the bus, still in the outbox
    | Ending(j: nat)                     // retry loop left, still in the inbox

  /** Why a message was left without a reply: too short for a header, retry_max negative, or a
      handler that succeeded with no output. */
  datatype Why = Short | NoTry | Nothing

  /** taken (message to worker), ran (message to what its handler reported last), answers (message to
      the id of the reply) and silent (message to the reason there is none) record history only. */
  datatype Actor = Actor(
    cfg: Config,
    workers: seq<Phase>,
    inbox: map<Bytes, Bytes>,
    outbox: map<Bytes, Bytes>,
    taken: map<nat, nat>,
    ran: map<nat, Run>,
    answers: map<nat, Bytes>,
    silent: map<nat, Why>
  )

  datatype Maker = Outside | Worker(actor: nat, worker: nat)

  /** bus holds every message sent, in order; born (id to maker) and at (id to bus position) record
      history only. */
  datatype State = State(actors: seq<Actor>, bus: seq<Bytes>, born: map<Bytes, Maker>, at: map<Bytes, nat>)

  predicate Full(b: Bytes) { |b| >= HEADER }
  function Id(b: Bytes): Bytes { IdAt(b, 32) }
  function Corr(b: Bytes): Bytes { IdAt(b, 48) }
  function Caus(b: Bytes): Bytes { IdAt(b, 64) }

  const NOBODY: Bytes := Zeros(ID)

  /** "tuple_rejected" */
  const REJECTED: Bytes := [116, 117, 112, 108, 101, 95, 114, 101, 106, 101, 99, 116, 101, 100]

  // ---- steps ----

  datatype Step =
    | Inject(body: Bytes)
    | Receive(a: nat, w: nat, j: nat)
    | Drop(a: nat, w: nat)
    | RejectEarly(a: nat, w: nat, now: int, id: Bytes, report: Bytes)
    | Put(a: nat, w: nat, now: int)
    | NoAttempt(a: nat, w: nat)
    | RunHandler(a: nat, w: nat, run: Run, now: int, id: Bytes, report: Bytes)
    | Send(a: nat, w: nat)
    | Unbox(a: nat, w: nat)
    | Unstore(a: nat, w: nat)

  predicate Fresh(s: State, id: Bytes) {
    |id| == ID && id != NOBODY && id !in s.born
  }

  predicate StampFits(s: State, id: Bytes, now: int, report: Bytes) {
    Fresh(s, id) && FitsSigned(now, 8) && |report| < REPORT_BUF
  }

  predicate Hears(c: Config, body: Bytes) {
    Delivered(Terminated(Listed(c.topics)), body)
  }

  predicate At(s: State, a: nat, w: nat) {
    a < |s.actors| && w < |s.actors[a].workers| && ConfigOk(s.actors[a].cfg)
  }

  /** A full message that the worker is about to process or refuse. */
  predicate HoldsFull(s: State, a: nat, w: nat) {
    At(s, a, w) && var p := s.actors[a].workers[w]; p.Held? && p.j < |s.bus| && Full(s.bus[p.j])
  }

  predicate Refused(body: Bytes, now: int)
    requires Full(body)
  {
    Expired(Cast(body), now) || |body| - HEADER > PAYLOAD_CAP
  }

  /** Why a message is refused before it is stored; the ttl is looked at first. */
  function EarlyReason(body: Bytes, now: int): Reason
    requires Full(body)
  {
    if Expired(Cast(body), now) then TtlExpired else PayloadCapExceeded
  }

  function ReasonText(reason: Reason): string {
    match reason
    case TtlExpired => "ttl_expired"
    case PayloadCapExceeded => "payload_cap_exceeded"
    case ResultCapExceeded => "result_cap_exceeded"
    case MaxRetriesExceeded => "max_retries_exceeded"
  }

  /** The text of a rejection of this message for this reason. */
  predicate Says(report: Bytes, body: Bytes, reason: Reason)
    requires Full(body)
  {
    Chars(report) == Report(body, ReasonText(reason))
  }

  predicate AtWork(s: State, a: nat, w: nat) {
    At(s, a, w) && var p := s.actors[a].workers[w]; p.Working? && p.j < |s.bus| && Full(s.bus[p.j])
  }

  /** If the run leads to a rejection, the report is the text of that one. */
  predicate ReportOk(s: State, a: nat, w: nat, run: Run, report: Bytes)
    requires AtWork(s, a, w)
  {
    var p := s.actors[a].workers[w];
    var next := Decide(run, p.attempt, s.actors[a].cfg.retryMax);
    next.Reject? ==> Says(report, s.bus[p.j], next.reason)
  }

  predicate Enabled(s: State, t: Step) {
    match t
    case Inject(body) => Full(body) ==> Fresh(s, Id(body))
    case Receive(a, w, j) =>
      At(s, a, w) && s.actors[a].workers[w].Idle? && j < |s.bus| && j !in s.actors[a].taken
      && Hears(s.actors[a].cfg, s.bus[j])
    case Drop(a, w) =>
      At(s, a, w) && var p := s.actors[a].workers[w]; p.Held? && p.j < |s.bus| && !Full(s.bus[p.j])
    case RejectEarly(a, w, now, id, report) =>
      HoldsFull(s, a, w) && StampFits(s, id, now, report)
      && var body := s.bus[s.actors[a].workers[w].j];
         Refused(body, now) && Says(report, body, EarlyReason(body, now))
    case Put(a, w, now) =>
      HoldsFull(s, a, w) && !Refused(s.bus[s.actors[a].workers[w].j], now)
    case NoAttempt(a, w) =>
      AtWork(s, a, w) && s.actors[a].workers[w].attempt > s.actors[a].cfg.retryMax
    case RunHandler(a, w, run, now, id, report) =>
      AtWork(s, a, w) && s.actors[a].workers[w].attempt <= s.actors[a].cfg.retryMax && StampFits(s, id, now, report)
      && (run.Output? ==> |run.bytes| < PAYLOAD_CAP)
      && ReportOk(s, a, w, run, report)
    case Send(a, w) => At(s, a, w) && s.actors[a].workers[w].Sending?
    case Unbox(a, w) => At(s, a, w) && s.actors[a].workers[w].Sent?
    case Unstore(a, w) =>
      At(s, a, w) && var p := s.actors[a].workers[w]; p.Ending? && p.j < |s.bus|
  }

  function Rejected(s: State, a: nat, j: nat, now: int, id: Bytes, report: Bytes): Bytes
    requires a < |s.actors| && ConfigOk(s.actors[a].cfg) && j < |s.bus| && Full(s.bus[j])
    requires StampFits(s, id, now, report)
  {
    Widths();
    Reply(Cast(s.bus[j]), REJECTED, report, Stamp(s.actors[a].cfg.actor, id, 0, now))
  }

  function Answer(s: State, a: nat, j: nat, now: int, id: Bytes, bytes: Bytes): Bytes
    requires a < |s.actors| && ConfigOk(s.actors[a].cfg) && j < |s.bus| && Full(s.bus[j])
    requires StampFits(s, id, now, []) && |bytes| < PAYLOAD_CAP
  {
    Widths();
    var c := s.actors[a].cfg;
    ResultReply(Cast(s.bus[j]), bytes, c.resultTopic, Stamp(c.actor, id, c.ttl, now))
  }

  /** A frame goes onto the bus. */
  function Emit(s: State, frame: Bytes): State {
    s.(bus := s.bus + [frame], at := if Full(frame) then s.at[Id(frame) := |s.bus|] else s.at)
  }

  function Born(s: State, id: Bytes, m: Maker): State {
    s.(born := s.born[id := m])
  }

  function SetActor(s: State, a: nat, x: Actor): State
    requires a < |s.actors|
  {
    s.(actors := s.actors[a := x])
  }

  function Moving(x: Actor, w: nat, p: Phase): Actor
    requires w < |x.workers|
  {
    x.(workers := x.workers[w := p])
  }

  function Move(s: State, a: nat, w: nat, p: Phase): State
    requires a < |s.actors| && w < |s.actors[a].workers|
  {
    SetActor(s, a, Moving(s.actors[a], w, p))
  }

  /** Left without a reply. */
  function Silent(s: State, a: nat, w: nat, j: nat, why: Why, p: Phase): State
    requires a < |s.actors| && w < |s.actors[a].workers|
  {
    var x := s.actors[a];
    SetActor(s, a, Moving(x, w, p).(silent := x.silent[j := why]))
  }

  /** The report of a handler run, noted. */
  function Noted(s: State, a: nat, j: nat, run: Run): State
    requires a < |s.actors|
  {
    var x := s.actors[a];
    SetActor(s, a, x.(ran := x.ran[j := run]))
  }

  /** A rejection is sent at once, without passing through the outbox. */
  function SendNow(s: State, a: nat, w: nat, j: nat, frame: Bytes, p: Phase): State
    requires a < |s.actors| && w < |s.actors[a].workers|
  {
    var x := s.actors[a];
    var s1 := SetActor(s, a, Moving(x, w, p).(answers := x.answers[j := Id(frame)]));
    Emit(Born(s1, Id(frame), Worker(a, w)), frame)
  }

  /** A result is stored in the outbox first. */
  function Box(s: State, a: nat, w: nat, j: nat, frame: Bytes): State
    requires a < |s.actors| && w < |s.actors[a].workers|
  {
    var x, k := s.actors[a], Id(frame);
    var x' := Moving(x, w, Sending(j, frame)).(outbox := x.outbox[k := frame], answers := x.answers[j := k]);
    Born(SetActor(s, a, x'), k, Worker(a, w))
  }

  function Ran(s: State, a: nat, w: nat, run: Run, now: int, id: Bytes, report: Bytes): State
    requires Enabled(s, RunHandler(a, w, run, now, id, report))
  {
    var p := s.actors[a].workers[w];
    var s1 := Noted(s, a, p.j, run);
    match Decide(run, p.attempt, s.actors[a].cfg.retryMax)
    case Publish(bytes) => Box(s1, a, w, p.j, Answer(s1, a, p.j, now, id, bytes))
    case Finish => Silent(s1, a, w, p.j, Nothing, Ending(p.j))
    case Reject(_) => SendNow(s1, a, w, p.j, Rejected(s1, a, p.j, now, id, report), Ending(p.j))
    case Again => Move(s1, a, w, Working(p.j, p.attempt + 1))
  }

  function Apply(s: State, t: Step): State
    requires Enabled(s, t)
  {
    match t
    case Inject(body) =>
      var s1 := Emit(s, body);
      if Full(body) then Born(s1, Id(body), Outside) else s1
    case Receive(a, w, j) =>
      var x := s.actors[a];
      SetActor(s, a, Moving(x, w, Held(j)).(taken := x.taken[j := w]))
    case Drop(a, w) => Silent(s, a, w, s.actors[a].workers[w].j, Short, Idle)
    case RejectEarly(a, w, now, id, report) =>
      var j := s.actors[a].workers[w].j;
      SendNow(s, a, w, j, Rejected(s, a, j, now, id, report), Idle)
    case Put(a, w, _) =>
      var x := s.actors[a];
      var j := x.workers[w].j;
      SetActor(s, a, Moving(x, w, Working(j, 0)).(inbox := x.inbox[Id(s.bus[j]) := s.bus[j]]))
    case NoAttempt(a, w) =>
      var j := s.actors[a].workers[w].j;
      Silent(s, a, w, j, NoTry, Ending(j))
    case RunHandler(a, w, run, now, id, report) => Ran(s, a, w, run, now, id, report)
    case Send(a, w) =>
      var p := s.actors[a].workers[w];
      Emit(Move(s, a, w, Sent(p.j, p.frame)), p.frame)
    case Unbox(a, w) =>
      var x := s.actors[a];
      var p := x.workers[w];
      SetActor(s, a, Moving(x, w, Ending(p.j)).(outbox := x.outbox - {Id(p.frame)}))
    case Unstore(a, w) =>
      var x := s.actors[a];
      SetActor(s, a, Moving(x, w, Idle).(inbox := x.inbox - {Id(s.bus[x.workers[w].j])}))
  }

  /** Idle actors with empty databases and nothing on the bus. */
  predicate Initial(s: State) {
    && s.bus == [] && s.born == map[] && s.at == map[]
    && forall a :: 0 <= a < |s.actors| ==> StartsEmpty(s.actors[a])
  }

  predicate StartsEmpty(x: Actor) {
    && ConfigOk(x.cfg) && x.inbox == map[] && x.outbox == map[]
    && x.taken == map[] && x.ran == map[] && x.answers == map[] && x.silent == map[]
    && forall w :: 0 <= w < |x.workers| ==> x.workers[w] == Idle
  }

  /** A run: states from an initial one, each the result of a step that was enabled. */
  ghost predicate IsRun(states: seq<State>, steps: seq<Step>) {
    && |states| == |steps| + 1 && Initial(states[0])
    && forall i :: 0 <= i < |steps| ==> Enabled(states[i], steps[i]) && states[i + 1] == Apply(states[i], steps[i])
  }

  // ---- the invariant, one element at a time ----

  predicate Stored(p: Phase) {
    p.Working? || p.Sending? || p.Sent? || p.Ending?
  }

  /** A worker in a given phase, against its own actor and the bus. */
  predicate WorkerOk(s: State, a: nat, w: nat)
    requires a < |s.actors| && w < |s.actors[a].workers|
  {
    var x, p := s.actors[a], s.actors[a].workers[w];
    p.Idle? || (
      && p.j < |s.bus| && p.j in x.taken && x.taken[p.j] == w
      && (p.Held? || p.Working? ==> p.j !in x.answers && p.j !in x.silent)
      && (p.Held? ==> p.j !in x.ran)
      && (p.Working? ==> p.attempt == 0 || p.attempt <= x.cfg.retryMax)
      && (p.Ending? ==> p.j in x.answers || p.j in x.silent)
      && (Stored(p) ==> Full(s.bus[p.j]) && Id(s.bus[p.j]) in x.inbox && x.inbox[Id(s.bus[p.j])] == s.bus[p.j])
      && (p.Sending? || p.Sent? ==>
            && ReplyOk(s, a, w, p.j, p.frame) && Id(p.frame) in x.outbox && x.outbox[Id(p.frame)] == p.frame
            && p.j in x.ran && x.ran[p.j].Output? && Tells(x.cfg, s.bus[p.j], LastRun(x, p.j), p.frame))
      && (p.Sending? ==> Id(p.frame) !in s.at)
      && (p.Sent? ==> Id(p.frame) in s.at && s.at[Id(p.frame)] < |s.bus| && s.bus[s.at[Id(p.frame)]] == p.frame))
  }

  /** The last report of the handler on message j, if it has run on it. */
  function LastRun(x: Actor, j: nat): Option<Run> {
    if j in x.ran then Some(x.ran[j]) else None
  }

  /** A frame an actor made: its own name as the origin, and this ttl. */
  predicate Stamped(c: Config, ttl: int, frame: Bytes) {
    Full(frame) && Text(frame[80..112]) == Cut31(c.actor) && SignedAt(frame, 120) == ttl
  }

  /** A frame carries a handler's output: whole, but for a first line that names the topic. */
  predicate Carries(c: Config, output: Bytes, frame: Bytes) {
    var o := Divided(output, c.resultTopic);
    && output != [] && 0 in frame && Text(frame) == Cut31(o.topic) && PayloadIn(frame) == o.payload
    && Stamped(c, c.ttl, frame)
  }

  /** A rejection of a message for a reason; rejections do not expire. */
  predicate IsRejection(c: Config, body: Bytes, reason: Reason, frame: Bytes) {
    && 0 in frame && Text(frame) == REJECTED && Stamped(c, 0, frame)
    && Full(body) && Says(PayloadIn(frame), body, reason)
  }

  /** The rejection of a message no handler has seen: it has a ttl, or its payload is over the cap. */
  predicate IsEarly(c: Config, body: Bytes, frame: Bytes) {
    || (Full(body) && Cast(body).ttl != 0 && IsRejection(c, body, TtlExpired, frame))
    || (|body| - HEADER > PAYLOAD_CAP && IsRejection(c, body, PayloadCapExceeded, frame))
  }

  /** The reply to a message is what its handler printed last, or a rejection that says why there is none:
      the handler has not run, has failed, or has printed too much. */
  predicate Tells(c: Config, body: Bytes, run: Option<Run>, frame: Bytes) {
    match run
    case None => IsEarly(c, body, frame)
    case Some(Output(bytes)) => Carries(c, bytes, frame)
    case Some(TooBig) => IsRejection(c, body, ResultCapExceeded, frame)
    case Some(Failed) => IsRejection(c, body, MaxRetriesExceeded, frame)
  }

  /** A frame made by a worker in answer to message j. */
  predicate ReplyOk(s: State, a: nat, w: nat, j: nat, frame: Bytes)
    requires a < |s.actors| && j < |s.bus|
  {
    && Full(frame) && Id(frame) != NOBODY && Id(frame) in s.born && s.born[Id(frame)] == Worker(a, w)
    && Caus(frame) == Id(s.bus[j]) && Corr(frame) == Corr(s.bus[j])
    && j in s.actors[a].answers && s.actors[a].answers[j] == Id(frame)
  }

  /** An inbox key is the id of the message some worker has stored and not finished. */
  predicate InboxOk(s: State, a: nat, k: Bytes)
    requires a < |s.actors|
  {
    var x := s.actors[a];
    k in x.inbox ==>
      && k in s.at && s.at[k] in x.taken && x.taken[s.at[k]] < |x.workers|
      && var p := x.workers[x.taken[s.at[k]]]; Stored(p) && p.j == s.at[k]
  }

  /** An outbox key is the id of the result some worker has not finished sending. */
  predicate OutboxOk(s: State, a: nat, k: Bytes)
    requires a < |s.actors|
  {
    var x := s.actors[a];
    k in x.outbox ==>
      && k in s.born && s.born[k].Worker? && s.born[k].actor == a && s.born[k].worker < |x.workers|
      && var p := x.workers[s.born[k].worker]; (p.Sending? || p.Sent?) && Id(p.frame) == k
  }

  /** A message received is in its worker's hands, or answered, or left unanswered for a reason. */
  predicate TakenOk(s: State, a: nat, j: nat)
    requires a < |s.actors|
  {
    var x := s.actors[a];
    && (j in x.taken ==>
          && j < |s.bus| && x.taken[j] < |x.workers| && Hears(x.cfg, s.bus[j])
          && (InHand(x, j) || j in x.answers || j in x.silent))
    && (j in x.ran ==> j in x.taken && x.cfg.retryMax >= 0)
    && (j in x.answers ==> j in x.taken && j !in x.silent && AnswerOk(s, a, j))
    && (j in x.silent ==> j in x.taken && TrueReason(s, a, j))
  }

  predicate InHand(x: Actor, j: nat) {
    j in x.taken && x.taken[j] < |x.workers| && var p := x.workers[x.taken[j]]; !p.Idle? && p.j == j
  }

  /** The reply is on the bus, or its worker is about to send it. */
  predicate AnswerOk(s: State, a: nat, j: nat)
    requires a < |s.actors| && j in s.actors[a].answers
  {
    var x, k := s.actors[a], s.actors[a].answers[j];
    || (InHand(x, j) && x.workers[x.taken[j]].Sending?)
    || (&& j < |s.bus| && k in s.at && s.at[k] < |s.bus| && Caus(s.bus[s.at[k]]) == Id(s.bus[j])
        && j in x.taken && k in s.born && s.born[k] == Worker(a, x.taken[j])
        && Tells(x.cfg, s.bus[j], LastRun(x, j), s.bus[s.at[k]]))
  }

  predicate TrueReason(s: State, a: nat, j: nat)
    requires a < |s.actors| && j in s.actors[a].silent
  {
    match s.actors[a].silent[j]
    case Short => j < |s.bus| && !Full(s.bus[j])
    case NoTry => s.actors[a].cfg.retryMax < 0
    case Nothing => LastRun(s.actors[a], j) == Some(Output([]))
  }

  /** A message on the bus: known by its id, and either from outside or an answer to an earlier one. */
  predicate BusOk(s: State, i: nat)
    requires i < |s.bus|
  {
    var k := Id(s.bus[i]);
    Full(s.bus[i]) ==> k != NOBODY && k in s.at && s.at[k] == i && k in s.born && CauseOk(s, i)
  }

  predicate CauseOk(s: State, i: nat)
    requires i < |s.bus| && Id(s.bus[i]) in s.born
  {
    var k, p := Id(s.bus[i]), Caus(s.bus[i]);
    match s.born[k]
    case Outside => true
    case Worker(a, _) =>
      && p in s.at && s.at[p] < i && Corr(s.bus[s.at[p]]) == Corr(s.bus[i])
      && a < |s.actors| && s.at[p] in s.actors[a].answers && s.actors[a].answers[s.at[p]] == k
  }

  predicate IdOk(s: State, k: Bytes) {
    k in s.at ==> k in s.born && s.at[k] < |s.bus| && Full(s.bus[s.at[k]]) && Id(s.bus[s.at[k]]) == k
  }

  ghost predicate ActorOk(s: State, a: nat)
    requires a < |s.actors|
  {
    && ConfigOk(s.actors[a].cfg)
    && (forall w :: 0 <= w < |s.actors[a].workers| ==> WorkerOk(s, a, w))
    && (forall k :: InboxOk(s, a, k))
    && (forall k :: OutboxOk(s, a, k))
    && (forall j :: TakenOk(s, a, j))
  }

  ghost predicate BusAllOk(s: State) {
    (forall i :: 0 <= i < |s.bus| ==> BusOk(s, i)) && (forall k :: IdOk(s, k))
  }

  ghost predicate Inv(s: State) {
    BusAllOk(s) && forall a :: 0 <= a < |s.actors| ==> ActorOk(s, a)
  }

  // ---- what a step may change ----

  /** The history only grows, and a bus position is given only to new ids or to the mover's own. */
  ghost predicate Grows(s: State, s': State, m: Maker) {
    && s.bus <= s'.bus
    && |s'.actors| == |s.actors|
    && (forall k :: k in s.born ==> k in s'.born && s'.born[k] == s.born[k])
    && (forall k :: k in s.at ==> k in s'.at && s'.at[k] == s.at[k])
    && (forall k :: k in s'.at && k !in s.at && k in s.born ==> s.born[k] == m)
  }

  predicate Names(s: State, j: nat, k: Bytes) {
    j < |s.bus| && Full(s.bus[j]) && Id(s.bus[j]) == k
  }

  /** Actor a's worker w, at work on message j, has moved. */
  ghost predicate Moved(s: State, s': State, a: nat, w: nat, j: nat) {
    && At(s, a, w) && j < |s.bus| && Grows(s, s', Worker(a, w))
    && s'.actors == s.actors[a := s'.actors[a]]
    && var x, x' := s.actors[a], s'.actors[a];
    && x'.cfg == x.cfg && |x'.workers| == |x.workers| && x'.workers == x.workers[w := x'.workers[w]]
    && (forall i :: i in x.taken ==> i in x'.taken && x'.taken[i] == x.taken[i])
    && (forall i :: i in x'.taken && i !in x.taken ==> i == j)
    && j in x'.taken && x'.taken[j] == w
    && (forall i :: i != j ==> (i in x.ran <==> i in x'.ran))
    && (forall i :: i != j && i in x.ran ==> x'.ran[i] == x.ran[i])
    && (forall i :: i != j ==> (i in x.answers <==> i in x'.answers))
    && (forall i :: i in x.answers ==> i in x'.answers && x'.answers[i] == x.answers[i])
    && (forall i :: i != j ==> (i in x.silent <==> i in x'.silent))
    && (forall i :: i in x.silent ==> i in x'.silent && x'.silent[i] == x.silent[i])
    && (forall k :: !Names(s', j, k) ==> (k in x.inbox <==> k in x'.inbox))
    && (forall k :: !Names(s', j, k) && k in x.inbox ==> x'.inbox[k] == x.inbox[k])
    && (forall k :: k in s.born && s.born[k] != Worker(a, w) ==> (k in x.outbox <==> k in x'.outbox))
    && (forall k :: k in s.born && s.born[k] != Worker(a, w) && k in x.outbox ==> x'.outbox[k] == x.outbox[k])
  }

  /** An actor that did not move keeps its part of the invariant. */
  lemma OtherActor(s: State, s': State, m: Maker, b: nat)
    requires Inv(s) && Grows(s, s', m) && b < |s.actors| && s'.actors[b] == s.actors[b]
    requires m.Worker? ==> m.actor != b
    ensures ActorOk(s', b)
  {
    assert ActorOk(s, b);
    hide Id, Corr, Caus, Tells, Hears;
    forall v | 0 <= v < |s.actors[b].workers| ensures WorkerOk(s', b, v) {
      assert WorkerOk(s, b, v);
    }
    forall k ensures InboxOk(s', b, k) { assert InboxOk(s, b, k) && IdOk(s, k); }
    forall k ensures OutboxOk(s', b, k) { assert OutboxOk(s, b, k); }
    forall i ensures TakenOk(s', b, i) {
      assert TakenOk(s, b, i);
      if i in s.actors[b].answers { assert IdOk(s, s.actors[b].answers[i]); }
    }
  }

  /** Two workers of an actor are never at work on the same message, nor on messages of one id. */
  lemma OwnMessage(s: State, a: nat, v: nat, w: nat, j: nat)
    requires Inv(s) && At(s, a, v) && v != w && !s.actors[a].workers[v].Idle?
    requires j in s.actors[a].taken ==> s.actors[a].taken[j] == w
    ensures s.actors[a].workers[v].j < |s.bus| && s.actors[a].workers[v].j != j
    ensures j < |s.bus| && Full(s.bus[j]) && Full(s.bus[s.actors[a].workers[v].j]) ==>
      Id(s.bus[j]) != Id(s.bus[s.actors[a].workers[v].j])
  {
    assert ActorOk(s, a) && WorkerOk(s, a, v);
    hide Id, Corr, Caus, Tells, Hears;
    var i := s.actors[a].workers[v].j;
    assert BusOk(s, i);
    if j < |s.bus| { assert BusOk(s, j); }
  }

  lemma OtherWorker(s: State, s': State, a: nat, w: nat, j: nat, v: nat)
    requires Inv(s) && Moved(s, s', a, w, j) && v < |s.actors[a].workers| && v != w
    ensures WorkerOk(s', a, v)
  {
    assert ActorOk(s, a) && WorkerOk(s, a, v);
    if !s.actors[a].workers[v].Idle? {
      OwnMessage(s, a, v, w, j);
    }
    hide Id, Corr, Caus, Tells, Hears;
    assert s'.bus[j] == s.bus[j];
  }

  /** What the moving worker has to show for itself. */
  ghost predicate OwnOk(s: State, s': State, a: nat, w: nat, j: nat)
    requires At(s, a, w) && a < |s'.actors| && w < |s'.actors[a].workers| && j < |s'.bus|
  {
    var p, x' := s.actors[a].workers[w], s'.actors[a];
    && (!p.Idle? ==> p.j == j) && (!x'.workers[w].Idle? ==> x'.workers[w].j == j)
    && WorkerOk(s', a, w)
    && (!Stored(x'.workers[w]) && Full(s'.bus[j]) ==> Id(s'.bus[j]) !in x'.inbox)
    && (forall k :: k in x'.outbox ==> (k in s.born && s.born[k] != Worker(a, w)) || OutboxOk(s', a, k))
    && TakenOk(s', a, j)
  }

  lemma InboxKeeps(s: State, s': State, a: nat, w: nat, j: nat, k: Bytes)
    requires Inv(s) && BusAllOk(s') && Moved(s, s', a, w, j) && OwnOk(s, s', a, w, j)
    ensures InboxOk(s', a, k)
  {
    assert ActorOk(s, a) && InboxOk(s, a, k) && IdOk(s, k) && IdOk(s', k) && BusOk(s', j);
    hide Id, Corr, Caus, Tells, Hears;
  }

  lemma OutboxKeeps(s: State, s': State, a: nat, w: nat, j: nat, k: Bytes)
    requires Inv(s) && Moved(s, s', a, w, j) && OwnOk(s, s', a, w, j)
    ensures OutboxOk(s', a, k)
  {
    assert ActorOk(s, a) && OutboxOk(s, a, k);
    hide Id, Corr, Caus, Tells, Hears;
  }

  lemma TakenKeeps(s: State, s': State, a: nat, w: nat, j: nat, i: nat)
    requires Inv(s) && Moved(s, s', a, w, j) && OwnOk(s, s', a, w, j)
    ensures TakenOk(s', a, i)
  {
    assert ActorOk(s, a) && TakenOk(s, a, i);
    if i in s.actors[a].answers { assert IdOk(s, s.actors[a].answers[i]); }
    hide Id, Corr, Caus, Tells, Hears, WorkerOk, InboxOk, OutboxOk;
  }

  /** A worker's move keeps the invariant when its own obligations are met. */
  lemma MoveKeeps(s: State, s': State, a: nat, w: nat, j: nat)
    requires Inv(s) && BusAllOk(s') && Moved(s, s', a, w, j) && OwnOk(s, s', a, w, j)
    ensures Inv(s')
  {
    assert ActorOk(s, a);
    hide WorkerOk, InboxOk, OutboxOk, TakenOk, BusAllOk;
    forall v | 0 <= v < |s.actors[a].workers| ensures WorkerOk(s', a, v) {
      if v != w { OtherWorker(s, s', a, w, j, v); }
    }
    forall k ensures InboxOk(s', a, k) { InboxKeeps(s, s', a, w, j, k); }
    forall k ensures OutboxOk(s', a, k) { OutboxKeeps(s, s', a, w, j, k); }
    forall i ensures TakenOk(s', a, i) { TakenKeeps(s, s', a, w, j, i); }
    forall b | 0 <= b < |s'.actors| ensures ActorOk(s', b) {
      if b != a { OtherActor(s, s', Worker(a, w), b); }
    }
  }

  // ---- the bus ----

  ghost predicate AnswersGrow(s: State, s': State) {
    && |s'.actors| == |s.actors|
    && forall b, i :: 0 <= b < |s.actors| && i in s.actors[b].answers ==>
      i in s'.actors[b].answers && s'.actors[b].answers[i] == s.actors[b].answers[i]
  }

  lemma MovedAnswers(s: State, s': State, a: nat, w: nat, j: nat)
    requires Moved(s, s', a, w, j)
    ensures AnswersGrow(s, s') && Grows(s, s', Worker(a, w))
  {
    hide Grows;
  }

  lemma QuietBus(s: State, s': State, m: Maker)
    requires BusAllOk(s) && Grows(s, s', m) && s'.bus == s.bus && s'.at == s.at && AnswersGrow(s, s')
    ensures BusAllOk(s')
  {
    hide Id, Corr, Caus, Tells;
    forall i | 0 <= i < |s'.bus| ensures BusOk(s', i) { assert BusOk(s, i); }
    forall k ensures IdOk(s', k) { assert IdOk(s, k); }
  }

  /** A move that sends nothing. */
  lemma QuietMove(s: State, s': State, a: nat, w: nat, j: nat)
    requires Inv(s) && Moved(s, s', a, w, j) && OwnOk(s, s', a, w, j) && s'.bus == s.bus && s'.at == s.at
    ensures Inv(s')
  {
    assert BusAllOk(s);
    MovedAnswers(s, s', a, w, j);
    hide *;
    QuietBus(s, s', Worker(a, w));
    MoveKeeps(s, s', a, w, j);
  }

  /** The newly sent message, with an id that was not on the bus. */
  ghost predicate NewOk(s: State, s': State, frame: Bytes) {
    && s'.bus == s.bus + [frame]
    && (Full(frame) ==>
        && Id(frame) != NOBODY && Id(frame) !in s.at && s'.at == s.at[Id(frame) := |s.bus|]
        && Id(frame) in s'.born && CauseOk(s', |s.bus|))
    && (!Full(frame) ==> s'.at == s.at)
  }

  lemma LoudBus(s: State, s': State, m: Maker, frame: Bytes)
    requires BusAllOk(s) && Grows(s, s', m) && NewOk(s, s', frame) && AnswersGrow(s, s')
    ensures BusAllOk(s')
  {
    hide Id, Corr, Caus, Tells;
    forall i | 0 <= i < |s'.bus| ensures BusOk(s', i) {
      if i < |s.bus| {
        assert BusOk(s, i) && s'.bus[i] == s.bus[i];
      }
    }
    forall k ensures IdOk(s', k) { assert IdOk(s, k); }
  }

  /** A move that sends a frame. */
  lemma LoudMove(s: State, s': State, a: nat, w: nat, j: nat, frame: Bytes)
    requires Inv(s) && Moved(s, s', a, w, j) && OwnOk(s, s', a, w, j) && NewOk(s, s', frame)
    ensures Inv(s')
  {
    assert BusAllOk(s);
    MovedAnswers(s, s', a, w, j);
    hide *;
    LoudBus(s, s', Worker(a, w), frame);
    MoveKeeps(s, s', a, w, j);
  }

  // ---- each step ----

  lemma InjectKeeps(s: State, body: Bytes)
    requires Inv(s) && Enabled(s, Inject(body))
    ensures Inv(Apply(s, Inject(body)))
  {
    var s' := Apply(s, Inject(body));
    hide Id, Corr, Caus, Tells;
    assert Full(body) ==> Id(body) !in s.at by { assert IdOk(s, Id(body)); }
    LoudBus(s, s', Outside, body);
    forall b | 0 <= b < |s'.actors| ensures ActorOk(s', b) {
      OtherActor(s, s', Outside, b);
    }
  }

  /** Whose an outbox entry is. */
  lemma OutboxOwner(s: State, a: nat, w: nat, k: Bytes)
    requires Inv(s) && At(s, a, w) && k in s.actors[a].outbox
    ensures k in s.born
    ensures s.born[k] == Worker(a, w) ==>
      var p := s.actors[a].workers[w]; (p.Sending? || p.Sent?) && Id(p.frame) == k
  {
    assert ActorOk(s, a) && OutboxOk(s, a, k);
  }

  /** No outbox entry is worker w's, unless it is the one named. */
  ghost predicate BoxedOnly(s: State, a: nat, w: nat, ours: Option<Bytes>)
    requires a < |s.actors|
  {
    forall k :: k in s.actors[a].outbox ==> k in s.born && (s.born[k] == Worker(a, w) ==> ours == Some(k))
  }

  /** A message no worker has stored is not in the inbox. */
  lemma NotStored(s: State, a: nat, j: nat)
    requires Inv(s) && a < |s.actors| && j < |s.bus| && Full(s.bus[j])
    requires j in s.actors[a].taken ==>
      var w := s.actors[a].taken[j]; w < |s.actors[a].workers| && !Stored(s.actors[a].workers[w])
    ensures Id(s.bus[j]) !in s.actors[a].inbox
  {
    assert ActorOk(s, a) && InboxOk(s, a, Id(s.bus[j])) && BusOk(s, j);
  }

  /** What is known of a worker before it moves. */
  lemma Mover(s: State, a: nat, w: nat)
    requires Inv(s) && At(s, a, w)
    ensures WorkerOk(s, a, w)
    ensures var p := s.actors[a].workers[w];
      BoxedOnly(s, a, w, if p.Sending? || p.Sent? then Some(Id(p.frame)) else None)
  {
    assert ActorOk(s, a);
    hide Id, Corr, Caus, Tells, Hears, WorkerOk;
    var p := s.actors[a].workers[w];
    forall k | k in s.actors[a].outbox
      ensures k in s.born && (s.born[k] == Worker(a, w) ==> (p.Sending? || p.Sent?) && Id(p.frame) == k)
    {
      OutboxOwner(s, a, w, k);
    }
  }

  /** What is known of a worker with a message. */
  lemma Busy(s: State, a: nat, w: nat)
    requires Inv(s) && At(s, a, w) && !s.actors[a].workers[w].Idle?
    ensures WorkerOk(s, a, w)
    ensures var j := s.actors[a].workers[w].j;
      j < |s.bus| && TakenOk(s, a, j) && BusOk(s, j) && j in s.actors[a].taken && s.actors[a].taken[j] == w
    ensures var p := s.actors[a].workers[w];
      BoxedOnly(s, a, w, if p.Sending? || p.Sent? then Some(Id(p.frame)) else None)
    ensures var p := s.actors[a].workers[w];
      Full(s.bus[p.j]) && !Stored(p) ==> Id(s.bus[p.j]) !in s.actors[a].inbox
  {
    Mover(s, a, w);
    hide Id, Corr, Caus, Tells, Hears, BoxedOnly;
    var p := s.actors[a].workers[w];
    assert ActorOk(s, a) && TakenOk(s, a, p.j) && BusOk(s, p.j);
    if Full(s.bus[p.j]) && !Stored(p) { NotStored(s, a, p.j); }
  }

  lemma ReceiveMoves(s: State, a: nat, w: nat, j: nat)
    requires Enabled(s, Receive(a, w, j))
    ensures Moved(s, Apply(s, Receive(a, w, j)), a, w, j)
  {
    hide Id, Hears, ConfigOk;
  }

  lemma ReceiveOwn(s: State, a: nat, w: nat, j: nat)
    requires Enabled(s, Receive(a, w, j)) && TakenOk(s, a, j) && BoxedOnly(s, a, w, None)
    requires Full(s.bus[j]) ==> Id(s.bus[j]) !in s.actors[a].inbox
    ensures OwnOk(s, Apply(s, Receive(a, w, j)), a, w, j)
  {
    hide Id, Corr, Caus, Tells, Hears, ConfigOk;
  }

  lemma ReceiveKeeps(s: State, a: nat, w: nat, j: nat)
    requires Inv(s) && Enabled(s, Receive(a, w, j))
    ensures Inv(Apply(s, Receive(a, w, j)))
  {
    assert ActorOk(s, a) && TakenOk(s, a, j);
    Mover(s, a, w);
    if Full(s.bus[j]) { NotStored(s, a, j); }
    var s' := Apply(s, Receive(a, w, j));
    assert s'.bus == s.bus && s'.at == s.at;
    hide Moved, OwnOk, Inv, Id, Hears, TakenOk, BoxedOnly;
    ReceiveMoves(s, a, w, j);
    ReceiveOwn(s, a, w, j);
    QuietMove(s, s', a, w, j);
  }

  lemma SilentMoves(s: State, a: nat, w: nat, j: nat, why: Why, p: Phase)
    requires At(s, a, w) && j < |s.bus| && j in s.actors[a].taken && s.actors[a].taken[j] == w
    requires j !in s.actors[a].silent
    ensures Moved(s, Silent(s, a, w, j, why, p), a, w, j)
  {
    hide Id, ConfigOk;
  }

  lemma SilentOwn(s: State, a: nat, w: nat, why: Why, p: Phase)
    requires At(s, a, w) && (s.actors[a].workers[w].Held? || s.actors[a].workers[w].Working?)
    requires var q := s.actors[a].workers[w];
      && q.j < |s.bus| && WorkerOk(s, a, w) && TakenOk(s, a, q.j) && BoxedOnly(s, a, w, None)
      && (if q.Held? then why == Short && p == Idle && !Full(s.bus[q.j]) else p == Ending(q.j) && why != Short)
      && (why == NoTry ==> s.actors[a].cfg.retryMax < 0)
      && (why == Nothing ==> LastRun(s.actors[a], q.j) == Some(Output([])))
    ensures var j := s.actors[a].workers[w].j; OwnOk(s, Silent(s, a, w, j, why, p), a, w, j)
  {
    hide Id, Corr, Caus, Tells, Hears, ConfigOk;
  }

  /** A message left without a reply: dropped, or at the end of the retry loop. */
  lemma SilentKeeps(s: State, a: nat, w: nat, why: Why, p: Phase)
    requires Inv(s) && At(s, a, w) && (s.actors[a].workers[w].Held? || s.actors[a].workers[w].Working?)
    requires var q := s.actors[a].workers[w];
      && q.j < |s.bus|
      && (if q.Held? then why == Short && p == Idle && !Full(s.bus[q.j]) else p == Ending(q.j) && why != Short)
      && (why == NoTry ==> s.actors[a].cfg.retryMax < 0)
      && (why == Nothing ==> LastRun(s.actors[a], q.j) == Some(Output([])))
    ensures Inv(Silent(s, a, w, s.actors[a].workers[w].j, why, p))
  {
    Busy(s, a, w);
    var j := s.actors[a].workers[w].j;
    var s' := Silent(s, a, w, j, why, p);
    assert s'.bus == s.bus && s'.at == s.at;
    hide Moved, OwnOk, Inv, Id, Silent, LastRun, BoxedOnly;
    SilentMoves(s, a, w, j, why, p);
    SilentOwn(s, a, w, why, p);
    QuietMove(s, s', a, w, j);
  }

  lemma PutMoves(s: State, a: nat, w: nat, now: int)
    requires Enabled(s, Put(a, w, now))
    requires var j := s.actors[a].workers[w].j; j in s.actors[a].taken && s.actors[a].taken[j] == w
    ensures Moved(s, Apply(s, Put(a, w, now)), a, w, s.actors[a].workers[w].j)
  {
    hide Id, Refused, ConfigOk;
  }

  lemma PutOwn(s: State, a: nat, w: nat, now: int)
    requires Enabled(s, Put(a, w, now))
    requires WorkerOk(s, a, w) && TakenOk(s, a, s.actors[a].workers[w].j) && BoxedOnly(s, a, w, None)
    ensures OwnOk(s, Apply(s, Put(a, w, now)), a, w, s.actors[a].workers[w].j)
  {
    hide Id, Corr, Caus, Tells, Hears, Refused, ConfigOk;
  }

  lemma PutKeeps(s: State, a: nat, w: nat, now: int)
    requires Inv(s) && Enabled(s, Put(a, w, now))
    ensures Inv(Apply(s, Put(a, w, now)))
  {
    Busy(s, a, w);
    var s' := Apply(s, Put(a, w, now));
    assert s'.bus == s.bus && s'.at == s.at;
    hide Moved, OwnOk, Inv, Id, Apply, TakenOk, WorkerOk, BoxedOnly, Refused;
    PutMoves(s, a, w, now);
    PutOwn(s, a, w, now);
    QuietMove(s, s', a, w, s.actors[a].workers[w].j);
  }

  lemma SendMoves(s: State, a: nat, w: nat)
    requires Enabled(s, Send(a, w))
    requires var p := s.actors[a].workers[w];
      && p.j < |s.bus| && p.j in s.actors[a].taken && s.actors[a].taken[p.j] == w
      && Full(p.frame) && Id(p.frame) !in s.at && Id(p.frame) in s.born && s.born[Id(p.frame)] == Worker(a, w)
    ensures Moved(s, Apply(s, Send(a, w)), a, w, s.actors[a].workers[w].j)
  {
    hide Id, ConfigOk;
  }

  lemma SendOwn(s: State, a: nat, w: nat)
    requires Enabled(s, Send(a, w))
    requires var p := s.actors[a].workers[w];
      p.j < |s.bus| && WorkerOk(s, a, w) && TakenOk(s, a, p.j) && BoxedOnly(s, a, w, Some(Id(p.frame)))
    ensures var j, s' := s.actors[a].workers[w].j, Apply(s, Send(a, w)); j < |s'.bus| && OwnOk(s, s', a, w, j)
  {
    hide Id, Corr, Caus, Tells, Hears, ConfigOk;
  }

  lemma SendNew(s: State, a: nat, w: nat)
    requires Enabled(s, Send(a, w)) && WorkerOk(s, a, w)
    requires var p := s.actors[a].workers[w]; p.j < |s.bus| && BusOk(s, p.j)
    ensures NewOk(s, Apply(s, Send(a, w)), s.actors[a].workers[w].frame)
  {
    hide Id, Corr, Caus, Tells, ConfigOk;
  }

  lemma SendKeeps(s: State, a: nat, w: nat)
    requires Inv(s) && Enabled(s, Send(a, w))
    ensures Inv(Apply(s, Send(a, w)))
  {
    Busy(s, a, w);
    var s', p := Apply(s, Send(a, w)), s.actors[a].workers[w];
    hide Moved, OwnOk, NewOk, Inv, Id, Corr, Caus, Tells, TakenOk, BoxedOnly, BusOk, Apply;
    SendMoves(s, a, w);
    SendOwn(s, a, w);
    SendNew(s, a, w);
    LoudMove(s, s', a, w, p.j, p.frame);
  }

  lemma UnboxMoves(s: State, a: nat, w: nat)
    requires Enabled(s, Unbox(a, w)) && WorkerOk(s, a, w)
    ensures s.actors[a].workers[w].j < |s.bus|
    ensures Moved(s, Apply(s, Unbox(a, w)), a, w, s.actors[a].workers[w].j)
  {
    hide Id, Corr, Caus, Tells, ConfigOk;
  }

  lemma UnboxOwn(s: State, a: nat, w: nat)
    requires Enabled(s, Unbox(a, w))
    requires var p := s.actors[a].workers[w];
      p.j < |s.bus| && WorkerOk(s, a, w) && TakenOk(s, a, p.j) && BoxedOnly(s, a, w, Some(Id(p.frame)))
    ensures OwnOk(s, Apply(s, Unbox(a, w)), a, w, s.actors[a].workers[w].j)
  {
    hide Id, Corr, Caus, Tells, Hears, ConfigOk;
  }

  lemma UnboxKeeps(s: State, a: nat, w: nat)
    requires Inv(s) && Enabled(s, Unbox(a, w))
    ensures Inv(Apply(s, Unbox(a, w)))
  {
    Busy(s, a, w);
    var s' := Apply(s, Unbox(a, w));
    assert s'.bus == s.bus && s'.at == s.at;
    hide Moved, OwnOk, Inv, Id, TakenOk, WorkerOk, BoxedOnly, Apply;
    UnboxMoves(s, a, w);
    UnboxOwn(s, a, w);
    QuietMove(s, s', a, w, s.actors[a].workers[w].j);
  }

  lemma UnstoreMoves(s: State, a: nat, w: nat)
    requires Enabled(s, Unstore(a, w))
    requires var j := s.actors[a].workers[w].j; Full(s.bus[j]) && j in s.actors[a].taken && s.actors[a].taken[j] == w
    ensures Moved(s, Apply(s, Unstore(a, w)), a, w, s.actors[a].workers[w].j)
  {
    hide Id, ConfigOk;
  }

  lemma UnstoreOwn(s: State, a: nat, w: nat)
    requires Enabled(s, Unstore(a, w))
    requires WorkerOk(s, a, w) && TakenOk(s, a, s.actors[a].workers[w].j) && BoxedOnly(s, a, w, None)
    ensures OwnOk(s, Apply(s, Unstore(a, w)), a, w, s.actors[a].workers[w].j)
  {
    hide Id, Corr, Caus, Tells, Hears, ConfigOk;
  }

  lemma UnstoreKeeps(s: State, a: nat, w: nat)
    requires Inv(s) && Enabled(s, Unstore(a, w))
    ensures Inv(Apply(s, Unstore(a, w)))
  {
    Busy(s, a, w);
    var s' := Apply(s, Unstore(a, w));
    assert s'.bus == s.bus && s'.at == s.at && Full(s.bus[s.actors[a].workers[w].j]);
    hide Moved, OwnOk, Inv, Id, TakenOk, WorkerOk, BoxedOnly, Apply;
    UnstoreMoves(s, a, w);
    UnstoreOwn(s, a, w);
    QuietMove(s, s', a, w, s.actors[a].workers[w].j);
  }

  /** What a reader finds in a reply an actor makes. */
  lemma ReplyStamped(c: Config, to: Header, topic: Bytes, payload: Bytes, st: Stamp)
    requires Sized(to) && StampOk(st) && |payload| < Pow256(4) && 0 !in topic && Cut31(topic) == topic
    requires st.actor == c.actor
    ensures var f := Reply(to, topic, payload, st);
      && Full(f) && Id(f) == st.id && Caus(f) == to.id && Corr(f) == to.correlation
      && 0 in f && Text(f) == topic && PayloadIn(f) == payload && Stamped(c, st.ttl, f) && SignedAt(f, 112) == st.now
  {
    ReplyReads(to, topic, payload, st);
    ReplyText(to, topic, payload, st);
    ReplyBytes(to, topic, payload, st);
    hide Reply, ReplyHeader, Pow256, Text, Cut31, SignedAt, Quad, IdAt, PayloadIn, Cast, FitsSigned;
  }

  lemma CastIds(body: Bytes)
    requires Full(body)
    ensures Sized(Cast(body)) && Cast(body).id == Id(body) && Cast(body).correlation == Corr(body)
  {
    hide Signed, Unsigned, FromLe;
  }

  lemma RejectedReads(s: State, a: nat, j: nat, now: int, id: Bytes, report: Bytes, reason: Reason)
    requires a < |s.actors| && ConfigOk(s.actors[a].cfg) && j < |s.bus| && Full(s.bus[j])
    requires StampFits(s, id, now, report) && Says(report, s.bus[j], reason)
    ensures var f := Rejected(s, a, j, now, id, report);
      && Full(f) && Id(f) == id && Caus(f) == Id(s.bus[j]) && Corr(f) == Corr(s.bus[j])
      && IsRejection(s.actors[a].cfg, s.bus[j], reason, f) && SignedAt(f, 112) == now
  {
    var c, to, body := s.actors[a].cfg, Cast(s.bus[j]), s.bus[j];
    hide *;
    RejectedFrame(s, a, j, now, id, report);
    RejectedTopic();
    CastIds(body);
    ReplyStamped(c, to, REJECTED, report, Stamp(c.actor, id, 0, now));
    MakesRejection(c, body, reason, Rejected(s, a, j, now, id, report), report);
  }

  lemma RejectedTopic()
    ensures 0 !in REJECTED && Cut31(REJECTED) == REJECTED
  {
  }

  lemma MakesRejection(c: Config, body: Bytes, reason: Reason, frame: Bytes, report: Bytes)
    requires 0 in frame && Text(frame) == REJECTED && Stamped(c, 0, frame) && Full(body)
    requires PayloadIn(frame) == report && Says(report, body, reason)
    ensures IsRejection(c, body, reason, frame)
  {
    hide Text, Stamped, Full, PayloadIn, Says;
  }

  lemma AnswerFrame(s: State, a: nat, j: nat, now: int, id: Bytes, bytes: Bytes)
    requires a < |s.actors| && ConfigOk(s.actors[a].cfg) && j < |s.bus| && Full(s.bus[j])
    requires StampFits(s, id, now, []) && |bytes| < PAYLOAD_CAP
    ensures var c := s.actors[a].cfg;
      && StampOk(Stamp(c.actor, id, c.ttl, now)) && |bytes| < Pow256(4)
      && Answer(s, a, j, now, id, bytes) ==
           ResultReply(Cast(s.bus[j]), bytes, c.resultTopic, Stamp(c.actor, id, c.ttl, now))
  {
    Widths();
    hide ResultReply, Pow256, FitsSigned, Cast;
  }

  lemma RejectedFrame(s: State, a: nat, j: nat, now: int, id: Bytes, report: Bytes)
    requires a < |s.actors| && ConfigOk(s.actors[a].cfg) && j < |s.bus| && Full(s.bus[j])
    requires StampFits(s, id, now, report)
    ensures var c := s.actors[a].cfg;
      && StampOk(Stamp(c.actor, id, 0, now)) && |report| < Pow256(4)
      && Rejected(s, a, j, now, id, report) ==
           Reply(Cast(s.bus[j]), REJECTED, report, Stamp(c.actor, id, 0, now))
  {
    Widths();
    hide Reply, Pow256, Cast;
  }

  lemma AnswerReads(s: State, a: nat, j: nat, now: int, id: Bytes, bytes: Bytes)
    requires a < |s.actors| && ConfigOk(s.actors[a].cfg) && j < |s.bus| && Full(s.bus[j])
    requires StampFits(s, id, now, []) && 0 < |bytes| < PAYLOAD_CAP
    ensures var f := Answer(s, a, j, now, id, bytes);
      && Full(f) && Id(f) == id && Caus(f) == Id(s.bus[j]) && Corr(f) == Corr(s.bus[j])
      && Carries(s.actors[a].cfg, bytes, f) && SignedAt(f, 112) == now
  {
    var c, to := s.actors[a].cfg, Cast(s.bus[j]);
    var st, o := Stamp(c.actor, id, c.ttl, now), Divided(bytes, c.resultTopic);
    AnswerFrame(s, a, j, now, id, bytes);
    CastIds(s.bus[j]);
    CutTopic(bytes, c.resultTopic);
    hide Answer, Reply, ResultReply, Divided, Pow256, Text, Cut31, Stamped, Cast, Id, Corr, Caus, PayloadIn, IdAt;
    hide SignedAt, FitsSigned;
    ResultIs(to, bytes, c.resultTopic, st);
    ReplyStamped(c, to, Cut31(o.topic), o.payload, st);
  }

  lemma CutTopic(bytes: Bytes, fallback: Bytes)
    requires 0 !in fallback
    ensures var t := Cut31(Divided(bytes, fallback).topic); 0 !in t && Cut31(t) == t
  {
    var t := Divided(bytes, fallback).topic;
    DividedTopic(bytes, fallback);
    if IsName(t) { NameIsText(t); }
    hide Divided, IsName;
  }

  /** A frame in answer to message j. */
  predicate Answers(s: State, a: nat, j: nat, frame: Bytes)
    requires a < |s.actors| && j < |s.bus|
  {
    && Full(frame) && Fresh(s, Id(frame)) && Caus(frame) == Id(s.bus[j]) && Corr(frame) == Corr(s.bus[j])
    && Tells(s.actors[a].cfg, s.bus[j], LastRun(s.actors[a], j), frame)
  }

  lemma NotSent(s: State, k: Bytes)
    requires Inv(s) && k !in s.born
    ensures k !in s.at
  {
    assert IdOk(s, k);
  }

  /** Worker w has message j and may answer it with the frame. */
  predicate MayReply(s: State, a: nat, w: nat, j: nat, frame: Bytes) {
    && At(s, a, w) && j < |s.bus| && Full(s.bus[j]) && Answers(s, a, j, frame)
    && var q := s.actors[a].workers[w]; (q.Held? || q.Working?) && q.j == j
  }

  lemma SendNowMoves(s: State, a: nat, w: nat, j: nat, frame: Bytes, p: Phase)
    requires At(s, a, w) && j < |s.bus| && Answers(s, a, j, frame) && Id(frame) !in s.at
    requires j in s.actors[a].taken && s.actors[a].taken[j] == w && j !in s.actors[a].answers
    ensures Moved(s, SendNow(s, a, w, j, frame, p), a, w, j)
  {
    hide Id, Corr, Caus, Tells, ConfigOk;
  }

  lemma SendNowOwn(s: State, a: nat, w: nat, j: nat, frame: Bytes, p: Phase)
    requires MayReply(s, a, w, j, frame) && p == (if s.actors[a].workers[w].Held? then Idle else Ending(j))
    requires WorkerOk(s, a, w) && TakenOk(s, a, j) && BoxedOnly(s, a, w, None)
    requires !Stored(s.actors[a].workers[w]) ==> Id(s.bus[j]) !in s.actors[a].inbox
    ensures var s' := SendNow(s, a, w, j, frame, p); j < |s'.bus| && OwnOk(s, s', a, w, j)
  {
    hide Id, Corr, Caus, Tells, Hears, ConfigOk;
  }

  lemma SendNowNew(s: State, a: nat, w: nat, j: nat, frame: Bytes, p: Phase)
    requires MayReply(s, a, w, j, frame) && Id(frame) !in s.at && BusOk(s, j)
    ensures NewOk(s, SendNow(s, a, w, j, frame, p), frame)
  {
    hide Id, Corr, Caus, Tells, ConfigOk;
  }

  /** A rejection, from a worker that held the message or was at work on it. */
  lemma SendNowKeeps(s: State, a: nat, w: nat, j: nat, frame: Bytes, p: Phase)
    requires Inv(s) && MayReply(s, a, w, j, frame) && p == (if s.actors[a].workers[w].Held? then Idle else Ending(j))
    ensures Inv(SendNow(s, a, w, j, frame, p))
  {
    Busy(s, a, w);
    NotSent(s, Id(frame));
    var s' := SendNow(s, a, w, j, frame, p);
    hide Moved, OwnOk, NewOk, Inv, Id, Corr, Caus, Tells, TakenOk, BoxedOnly, BusOk, SendNow;
    SendNowMoves(s, a, w, j, frame, p);
    SendNowOwn(s, a, w, j, frame, p);
    SendNowNew(s, a, w, j, frame, p);
    LoudMove(s, s', a, w, j, frame);
  }

  lemma BoxMoves(s: State, a: nat, w: nat, j: nat, frame: Bytes)
    requires At(s, a, w) && j < |s.bus| && Answers(s, a, j, frame) && Id(frame) !in s.at
    requires j in s.actors[a].taken && s.actors[a].taken[j] == w && j !in s.actors[a].answers
    ensures Moved(s, Box(s, a, w, j, frame), a, w, j)
  {
    hide Id, Corr, Caus, Tells, ConfigOk;
  }

  lemma BoxOwn(s: State, a: nat, w: nat, j: nat, frame: Bytes)
    requires MayReply(s, a, w, j, frame) && s.actors[a].workers[w].Working? && Id(frame) !in s.at
    requires j in s.actors[a].ran && s.actors[a].ran[j].Output?
    requires WorkerOk(s, a, w) && TakenOk(s, a, j) && BoxedOnly(s, a, w, None)
    ensures OwnOk(s, Box(s, a, w, j, frame), a, w, j)
  {
    hide Id, Corr, Caus, Tells, Hears, ConfigOk;
  }

  /** A result put into the outbox. */
  lemma BoxKeeps(s: State, a: nat, w: nat, j: nat, frame: Bytes)
    requires Inv(s) && MayReply(s, a, w, j, frame) && s.actors[a].workers[w].Working?
    requires j in s.actors[a].ran && s.actors[a].ran[j].Output?
    ensures Inv(Box(s, a, w, j, frame))
  {
    Busy(s, a, w);
    NotSent(s, Id(frame));
    var s' := Box(s, a, w, j, frame);
    assert s'.bus == s.bus && s'.at == s.at;
    hide Moved, OwnOk, Inv, Id, Corr, Caus, Tells, TakenOk, BoxedOnly, Box;
    BoxMoves(s, a, w, j, frame);
    BoxOwn(s, a, w, j, frame);
    QuietMove(s, s', a, w, j);
  }

  /** Work that goes on: the handler has run, or is to run again. */
  function WorkOn(s: State, a: nat, w: nat, j: nat, attempt: nat, ran: map<nat, Run>): State
    requires a < |s.actors| && w < |s.actors[a].workers|
  {
    SetActor(s, a, Moving(s.actors[a], w, Working(j, attempt)).(ran := ran))
  }

  /** At most message j's report differs. */
  ghost predicate SameRuns(ran: map<nat, Run>, ran': map<nat, Run>, j: nat) {
    && (forall i :: i != j ==> (i in ran <==> i in ran'))
    && (forall i :: i != j && i in ran ==> ran'[i] == ran[i])
  }

  lemma WorkOnMoves(s: State, a: nat, w: nat, j: nat, attempt: nat, ran: map<nat, Run>)
    requires AtWork(s, a, w) && s.actors[a].workers[w].j == j && SameRuns(s.actors[a].ran, ran, j)
    requires j in s.actors[a].taken && s.actors[a].taken[j] == w
    ensures Moved(s, WorkOn(s, a, w, j, attempt, ran), a, w, j)
  {
    hide Id, ConfigOk;
  }

  lemma WorkOnOwn(s: State, a: nat, w: nat, j: nat, attempt: nat, ran: map<nat, Run>)
    requires AtWork(s, a, w) && s.actors[a].workers[w].j == j && attempt <= s.actors[a].cfg.retryMax
    requires WorkerOk(s, a, w) && TakenOk(s, a, j) && BoxedOnly(s, a, w, None)
    ensures OwnOk(s, WorkOn(s, a, w, j, attempt, ran), a, w, j)
  {
    hide Id, Corr, Caus, Tells, Hears, ConfigOk;
  }

  lemma WorkOnKeeps(s: State, a: nat, w: nat, attempt: nat, ran: map<nat, Run>)
    requires Inv(s) && AtWork(s, a, w) && attempt <= s.actors[a].cfg.retryMax
    requires SameRuns(s.actors[a].ran, ran, s.actors[a].workers[w].j)
    ensures Inv(WorkOn(s, a, w, s.actors[a].workers[w].j, attempt, ran))
  {
    Busy(s, a, w);
    var j := s.actors[a].workers[w].j;
    var s' := WorkOn(s, a, w, j, attempt, ran);
    assert s'.bus == s.bus && s'.at == s.at;
    hide Moved, OwnOk, Inv, Id, WorkOn, TakenOk, BoxedOnly, WorkerOk, SameRuns;
    WorkOnMoves(s, a, w, j, attempt, ran);
    WorkOnOwn(s, a, w, j, attempt, ran);
    QuietMove(s, s', a, w, j);
  }

  /** A failed run, to be tried again. */
  lemma AgainKeeps(s: State, a: nat, w: nat, attempt: nat)
    requires Inv(s) && AtWork(s, a, w) && attempt <= s.actors[a].cfg.retryMax
    ensures Inv(Move(s, a, w, Working(s.actors[a].workers[w].j, attempt)))
  {
    WorkOnKeeps(s, a, w, attempt, s.actors[a].ran);
    hide Inv, Full, ConfigOk;
  }

  /** A handler has run. */
  lemma NotedKeeps(s: State, a: nat, w: nat, run: Run)
    requires Inv(s) && AtWork(s, a, w) && s.actors[a].workers[w].attempt <= s.actors[a].cfg.retryMax
    ensures Inv(Noted(s, a, s.actors[a].workers[w].j, run))
  {
    var x, p := s.actors[a], s.actors[a].workers[w];
    assert x.workers[w := p] == x.workers;
    hide Inv, Full, ConfigOk;
    WorkOnKeeps(s, a, w, p.attempt, x.ran[p.j := run]);
  }

  lemma AnswerKeeps(s: State, a: nat, w: nat, bytes: Bytes, now: int, id: Bytes)
    requires Inv(s) && AtWork(s, a, w) && StampFits(s, id, now, []) && 0 < |bytes| < PAYLOAD_CAP
    requires LastRun(s.actors[a], s.actors[a].workers[w].j) == Some(Output(bytes))
    ensures var j := s.actors[a].workers[w].j; Inv(Box(s, a, w, j, Answer(s, a, j, now, id, bytes)))
  {
    hide Inv, Id, Corr, Caus, Answer, Box, Carries, IsRejection, IsEarly;
    var j := s.actors[a].workers[w].j;
    AnswerReads(s, a, j, now, id, bytes);
    BoxKeeps(s, a, w, j, Answer(s, a, j, now, id, bytes));
  }

  /** The reason a rejection has to give for a message whose handler reported this last, if it ran. */
  predicate RightReason(body: Bytes, run: Option<Run>, reason: Reason) {
    match run
    case None =>
      (reason == TtlExpired && Full(body) && Cast(body).ttl != 0)
      || (reason == PayloadCapExceeded && |body| - HEADER > PAYLOAD_CAP)
    case Some(Output(_)) => false
    case Some(TooBig) => reason == ResultCapExceeded
    case Some(Failed) => reason == MaxRetriesExceeded
  }

  lemma RightTells(c: Config, body: Bytes, run: Option<Run>, reason: Reason, frame: Bytes)
    requires IsRejection(c, body, reason, frame) && RightReason(body, run, reason)
    ensures Tells(c, body, run, frame)
  {
    hide IsRejection, Carries;
  }

  lemma RejectedKeeps(s: State, a: nat, w: nat, now: int, id: Bytes, report: Bytes, reason: Reason)
    requires Inv(s) && (HoldsFull(s, a, w) || AtWork(s, a, w)) && StampFits(s, id, now, report)
    requires var j := s.actors[a].workers[w].j;
      Says(report, s.bus[j], reason) && RightReason(s.bus[j], LastRun(s.actors[a], j), reason)
    ensures var q := s.actors[a].workers[w];
      Inv(SendNow(s, a, w, q.j, Rejected(s, a, q.j, now, id, report), if q.Held? then Idle else Ending(q.j)))
  {
    hide Inv, Id, Corr, Caus, Rejected, SendNow, IsRejection, Tells, Says, RightReason;
    var q := s.actors[a].workers[w];
    RejectedReads(s, a, q.j, now, id, report, reason);
    RightTells(s.actors[a].cfg, s.bus[q.j], LastRun(s.actors[a], q.j), reason, Rejected(s, a, q.j, now, id, report));
    SendNowKeeps(s, a, w, q.j, Rejected(s, a, q.j, now, id, report), if q.Held? then Idle else Ending(q.j));
  }

  lemma EarlyKeeps(s: State, a: nat, w: nat, now: int, id: Bytes, report: Bytes)
    requires Inv(s) && Enabled(s, RejectEarly(a, w, now, id, report))
    ensures var j := s.actors[a].workers[w].j;
      Inv(SendNow(s, a, w, j, Rejected(s, a, j, now, id, report), Idle))
  {
    Busy(s, a, w);
    var body := s.bus[s.actors[a].workers[w].j];
    assert RightReason(body, None, EarlyReason(body, now));
    hide Inv, Rejected, SendNow, Says, RightReason;
    RejectedKeeps(s, a, w, now, id, report, EarlyReason(body, now));
  }

  lemma RunKeeps(s: State, a: nat, w: nat, run: Run, now: int, id: Bytes, report: Bytes)
    requires Inv(s) && Enabled(s, RunHandler(a, w, run, now, id, report))
    ensures Inv(Ran(s, a, w, run, now, id, report))
  {
    var p := s.actors[a].workers[w];
    var next := Decide(run, p.attempt, s.actors[a].cfg.retryMax);
    RanIs(s, a, w, run, now, id, report);
    NotedKeeps(s, a, w, run);
    var s1 := Noted(s, a, p.j, run);
    assert p.j < |s1.bus|;
    hide *;
    match next
    case Publish(bytes) => AnswerKeeps(s1, a, w, bytes, now, id);
    case Finish => SilentKeeps(s1, a, w, Nothing, Ending(p.j));
    case Reject(reason) => RejectedKeeps(s1, a, w, now, id, report, reason);
    case Again => AgainKeeps(s1, a, w, p.attempt + 1);
  }

  /** The outcomes of a handler run, with what each needs. */
  lemma RanIs(s: State, a: nat, w: nat, run: Run, now: int, id: Bytes, report: Bytes)
    requires Enabled(s, RunHandler(a, w, run, now, id, report))
    ensures AtWork(s, a, w) && At(s, a, w) && s.actors[a].workers[w].Working? 
    ensures s.actors[a].workers[w].attempt <= s.actors[a].cfg.retryMax
    ensures var p := s.actors[a].workers[w];
      var s1, s' := Noted(s, a, p.j, run), Ran(s, a, w, run, now, id, report);
      && AtWork(s1, a, w) && At(s1, a, w) && s1.actors[a].workers[w] == p
      && StampFits(s1, id, now, report) && StampFits(s1, id, now, [])
      && match Decide(run, p.attempt, s.actors[a].cfg.retryMax)
         case Publish(bytes) =>
           && 0 < |bytes| < PAYLOAD_CAP && LastRun(s1.actors[a], p.j) == Some(Output(bytes))
           && s' == Box(s1, a, w, p.j, Answer(s1, a, p.j, now, id, bytes))
         case Finish =>
           && LastRun(s1.actors[a], p.j) == Some(Output([]))
           && s' == Silent(s1, a, w, p.j, Nothing, Ending(p.j))
         case Reject(reason) =>
           && Says(report, s1.bus[p.j], reason) && RightReason(s1.bus[p.j], LastRun(s1.actors[a], p.j), reason)
           && s' == SendNow(s1, a, w, p.j, Rejected(s1, a, p.j, now, id, report), Ending(p.j))
         case Again =>
           && p.attempt + 1 <= s1.actors[a].cfg.retryMax && s' == Move(s1, a, w, Working(p.j, p.attempt + 1))
  {
    hide Box, Answer, Moving, Silent, SendNow, Rejected, Says;
  }

  lemma NoTryReason(s: State, a: nat, w: nat)
    requires Inv(s) && Enabled(s, NoAttempt(a, w))
    ensures s.actors[a].cfg.retryMax < 0
  {
    Busy(s, a, w);
  }

  /** Every step keeps the invariant. */
  lemma StepKeeps(s: State, t: Step)
    requires Inv(s) && Enabled(s, t)
    ensures Inv(Apply(s, t))
  {
    hide Inv, Id, Corr, Caus, Rejected, Ran, Refused, Hears;
    match t
    case Inject(body) => InjectKeeps(s, body);
    case Receive(a, w, j) => ReceiveKeeps(s, a, w, j);
    case Drop(a, w) => SilentKeeps(s, a, w, Short, Idle);
    case RejectEarly(a, w, now, id, report) =>
      EarlyKeeps(s, a, w, now, id, report);
    case Put(a, w, now) => PutKeeps(s, a, w, now);
    case NoAttempt(a, w) =>
      Busy(s, a, w);
      NoTryReason(s, a, w);
      SilentKeeps(s, a, w, NoTry, Ending(s.actors[a].workers[w].j));
    case RunHandler(a, w, run, now, id, report) => RunKeeps(s, a, w, run, now, id, report);
    case Send(a, w) => SendKeeps(s, a, w);
    case Unbox(a, w) => UnboxKeeps(s, a, w);
    case Unstore(a, w) => UnstoreKeeps(s, a, w);
  }

  lemma InitialInv(s: State)
    requires Initial(s)
    ensures Inv(s)
  {
    forall a | 0 <= a < |s.actors| ensures ActorOk(s, a) {
      assert StartsEmpty(s.actors[a]);
    }
  }

  /** The invariant holds in every state of every run. */
  lemma {:induction false} EveryRun(states: seq<State>, steps: seq<Step>, n: nat)
    requires IsRun(states, steps) && n <= |steps|
    ensures Inv(states[n])
  {
    hide Inv, Enabled, Apply;
    if n == 0 {
      InitialInv(states[0]);
    } else {
      EveryRun(states, steps, n - 1);
      StepKeeps(states[n - 1], steps[n - 1]);
    }
  }

  // ---- inbox and outbox, at every point of every run ----

  /** Worker w of actor a has stored message j and not finished with it. */
  predicate HasStored(s: State, a: nat, w: int, j: int)
    requires a < |s.actors|
  {
    && 0 <= w < |s.actors[a].workers| && 0 <= j < |s.bus|
    && Stored(s.actors[a].workers[w]) && s.actors[a].workers[w].j == j
  }

  /** Worker w of actor a has a result in the outbox under key k. */
  predicate HasBoxed(s: State, a: nat, w: int, k: Bytes)
    requires a < |s.actors|
  {
    && 0 <= w < |s.actors[a].workers|
    && var p := s.actors[a].workers[w];
    && (p.Sending? || p.Sent?) && Id(p.frame) == k
    && k in s.actors[a].outbox && s.actors[a].outbox[k] == p.frame
  }

  /** Worker v has sent message j and worker w, which heard it, has stored it. */
  predicate HeardItself(s: State, a: nat, v: int, w: int, j: int)
    requires a < |s.actors|
  {
    && v != w && HasStored(s, a, w, j) && Hears(s.actors[a].cfg, s.bus[j])
    && 0 <= v < |s.actors[a].workers| && s.actors[a].workers[v].Sent? && s.actors[a].workers[v].frame == s.bus[j]
  }

  /** The inbox holds exactly the messages between their put and their delete, whole and unchanged,
      and never more of them than there are workers. */
  lemma InboxExactly(states: seq<State>, steps: seq<Step>, n: nat, a: nat)
    requires IsRun(states, steps) && n <= |steps| && a < |states[n].actors|
    ensures var s := states[n];
      var x := s.actors[a];
      && (forall w, j :: HasStored(s, a, w, j) ==>
            Full(s.bus[j]) && Id(s.bus[j]) in x.inbox && x.inbox[Id(s.bus[j])] == s.bus[j])
      && (forall k :: k in x.inbox ==> exists w, j :: HasStored(s, a, w, j) && Id(s.bus[j]) == k)
      && (forall v, w, i, j :: HasStored(s, a, v, i) && HasStored(s, a, w, j) && v != w ==>
            Id(s.bus[i]) != Id(s.bus[j]))
      && |x.inbox| <= |x.workers|
  {
    EveryRun(states, steps, n);
    var s := states[n];
    assert ActorOk(s, a);
    hide IsRun, Id, Corr, Caus, Tells;
    forall w, j | HasStored(s, a, w, j)
      ensures Full(s.bus[j]) && Id(s.bus[j]) in s.actors[a].inbox && s.actors[a].inbox[Id(s.bus[j])] == s.bus[j]
    {
      assert WorkerOk(s, a, w);
    }
    forall k | k in s.actors[a].inbox ensures exists w, j :: HasStored(s, a, w, j) && Id(s.bus[j]) == k {
      assert InboxOk(s, a, k) && IdOk(s, k);
      assert HasStored(s, a, s.actors[a].taken[s.at[k]], s.at[k]);
    }
    forall v, w, i, j | HasStored(s, a, v, i) && HasStored(s, a, w, j) && v != w
      ensures Id(s.bus[i]) != Id(s.bus[j])
    {
      assert WorkerOk(s, a, v) && WorkerOk(s, a, w) && BusOk(s, i) && BusOk(s, j);
    }
    InboxSize(s, a);
  }

  lemma InboxSize(s: State, a: nat)
    requires Inv(s) && a < |s.actors|
    ensures |s.actors[a].inbox| <= |s.actors[a].workers|
  {
    var x := s.actors[a];
    assert ActorOk(s, a);
    hide Id, Corr, Caus, Tells;
    assert forall k :: k in x.inbox ==> InboxOk(s, a, k) && IdOk(s, k);
    var holder := map k | k in x.inbox :: x.taken[s.at[k]];
    Pigeons(x.inbox.Keys, holder, |x.workers|);
    assert |x.inbox.Keys| == |x.inbox|;
  }

  /** Each worker has at most one result in the outbox. */
  lemma OutboxSize(states: seq<State>, steps: seq<Step>, n: nat, a: nat)
    requires IsRun(states, steps) && n <= |steps| && a < |states[n].actors|
    ensures var x := states[n].actors[a];
      |x.outbox| <= |x.workers| && forall k :: k in x.outbox ==> exists w :: HasBoxed(states[n], a, w, k)
  {
    EveryRun(states, steps, n);
    var s := states[n];
    var x := s.actors[a];
    assert ActorOk(s, a);
    hide IsRun, Id, Corr, Caus, Tells;
    assert forall k :: k in x.outbox ==> OutboxOk(s, a, k);
    var author := map k | k in x.outbox :: s.born[k].worker;
    Pigeons(x.outbox.Keys, author, |x.workers|);
    assert |x.outbox.Keys| == |x.outbox|;
    forall k | k in x.outbox ensures exists w :: HasBoxed(s, a, w, k) {
      var w := s.born[k].worker;
      assert WorkerOk(s, a, w);
      assert HasBoxed(s, a, w, k);
    }
  }

  /** Keys that go to different places below n are at most n. */
  lemma {:induction false} Pigeons<T>(ks: set<T>, f: map<T, nat>, n: nat)
    requires forall k :: k in ks ==> k in f && f[k] < n
    requires forall k, l :: k in ks && l in ks && f[k] == f[l] ==> k == l
    ensures |ks| <= n
  {
    if n == 0 {
      assert ks == {};
    } else if k :| k in ks && f[k] == n - 1 {
      Pigeons(ks - {k}, f, n - 1);
    } else {
      Pigeons(ks, f, n - 1);
    }
  }

  /** An id is in an actor's inbox and outbox at once exactly when the result it names has been sent
      but not yet taken out of the outbox, and another worker has stored it already: the actor hears
      itself. */
  lemma OverlapExactly(states: seq<State>, steps: seq<Step>, n: nat, a: nat, k: Bytes)
    requires IsRun(states, steps) && n <= |steps| && a < |states[n].actors|
    ensures var s := states[n];
      var x := s.actors[a];
      k in x.inbox && k in x.outbox <==> exists v, w, j :: HeardItself(s, a, v, w, j) && Id(s.bus[j]) == k
  {
    EveryRun(states, steps, n);
    var s := states[n];
    hide IsRun, Inv, Id, Hears, HeardItself;
    if k in s.actors[a].inbox && k in s.actors[a].outbox { OverlapHeard(s, a, k); }
    if v, w, j :| HeardItself(s, a, v, w, j) && Id(s.bus[j]) == k { HeardOverlaps(s, a, v, w, j); }
  }

  lemma OverlapHeard(s: State, a: nat, k: Bytes)
    requires Inv(s) && a < |s.actors| && k in s.actors[a].inbox && k in s.actors[a].outbox
    ensures exists v, w, j :: HeardItself(s, a, v, w, j) && Id(s.bus[j]) == k
  {
    var x := s.actors[a];
    assert ActorOk(s, a) && InboxOk(s, a, k) && OutboxOk(s, a, k) && IdOk(s, k);
    var v, w, j := s.born[k].worker, x.taken[s.at[k]], s.at[k];
    assert WorkerOk(s, a, v) && TakenOk(s, a, j) && WorkerOk(s, a, w) && BusOk(s, j);
    hide Inv, ActorOk, Id, Corr, Caus, Tells, Hears, CauseOk, AnswerOk, TrueReason;
    OwnCause(s, a, v);
    assert HeardItself(s, a, v, w, j);
  }

  lemma HeardOverlaps(s: State, a: nat, v: int, w: int, j: int)
    requires Inv(s) && a < |s.actors| && HeardItself(s, a, v, w, j)
    ensures Id(s.bus[j]) in s.actors[a].inbox && Id(s.bus[j]) in s.actors[a].outbox
  {
    assert ActorOk(s, a) && WorkerOk(s, a, v) && WorkerOk(s, a, w);
    hide Inv, ActorOk, Id, Corr, Caus, Tells, Hears;
  }

  /** The message a worker has just answered is not its answer. */
  lemma OwnCause(s: State, a: nat, v: nat)
    requires Inv(s) && At(s, a, v) && s.actors[a].workers[v].Sent?
    ensures var p := s.actors[a].workers[v]; p.j < |s.bus| && s.bus[p.j] != p.frame
  {
    assert ActorOk(s, a) && WorkerOk(s, a, v);
    var p := s.actors[a].workers[v];
    hide Id, Corr, Caus, Tells;
    assert BusOk(s, p.j) && BusOk(s, s.at[Id(p.frame)]);
  }

  /** An actor that can come to hear its own results: it has a second worker to hear them, it runs
      handlers at all, and it listens to the topic it publishes on or to a name a handler may print. */
  ghost predicate CanHearItself(x: Actor) {
    && |x.workers| >= 2 && x.cfg.retryMax >= 0
    && exists t :: t in Listed(x.cfg.topics) && (t == Cut31(x.cfg.resultTopic) || IsName(t))
  }

  predicate SameConfig(x: Actor, x': Actor) {
    x'.cfg == x.cfg && |x'.workers| == |x.workers|
  }

  /** Nothing reconfigures an actor, and a step sends at most one message. */
  ghost predicate Local(s: State, s': State) {
    && |s'.actors| == |s.actors| && s.bus <= s'.bus && |s'.bus| <= |s.bus| + 1
    && forall a :: 0 <= a < |s.actors| ==> SameConfig(s.actors[a], s'.actors[a])
  }

  /** What is sent from within the mesh is known as its worker's. */
  ghost predicate SendsOwn(s: State, s': State) {
    forall i :: |s.bus| <= i < |s'.bus| && Full(s'.bus[i]) ==>
      Id(s'.bus[i]) in s'.born && s'.born[Id(s'.bus[i])].Worker?
  }

  lemma QuietLocal(s: State, a: nat, x: Actor)
    requires a < |s.actors| && SameConfig(s.actors[a], x)
    ensures Local(s, SetActor(s, a, x)) && SendsOwn(s, SetActor(s, a, x))
  {
  }

  lemma SendNowLocal(s: State, a: nat, w: nat, j: nat, frame: Bytes, p: Phase)
    requires a < |s.actors| && w < |s.actors[a].workers|
    ensures Local(s, SendNow(s, a, w, j, frame, p)) && SendsOwn(s, SendNow(s, a, w, j, frame, p))
  {
    hide Id, Full;
  }

  lemma BoxLocal(s: State, a: nat, w: nat, j: nat, frame: Bytes)
    requires a < |s.actors| && w < |s.actors[a].workers|
    ensures Local(s, Box(s, a, w, j, frame)) && SendsOwn(s, Box(s, a, w, j, frame))
  {
    hide Id, Full;
  }

  lemma SilentLocal(s: State, a: nat, w: nat, j: nat, why: Why, p: Phase)
    requires a < |s.actors| && w < |s.actors[a].workers|
    ensures Local(s, Silent(s, a, w, j, why, p)) && SendsOwn(s, Silent(s, a, w, j, why, p))
  {
    var x := s.actors[a];
    QuietLocal(s, a, Moving(x, w, p).(silent := x.silent[j := why]));
  }

  lemma AgainLocal(s: State, a: nat, w: nat, p: Phase)
    requires a < |s.actors| && w < |s.actors[a].workers|
    ensures Local(s, Move(s, a, w, p)) && SendsOwn(s, Move(s, a, w, p))
  {
    QuietLocal(s, a, Moving(s.actors[a], w, p));
  }

  lemma NotedLocal(s: State, a: nat, j: nat, run: Run, s': State)
    requires a < |s.actors| && Local(Noted(s, a, j, run), s') && SendsOwn(Noted(s, a, j, run), s')
    ensures Local(s, s') && SendsOwn(s, s')
  {
    var x := s.actors[a];
    QuietLocal(s, a, x.(ran := x.ran[j := run]));
  }

  lemma RunLocal(s: State, a: nat, w: nat, run: Run, now: int, id: Bytes, report: Bytes)
    requires Enabled(s, RunHandler(a, w, run, now, id, report))
    ensures var s' := Ran(s, a, w, run, now, id, report); Local(s, s') && SendsOwn(s, s')
  {
    RanIs(s, a, w, run, now, id, report);
    var p := s.actors[a].workers[w];
    var s1 := Noted(s, a, p.j, run);
    var next := Decide(run, p.attempt, s.actors[a].cfg.retryMax);
    assert a < |s1.actors| && w < |s1.actors[a].workers|;
    hide *;
    match next {
      case Publish(bytes) => BoxLocal(s1, a, w, p.j, Answer(s1, a, p.j, now, id, bytes));
      case Finish => SilentLocal(s1, a, w, p.j, Nothing, Ending(p.j));
      case Reject(_) => SendNowLocal(s1, a, w, p.j, Rejected(s1, a, p.j, now, id, report), Ending(p.j));
      case Again => AgainLocal(s1, a, w, Working(p.j, p.attempt + 1));
    }
    NotedLocal(s, a, p.j, run, Ran(s, a, w, run, now, id, report));
  }

  lemma SendLocal(s: State, a: nat, w: nat)
    requires Inv(s) && Enabled(s, Send(a, w))
    ensures var s' := Apply(s, Send(a, w)); Local(s, s') && SendsOwn(s, s')
  {
    Mover(s, a, w);
    hide Inv, Id, Corr, Caus, Tells, ConfigOk, Full;
  }

  lemma StepLocal(s: State, t: Step)
    requires Inv(s) && Enabled(s, t)
    ensures Local(s, Apply(s, t)) && (!t.Inject? ==> SendsOwn(s, Apply(s, t)))
  {
    hide Inv, Id, Hears, Refused, ConfigOk, Rejected, Full, Ran, Local, SendsOwn;
    match t
    case Inject(body) => InjectLocal(s, body);
    case RunHandler(a, w, run, now, id, report) => RunLocal(s, a, w, run, now, id, report);
    case Send(a, w) => SendLocal(s, a, w);
    case RejectEarly(a, w, now, id, report) =>
      var j := s.actors[a].workers[w].j;
      SendNowLocal(s, a, w, j, Rejected(s, a, j, now, id, report), Idle);
    case Receive(a, w, j) => QuietLocal(s, a, Apply(s, t).actors[a]);
    case Drop(a, w) => SilentLocal(s, a, w, s.actors[a].workers[w].j, Short, Idle);
    case Put(a, w, _) => QuietLocal(s, a, Apply(s, t).actors[a]);
    case NoAttempt(a, w) => SilentLocal(s, a, w, s.actors[a].workers[w].j, NoTry, Ending(s.actors[a].workers[w].j));
    case Unbox(a, w) => QuietLocal(s, a, Apply(s, t).actors[a]);
    case Unstore(a, w) => QuietLocal(s, a, Apply(s, t).actors[a]);
  }

  lemma InjectLocal(s: State, body: Bytes)
    requires Enabled(s, Inject(body))
    ensures Local(s, Apply(s, Inject(body)))
  {
    hide Id, Full;
  }

  /** Reports and receipts as they were. */
  predicate SameLog(x: Actor, x': Actor) {
    x'.ran == x.ran && forall j :: j in x.taken ==> j in x'.taken && x'.taken[j] == x.taken[j]
  }

  ghost predicate SameLogs(s: State, s': State) {
    |s'.actors| == |s.actors| && forall a :: 0 <= a < |s.actors| ==> SameLog(s.actors[a], s'.actors[a])
  }

  lemma QuietLogs(s: State, a: nat, x: Actor)
    requires a < |s.actors| && SameLog(s.actors[a], x)
    ensures SameLogs(s, SetActor(s, a, x))
  {
  }

  lemma BoxLogs(s: State, a: nat, w: nat, j: nat, frame: Bytes)
    requires a < |s.actors| && w < |s.actors[a].workers|
    ensures SameLogs(s, Box(s, a, w, j, frame))
  {
    hide Id;
  }

  lemma SilentLogs(s: State, a: nat, w: nat, j: nat, why: Why, p: Phase)
    requires a < |s.actors| && w < |s.actors[a].workers|
    ensures SameLogs(s, Silent(s, a, w, j, why, p))
  {
  }

  lemma SendNowLogs(s: State, a: nat, w: nat, j: nat, frame: Bytes, p: Phase)
    requires a < |s.actors| && w < |s.actors[a].workers|
    ensures SameLogs(s, SendNow(s, a, w, j, frame, p))
  {
    hide Id, Full;
  }

  lemma MoveLogs(s: State, a: nat, w: nat, p: Phase)
    requires a < |s.actors| && w < |s.actors[a].workers|
    ensures SameLogs(s, Move(s, a, w, p))
  {
  }

  /** A handler run changes the reports by its own and nothing else. */
  lemma RunLogs(s: State, a: nat, w: nat, run: Run, now: int, id: Bytes, report: Bytes)
    requires Enabled(s, RunHandler(a, w, run, now, id, report))
    ensures SameLogs(Noted(s, a, s.actors[a].workers[w].j, run), Ran(s, a, w, run, now, id, report))
  {
    RanIs(s, a, w, run, now, id, report);
    var p := s.actors[a].workers[w];
    var s1 := Noted(s, a, p.j, run);
    var next := Decide(run, p.attempt, s.actors[a].cfg.retryMax);
    assert a < |s1.actors| && w < |s1.actors[a].workers|;
    hide *;
    match next
    case Publish(bytes) => BoxLogs(s1, a, w, p.j, Answer(s1, a, p.j, now, id, bytes));
    case Finish => SilentLogs(s1, a, w, p.j, Nothing, Ending(p.j));
    case Reject(_) => SendNowLogs(s1, a, w, p.j, Rejected(s1, a, p.j, now, id, report), Ending(p.j));
    case Again => MoveLogs(s1, a, w, Working(p.j, p.attempt + 1));
  }

  lemma OtherLogs(s: State, t: Step)
    requires Enabled(s, t) && !t.RunHandler?
    ensures SameLogs(s, Apply(s, t))
  {
    hide Id, Hears, Refused, ConfigOk, Rejected, Full, SameLogs;
    match t
    case Inject(body) => InjectLogs(s, body);
    case Receive(a, w, j) => QuietLogs(s, a, Apply(s, t).actors[a]);
    case Drop(a, w) => SilentLogs(s, a, w, s.actors[a].workers[w].j, Short, Idle);
    case RejectEarly(a, w, now, id, report) =>
      var j := s.actors[a].workers[w].j;
      SendNowLogs(s, a, w, j, Rejected(s, a, j, now, id, report), Idle);
    case Put(a, w, _) => QuietLogs(s, a, Apply(s, t).actors[a]);
    case NoAttempt(a, w) => SilentLogs(s, a, w, s.actors[a].workers[w].j, NoTry, Ending(s.actors[a].workers[w].j));
    case Send(a, w) => SendLogs(s, a, w);
    case Unbox(a, w) => QuietLogs(s, a, Apply(s, t).actors[a]);
    case Unstore(a, w) => QuietLogs(s, a, Apply(s, t).actors[a]);
  }

  lemma InjectLogs(s: State, body: Bytes)
    requires Enabled(s, Inject(body))
    ensures SameLogs(s, Apply(s, Inject(body)))
  {
    hide Id, Full;
  }

  lemma SendLogs(s: State, a: nat, w: nat)
    requires Enabled(s, Send(a, w))
    ensures SameLogs(s, Apply(s, Send(a, w)))
  {
    hide Id, Full, ConfigOk;
  }

  lemma ApplyRun(s: State, a: nat, w: nat, run: Run, now: int, id: Bytes, report: Bytes)
    requires Enabled(s, RunHandler(a, w, run, now, id, report))
    ensures Apply(s, RunHandler(a, w, run, now, id, report)) == Ran(s, a, w, run, now, id, report)
  {
    hide Ran;
  }

  lemma {:induction false} ActorsStay(states: seq<State>, steps: seq<Step>, n: nat)
    requires IsRun(states, steps) && n <= |steps|
    ensures |states[n].actors| == |states[0].actors|
  {
    hide Inv, Enabled, Apply, Initial;
    if n > 0 {
      ActorsStay(states, steps, n - 1);
      EveryRun(states, steps, n - 1);
      StepLocal(states[n - 1], steps[n - 1]);
    }
  }

  lemma {:induction false} ConfigStays(states: seq<State>, steps: seq<Step>, n: nat, a: nat)
    requires IsRun(states, steps) && n <= |steps| && a < |states[0].actors|
    ensures |states[n].actors| == |states[0].actors| && SameConfig(states[0].actors[a], states[n].actors[a])
  {
    hide Inv, Enabled, Apply, Initial;
    if n > 0 {
      ConfigStays(states, steps, n - 1, a);
      EveryRun(states, steps, n - 1);
      StepLocal(states[n - 1], steps[n - 1]);
    }
  }

  /** Only such an actor ever has one id in its inbox and its outbox. */
  lemma OverlapNeeds(states: seq<State>, steps: seq<Step>, n: nat, a: nat, k: Bytes)
    requires IsRun(states, steps) && n <= |steps| && a < |states[0].actors| && a < |states[n].actors|
    requires k in states[n].actors[a].inbox && k in states[n].actors[a].outbox
    ensures CanHearItself(states[0].actors[a])
  {
    EveryRun(states, steps, n);
    ConfigStays(states, steps, n, a);
    OverlapExactly(states, steps, n, a, k);
    var s := states[n];
    hide IsRun, Inv, HeardItself, Id, Listed, IsName, Cut31;
    var v, w, j :| HeardItself(s, a, v, w, j) && Id(s.bus[j]) == k;
    HearerConfig(s, a, v, w, j);
  }

  lemma HearerConfig(s: State, a: nat, v: nat, w: nat, j: nat)
    requires Inv(s) && a < |s.actors| && HeardItself(s, a, v, w, j)
    ensures CanHearItself(s.actors[a])
  {
    assert ActorOk(s, a) && WorkerOk(s, a, v) && TakenOk(s, a, s.actors[a].workers[v].j);
    hide Inv, ActorOk, Id, Corr, Caus, Carries, Hears, AnswerOk, TrueReason, Listed, IsName, Cut31;
    HeardTopic(s.actors[a].cfg, s.actors[a].ran[s.actors[a].workers[v].j].bytes, s.bus[j]);
  }

  /** A result an actor hears is on one of its own topics. */
  lemma HeardTopic(c: Config, output: Bytes, frame: Bytes)
    requires ConfigOk(c) && Carries(c, output, frame) && Hears(c, frame)
    ensures exists t :: t in Listed(c.topics) && (t == Cut31(c.resultTopic) || IsName(t))
  {
    DeliveredExactly(c.topics, frame);
    DividedTopic(output, c.resultTopic);
    if IsName(Divided(output, c.resultTopic).topic) { NameIsText(Divided(output, c.resultTopic).topic); }
    hide Divided, Text, Listed, Cut31, IsName, PayloadIn;
  }

  /** Any other actor keeps the two apart at every point of every run, by its configuration alone. */
  lemma DisjointUnlessHeard(states: seq<State>, steps: seq<Step>, n: nat, a: nat)
    requires IsRun(states, steps) && n <= |steps| && a < |states[0].actors| && !CanHearItself(states[0].actors[a])
    ensures a < |states[n].actors| && states[n].actors[a].inbox.Keys !! states[n].actors[a].outbox.Keys
  {
    ConfigStays(states, steps, n, a);
    hide IsRun, CanHearItself;
    forall k | k in states[n].actors[a].inbox ensures k !in states[n].actors[a].outbox {
      if k in states[n].actors[a].outbox { OverlapNeeds(states, steps, n, a, k); }
    }
  }

  /** With one worker, the default, the inbox holds at most the message in hand and shares no id with
      the outbox. */
  lemma SingleWorker(states: seq<State>, steps: seq<Step>, n: nat, a: nat)
    requires IsRun(states, steps) && n <= |steps| && a < |states[n].actors| && |states[n].actors[a].workers| == 1
    ensures var x := states[n].actors[a]; |x.inbox| <= 1 && |x.outbox| <= 1 && x.inbox.Keys !! x.outbox.Keys
  {
    InboxExactly(states, steps, n, a);
    OutboxSize(states, steps, n, a);
    var x := states[n].actors[a];
    hide IsRun, Id, Hears;
    forall k | k in x.inbox ensures k !in x.outbox {
      OverlapExactly(states, steps, n, a, k);
    }
  }

  // ---- causes ----

  /** No two messages on the bus have the same id. */
  lemma IdsDistinct(states: seq<State>, steps: seq<Step>, n: nat, i: nat, j: nat)
    requires IsRun(states, steps) && n <= |steps| && i < j < |states[n].bus|
    requires Full(states[n].bus[i]) && Full(states[n].bus[j])
    ensures Id(states[n].bus[i]) != Id(states[n].bus[j])
  {
    EveryRun(states, steps, n);
    assert BusOk(states[n], i) && BusOk(states[n], j);
  }

  /** Message i was made by a worker of actor a. */
  predicate MadeBy(s: State, i: nat, a: nat) {
    && i < |s.bus| && Full(s.bus[i]) && Id(s.bus[i]) in s.born
    && s.born[Id(s.bus[i])].Worker? && s.born[Id(s.bus[i])].actor == a
  }

  /** An actor answers a message at most once, by one result or one rejection, and only a message it
      was subscribed to. */
  lemma OneAnswer(states: seq<State>, steps: seq<Step>, n: nat, a: nat, i: nat, i': nat)
    requires IsRun(states, steps) && n <= |steps| && MadeBy(states[n], i, a)
    ensures var s := states[n];
      exists j :: 0 <= j < i && Full(s.bus[j]) && Caus(s.bus[i]) == Id(s.bus[j])
        && a < |s.actors| && Hears(s.actors[a].cfg, s.bus[j])
    ensures MadeBy(states[n], i', a) && Caus(states[n].bus[i']) == Caus(states[n].bus[i]) ==> i' == i
  {
    EveryRun(states, steps, n);
    var s := states[n];
    hide IsRun, Id, Corr, Caus, Tells, Hears;
    assert BusOk(s, i) && IdOk(s, Caus(s.bus[i])) && ActorOk(s, a) && TakenOk(s, a, s.at[Caus(s.bus[i])]);
    if MadeBy(s, i', a) { assert BusOk(s, i'); }
  }

  predicate Replies(s: State, i: nat, a: nat, j: nat) {
    MadeBy(s, i, a) && j < |s.bus| && Caus(s.bus[i]) == Id(s.bus[j])
  }

  /** Once its worker is done with it, a message an actor received has exactly one reply of that
      actor on the bus, which carries what the last run of the handler printed or is a rejection; or it
      has none and then for a reason: it was too short for a header, retry_max is negative, or the
      handler's last run succeeded without output. */
  lemma OutcomeExactly(states: seq<State>, steps: seq<Step>, n: nat, a: nat, j: nat)
    requires IsRun(states, steps) && n <= |steps| && a < |states[n].actors|
    requires j in states[n].actors[a].taken && !InHand(states[n].actors[a], j)
    ensures var s := states[n];
      if j in s.actors[a].silent then TrueReason(s, a, j) && forall i: nat :: !Replies(s, i, a, j)
      else exists i: nat ::
        && Replies(s, i, a, j) && Tells(s.actors[a].cfg, s.bus[j], LastRun(s.actors[a], j), s.bus[i])
        && forall i': nat :: Replies(s, i', a, j) ==> i' == i
  {
    EveryRun(states, steps, n);
    var s := states[n];
    var x := s.actors[a];
    assert ActorOk(s, a) && TakenOk(s, a, j);
    hide IsRun, Hears, Tells;
    if j in x.silent {
      forall i: nat | Replies(s, i, a, j) ensures false { ReplyMeansAnswered(s, a, i, j); }
    } else {
      var k := x.answers[j];
      var i := s.at[k];
      assert IdOk(s, k) && Replies(s, i, a, j);
      forall i': nat | Replies(s, i', a, j) ensures i' == i {
        ReplyMeansAnswered(s, a, i', j);
        assert BusOk(s, i');
      }
    }
  }

  lemma ReplyMeansAnswered(s: State, a: nat, i: nat, j: nat)
    requires Inv(s) && Replies(s, i, a, j) && a < |s.actors|
    ensures j in s.actors[a].answers && s.actors[a].answers[j] == Id(s.bus[i]) && j !in s.actors[a].silent
  {
    var p := Caus(s.bus[i]);
    assert BusOk(s, i) && IdOk(s, p) && BusOk(s, s.at[p]) && BusOk(s, j);
    assert Full(s.bus[j]) by { assert p != NOBODY; }
    assert ActorOk(s, a) && TakenOk(s, a, j);
  }

  // ---- chains ----

  /** Message j is what message i names as its cause: it is earlier and of the same chain. */
  predicate CausedBy(s: State, i: nat, j: nat) {
    j < i < |s.bus| && Full(s.bus[j]) && Id(s.bus[j]) == Caus(s.bus[i]) && Corr(s.bus[j]) == Corr(s.bus[i])
  }

  /** Message i has such a cause. */
  predicate Linked(s: State, i: nat) {
    i < |s.bus| && Caus(s.bus[i]) in s.at && CausedBy(s, i, s.at[Caus(s.bus[i])])
  }

  lemma CauseLinks(s: State, i: nat, j: nat)
    requires BusAllOk(s) && CausedBy(s, i, j)
    ensures Linked(s, i) && s.at[Caus(s.bus[i])] == j
  {
    assert BusOk(s, j);
    hide Id, Corr, Caus, CauseOk;
  }

  /** Following causes back to where a chain started. */
  ghost function Origin(s: State, i: nat): (o: nat)
    requires i < |s.bus| && Full(s.bus[i])
    ensures o <= i && Full(s.bus[o]) && Corr(s.bus[o]) == Corr(s.bus[i]) && !Linked(s, o)
    decreases i
  {
    if Linked(s, i) then Origin(s, s.at[Caus(s.bus[i])]) else i
  }

  /** What a client does: a message that starts a chain names no cause; one that goes on with it names
      a message of the chain that is on the bus, such as the last response. */
  predicate GoesOn(s: State, body: Bytes) {
    Full(body) && Caus(body) != NOBODY ==>
      exists j :: 0 <= j < |s.bus| && Full(s.bus[j]) && Id(s.bus[j]) == Caus(body) && Corr(s.bus[j]) == Corr(body)
  }

  ghost predicate ClientsGoOn(states: seq<State>, steps: seq<Step>)
    requires |states| == |steps| + 1
  {
    forall i :: 0 <= i < |steps| && steps[i].Inject? ==> GoesOn(states[i], steps[i].body)
  }

  /** Every message that names a cause has it on the bus. */
  ghost predicate AllLinked(s: State) {
    forall i :: 0 <= i < |s.bus| && Full(s.bus[i]) && Caus(s.bus[i]) != NOBODY ==> Linked(s, i)
  }

  lemma LinkStays(s: State, s': State, i: nat)
    requires BusAllOk(s') && s.bus <= s'.bus && Linked(s, i)
    ensures Linked(s', i)
  {
    var j := s.at[Caus(s.bus[i])];
    assert s'.bus[i] == s.bus[i] && s'.bus[j] == s.bus[j];
    hide Id, Corr, Caus, BusAllOk;
    CauseLinks(s', i, j);
  }

  /** What a worker sends is linked to what it answers, in any run. */
  lemma WorkersLink(s: State, i: nat)
    requires BusAllOk(s) && i < |s.bus| && Full(s.bus[i])
    requires Id(s.bus[i]) in s.born && s.born[Id(s.bus[i])].Worker?
    ensures Linked(s, i)
  {
    assert BusOk(s, i) && IdOk(s, Caus(s.bus[i]));
  }

  lemma InjectLinks(s: State, s': State, body: Bytes)
    requires BusAllOk(s') && s'.bus == s.bus + [body] && GoesOn(s, body) && Full(body) && Caus(body) != NOBODY
    ensures Linked(s', |s.bus|)
  {
    hide Id, Corr, Caus, Linked, BusAllOk;
    var j :| 0 <= j < |s.bus| && Full(s.bus[j]) && Id(s.bus[j]) == Caus(body) && Corr(s.bus[j]) == Corr(body);
    assert s'.bus[j] == s.bus[j] && s'.bus[|s.bus|] == body;
    CauseLinks(s', |s.bus|, j);
  }

  lemma LinksGrow(s: State, s': State)
    requires AllLinked(s) && BusAllOk(s') && s.bus <= s'.bus
    requires forall i :: |s.bus| <= i < |s'.bus| && Full(s'.bus[i]) && Caus(s'.bus[i]) != NOBODY ==> Linked(s', i)
    ensures AllLinked(s')
  {
    hide Full, Id, Corr, Caus, Linked, BusAllOk;
    forall i | 0 <= i < |s.bus| && Full(s'.bus[i]) && Caus(s'.bus[i]) != NOBODY ensures Linked(s', i) {
      assert s'.bus[i] == s.bus[i];
      LinkStays(s, s', i);
    }
  }

  /** What a step puts on the bus: the message of a client, or frames of workers. */
  lemma NewOnBus(s: State, t: Step)
    requires Inv(s) && Enabled(s, t)
    ensures var s' := Apply(s, t);
      && BusAllOk(s') && s.bus <= s'.bus && (t.Inject? ==> s'.bus == s.bus + [t.body])
      && (!t.Inject? ==> forall i :: |s.bus| <= i < |s'.bus| && Full(s'.bus[i]) ==>
            Id(s'.bus[i]) in s'.born && s'.born[Id(s'.bus[i])].Worker?)
  {
    StepLocal(s, t);
    StepKeeps(s, t);
  }

  lemma StepLinks(s: State, t: Step)
    requires Inv(s) && Enabled(s, t) && AllLinked(s) && (t.Inject? ==> GoesOn(s, t.body))
    ensures AllLinked(Apply(s, t))
  {
    hide *;
    var s' := Apply(s, t);
    NewOnBus(s, t);
    forall i | |s.bus| <= i < |s'.bus| && Full(s'.bus[i]) && Caus(s'.bus[i]) != NOBODY ensures Linked(s', i) {
      if t.Inject? { InjectLinks(s, s', t.body); } else { WorkersLink(s', i); }
    }
    LinksGrow(s, s');
  }

  lemma {:induction false} RunLinks(states: seq<State>, steps: seq<Step>, n: nat)
    requires IsRun(states, steps) && n <= |steps| && ClientsGoOn(states, steps)
    ensures AllLinked(states[n])
  {
    hide Inv, Enabled, Apply, GoesOn;
    if n > 0 {
      RunLinks(states, steps, n - 1);
      EveryRun(states, steps, n - 1);
      hide AllLinked;
      StepLinks(states[n - 1], steps[n - 1]);
    }
  }

  /** Following causation ids is well founded and stays in the chain. In any run it ends at a message
      from outside, and every result and rejection has an earlier parent. If clients that go on with a
      chain name a message of it, every message that names a cause has one, and following them leads,
      through any number of turns, to a message that names none. */
  lemma ChainEnds(states: seq<State>, steps: seq<Step>, n: nat, i: nat)
    requires IsRun(states, steps) && n <= |steps| && i < |states[n].bus| && Full(states[n].bus[i])
    ensures var s := states[n];
      var o := Origin(s, i);
      && Id(s.bus[i]) in s.born && Id(s.bus[o]) in s.born
      && s.born[Id(s.bus[o])] == Outside && Corr(s.bus[o]) == Corr(s.bus[i])
      && (s.born[Id(s.bus[i])].Worker? || (ClientsGoOn(states, steps) && Caus(s.bus[i]) != NOBODY) ==>
            exists j :: CausedBy(s, i, j) && Origin(s, j) == o)
      && (ClientsGoOn(states, steps) ==> Caus(s.bus[o]) == NOBODY)
  {
    EveryRun(states, steps, n);
    if ClientsGoOn(states, steps) { RunLinks(states, steps, n); }
    var s := states[n];
    var o := Origin(s, i);
    hide IsRun, Id, Corr, Caus, Tells, CausedBy;
    assert BusOk(s, i) && BusOk(s, o);
    if s.born[Id(s.bus[o])].Worker? { WorkersLink(s, o); }
    if s.born[Id(s.bus[i])].Worker? { WorkersLink(s, i); }
    if Linked(s, i) {
      assert CausedBy(s, i, s.at[Caus(s.bus[i])]);
    }
  }
}
