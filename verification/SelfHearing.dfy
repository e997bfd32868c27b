/** When can one id be in an actor's inbox and in its outbox at once? Exactly when its configuration
    lets it hear its own results. */
module SelfHearing {
  import opened Bytes
  import opened Wire
  import opened Publish
  import opened Retry
  import opened Subscribe
  import opened Mesh

  const FIRST: Bytes := [1, 1, 1, 1, 1, 1, 1, 1, 1, 1, 1, 1, 1, 1, 1, 1]
  const SECOND: Bytes := [2, 2, 2, 2, 2, 2, 2, 2, 2, 2, 2, 2, 2, 2, 2, 2]

  /** A topic that an actor both listens to and can publish on. */
  predicate OwnTopic(c: Config, t: Bytes) {
    ConfigOk(c) && t in Listed(c.topics) && (t == Cut31(c.resultTopic) || IsName(t))
  }

  lemma TopicIsText(c: Config, t: Bytes)
    requires OwnTopic(c, t)
    ensures 0 !in t && Cut31(t) == t
  {
    hide Listed;
    if IsName(t) { NameIsText(t); }
  }

  // ---- the two messages ----

  function Request(t: Bytes): Header {
    Header(Field(t), FIRST, FIRST, Zeros(ID), Field([]), 0, 0, 0, 0)
  }

  lemma RequestSized(t: Bytes)
    ensures Sized(Request(t))
  {
    Widths();
  }

  function Body(t: Bytes): Bytes {
    RequestSized(t);
    Frame(Request(t), [])
  }

  lemma BodyReads(c: Config, t: Bytes)
    requires OwnTopic(c, t)
    ensures Full(Body(t)) && Id(Body(t)) == FIRST && Caus(Body(t)) == NOBODY
    ensures !Refused(Body(t), 0) && Hears(c, Body(t)) && Cast(Body(t)) == Request(t)
  {
    RequestSized(t);
    TopicIsText(c, t);
    FrameReads(Request(t), [], HEADER);
    assert Frame(Request(t), [])[..HEADER] == Frame(Request(t), []);
    FrameText(Request(t), t, []);
    DeliveredExactly(c.topics, Body(t));
    hide Packed, Hears, Text, IsName, Listed;
  }

  /** What the handler prints: the topic's name on a line of its own, or nothing but the end of a line. */
  function Printout(t: Bytes): Bytes {
    if IsName(t) then t + [NEWLINE] else [NEWLINE]
  }

  lemma PrintoutDivides(c: Config, t: Bytes)
    requires OwnTopic(c, t)
    ensures var o := Divided(Printout(t), c.resultTopic); Cut31(o.topic) == t && |o.payload| <= 1
  {
    TopicIsText(c, t);
    if IsName(t) {
      NamedOutput(t, [], c.resultTopic);
      assert t + [NEWLINE] + [] == t + [NEWLINE];
    } else {
      assert NameEnd([NEWLINE], 0) == 0;
    }
  }

  function Mark(c: Config): Stamp { Stamp(c.actor, SECOND, c.ttl, 0) }

  function Result(c: Config, t: Bytes): Bytes
    requires ConfigOk(c) && |t| <= 31
  {
    RequestSized(t);
    Widths();
    ResultReply(Request(t), Printout(t), c.resultTopic, Mark(c))
  }

  /** A clock reading at which a result of this actor has not expired. */
  function Early(c: Config): int {
    if c.ttl < 0 then c.ttl else 0
  }

  lemma ResultReads(c: Config, t: Bytes)
    requires OwnTopic(c, t)
    ensures |t| <= 31
    ensures Full(Result(c, t)) && Id(Result(c, t)) == SECOND
    ensures !Refused(Result(c, t), Early(c)) && Hears(c, Result(c, t))
  {
    RequestSized(t);
    Widths();
    TopicIsText(c, t);
    PrintoutDivides(c, t);
    ResultIs(Request(t), Printout(t), c.resultTopic, Mark(c));
    var payload := Divided(Printout(t), c.resultTopic).payload;
    ReplyReads(Request(t), t, payload, Mark(c));
    ReplyText(Request(t), t, payload, Mark(c));
    DeliveredExactly(c.topics, Result(c, t));
    hide Reply, ResultReply, Hears, Text, IsName, Listed, Divided, Printout, Pow256;
  }

  lemma IdsDiffer()
    ensures FIRST != NOBODY && SECOND != NOBODY && FIRST != SECOND
  {
    assert FIRST[0] == 1 && SECOND[0] == 2 && NOBODY[0] == 0;
  }

  // ---- the run ----

  /** An actor with two workers that has done nothing yet, in a mesh that has not either. */
  ghost predicate Able(s0: State, a: nat, t: Bytes) {
    && Initial(s0) && a < |s0.actors|
    && |s0.actors[a].workers| >= 2 && s0.actors[a].cfg.retryMax >= 0 && OwnTopic(s0.actors[a].cfg, t)
  }

  lemma AbleIs(s0: State, a: nat, t: Bytes)
    requires Able(s0, a, t)
    ensures var x := s0.actors[a];
      && ConfigOk(x.cfg) && |t| <= 31 && x.inbox == map[] && x.outbox == map[]
      && x.taken == map[] && x.ran == map[] && x.answers == map[] && x.silent == map[]
      && x.workers[0] == Idle && x.workers[1] == Idle
      && s0.bus == [] && s0.born == map[] && s0.at == map[]
  {
    hide Listed, IsName;
    assert StartsEmpty(s0.actors[a]);
    TopicIsText(s0.actors[a].cfg, t);
  }

  /** The first two workers in the given phases. */
  function Phases(ws: seq<Phase>, p: Phase, q: Phase): seq<Phase>
    requires |ws| >= 2
  {
    ws[0 := p][1 := q]
  }

  lemma PhasesMove(ws: seq<Phase>, p: Phase, q: Phase, r: Phase)
    requires |ws| >= 2
    ensures Phases(ws, p, q)[0 := r] == Phases(ws, r, q) && Phases(ws, p, q)[1 := r] == Phases(ws, p, r)
    ensures Phases(ws, p, q)[0] == p && Phases(ws, p, q)[1] == q
  {
  }

  lemma PhasesStart(ws: seq<Phase>)
    requires |ws| >= 2
    ensures Phases(ws, ws[0], ws[1]) == ws
  {
  }

  /** What the scenes do not share. */
  datatype Facts = Facts(
    p: Phase, q: Phase,
    inbox: map<Bytes, Bytes>, outbox: map<Bytes, Bytes>,
    taken: map<nat, nat>, ran: map<nat, Run>, answers: map<nat, Bytes>,
    bus: seq<Bytes>, born: map<Bytes, Maker>, at: map<Bytes, nat>
  )

  function Stage(s0: State, a: nat, f: Facts): State
    requires a < |s0.actors| && |s0.actors[a].workers| >= 2
  {
    var x := s0.actors[a];
    var x' := Actor(x.cfg, Phases(x.workers, f.p, f.q), f.inbox, f.outbox, f.taken, f.ran, f.answers, map[]);
    State(s0.actors[a := x'], f.bus, f.born, f.at)
  }

  /** Before step i: the request comes in, one worker answers it, and the other stores the answer. */
  function Scene(a: nat, b: Bytes, r: Bytes, out: Bytes, i: nat): Facts
    requires i <= 7
  {
    var born, at := map[FIRST := Outside], map[FIRST := 0];
    var born2, at2 := born[SECOND := Worker(a, 0)], at[SECOND := 1];
    var inbox, outbox, ran, answers := map[FIRST := b], map[SECOND := r], map[0 := Output(out)], map[0 := SECOND];
    var taken, taken2 := map[0 := 0], map[0 := 0, 1 := 1];
    match i
    case 0 => Facts(Idle, Idle, map[], map[], map[], map[], map[], [], map[], map[])
    case 1 => Facts(Idle, Idle, map[], map[], map[], map[], map[], [b], born, at)
    case 2 => Facts(Held(0), Idle, map[], map[], taken, map[], map[], [b], born, at)
    case 3 => Facts(Working(0, 0), Idle, inbox, map[], taken, map[], map[], [b], born, at)
    case 4 => Facts(Sending(0, r), Idle, inbox, outbox, taken, ran, answers, [b], born2, at)
    case 5 => Facts(Sent(0, r), Idle, inbox, outbox, taken, ran, answers, [b, r], born2, at2)
    case 6 => Facts(Sent(0, r), Held(1), inbox, outbox, taken2, ran, answers, [b, r], born2, at2)
    case 7 => Facts(Sent(0, r), Working(1, 0), inbox[SECOND := r], outbox, taken2, ran, answers, [b, r], born2, at2)
  }

  function Act(a: nat, c: Config, t: Bytes, i: nat): Step
    requires i < 7
  {
    match i
    case 0 => Inject(Body(t))
    case 1 => Receive(a, 0, 0)
    case 2 => Put(a, 0, 0)
    case 3 => RunHandler(a, 0, Output(Printout(t)), 0, SECOND, [])
    case 4 => Send(a, 0)
    case 5 => Receive(a, 1, 1)
    case 6 => Put(a, 1, Early(c))
  }

  ghost predicate Follows(s0: State, a: nat, t: Bytes, i: nat)
    requires i < 7 && Able(s0, a, t)
  {
    AbleIs(s0, a, t);
    var c := s0.actors[a].cfg;
    var s := Stage(s0, a, Scene(a, Body(t), Result(c, t), Printout(t), i));
    var s' := Stage(s0, a, Scene(a, Body(t), Result(c, t), Printout(t), i + 1));
    Enabled(s, Act(a, c, t, i)) && Apply(s, Act(a, c, t, i)) == s'
  }

  // ---- one step each, for any two messages with these ids ----

  lemma InjectStage(s0: State, a: nat, f: Facts, body: Bytes)
    requires a < |s0.actors| && |s0.actors[a].workers| >= 2
    requires Full(body) && Id(body) !in f.born && |Id(body)| == ID && Id(body) != NOBODY
    ensures Enabled(Stage(s0, a, f), Inject(body))
    ensures Apply(Stage(s0, a, f), Inject(body)) == Stage(s0, a,
      f.(bus := f.bus + [body], at := f.at[Id(body) := |f.bus|], born := f.born[Id(body) := Outside]))
  {
    hide Id, Caus, Phases;
  }

  lemma ReceiveStage(s0: State, a: nat, f: Facts, w: nat, j: nat)
    requires a < |s0.actors| && |s0.actors[a].workers| >= 2 && ConfigOk(s0.actors[a].cfg)
    requires w < 2 && (if w == 0 then f.p else f.q) == Idle
    requires j < |f.bus| && j !in f.taken && Hears(s0.actors[a].cfg, f.bus[j])
    ensures Enabled(Stage(s0, a, f), Receive(a, w, j))
    ensures Apply(Stage(s0, a, f), Receive(a, w, j)) == Stage(s0, a,
      f.(p := if w == 0 then Held(j) else f.p, q := if w == 1 then Held(j) else f.q, taken := f.taken[j := w]))
  {
    PhasesMove(s0.actors[a].workers, f.p, f.q, Held(j));
    hide Hears, Phases, ConfigOk;
  }

  lemma PutStage(s0: State, a: nat, f: Facts, w: nat, j: nat, now: int)
    requires a < |s0.actors| && |s0.actors[a].workers| >= 2 && ConfigOk(s0.actors[a].cfg)
    requires w < 2 && (if w == 0 then f.p else f.q) == Held(j)
    requires j < |f.bus| && Full(f.bus[j]) && !Refused(f.bus[j], now)
    ensures Enabled(Stage(s0, a, f), Put(a, w, now))
    ensures Apply(Stage(s0, a, f), Put(a, w, now)) == Stage(s0, a,
      f.(p := if w == 0 then Working(j, 0) else f.p, q := if w == 1 then Working(j, 0) else f.q,
         inbox := f.inbox[Id(f.bus[j]) := f.bus[j]]))
  {
    PhasesMove(s0.actors[a].workers, f.p, f.q, Working(j, 0));
    hide Id, Refused, Phases, ConfigOk, Full;
  }

  lemma SendStage(s0: State, a: nat, f: Facts, j: nat, frame: Bytes)
    requires a < |s0.actors| && |s0.actors[a].workers| >= 2 && ConfigOk(s0.actors[a].cfg)
    requires f.p == Sending(j, frame) && Full(frame)
    ensures Enabled(Stage(s0, a, f), Send(a, 0))
    ensures Apply(Stage(s0, a, f), Send(a, 0)) == Stage(s0, a,
      f.(p := Sent(j, frame), bus := f.bus + [frame], at := f.at[Id(frame) := |f.bus|]))
  {
    PhasesMove(s0.actors[a].workers, f.p, f.q, Sent(j, frame));
    hide Id, Phases, ConfigOk;
  }

  lemma BoxStage(s0: State, a: nat, f: Facts, j: nat, frame: Bytes)
    requires a < |s0.actors| && |s0.actors[a].workers| >= 2 && f.p.Working?
    ensures Box(Stage(s0, a, f), a, 0, j, frame) == Stage(s0, a,
      f.(p := Sending(j, frame), outbox := f.outbox[Id(frame) := frame], answers := f.answers[j := Id(frame)],
         born := f.born[Id(frame) := Worker(a, 0)]))
  {
    PhasesMove(s0.actors[a].workers, f.p, f.q, Sending(j, frame));
    hide Id, Phases;
  }

  lemma NotedStage(s0: State, a: nat, f: Facts, j: nat, run: Run)
    requires a < |s0.actors| && |s0.actors[a].workers| >= 2
    ensures Noted(Stage(s0, a, f), a, j, run) == Stage(s0, a, f.(ran := f.ran[j := run]))
  {
    hide Phases;
  }

  // ---- the scenes in order ----

  lemma Follows0(s0: State, a: nat, t: Bytes)
    requires Able(s0, a, t)
    ensures Follows(s0, a, t, 0)
  {
    AbleIs(s0, a, t);
    var c := s0.actors[a].cfg;
    BodyReads(c, t);
    IdsDiffer();
    hide Body, Result, Id, Caus, Stage, Able, Enabled, Apply;
    InjectStage(s0, a, Scene(a, Body(t), Result(c, t), Printout(t), 0), Body(t));
    assert [] + [Body(t)] == [Body(t)];
  }

  lemma Follows12(s0: State, a: nat, t: Bytes)
    requires Able(s0, a, t)
    ensures Follows(s0, a, t, 1) && Follows(s0, a, t, 2)
  {
    AbleIs(s0, a, t);
    var c := s0.actors[a].cfg;
    BodyReads(c, t);
    hide Body, Result, Id, Caus, Stage, Able, Enabled, Apply, Hears, Refused;
    ReceiveStage(s0, a, Scene(a, Body(t), Result(c, t), Printout(t), 1), 0, 0);
    PutStage(s0, a, Scene(a, Body(t), Result(c, t), Printout(t), 2), 0, 0, 0);
  }

  lemma PrintoutSize(t: Bytes)
    requires |t| <= 31
    ensures 0 < |Printout(t)| < PAYLOAD_CAP
  {
  }

  lemma Stage3Is(s0: State, a: nat, b: Bytes, r: Bytes, out: Bytes, s: State)
    requires a < |s0.actors| && |s0.actors[a].workers| >= 2
    requires s == Stage(s0, a, Scene(a, b, r, out, 3))
    ensures a < |s.actors| && s.actors[a].cfg == s0.actors[a].cfg && |s.actors[a].workers| >= 2
    ensures s.actors[a].workers[0] == Working(0, 0) && s.bus == [b] && s.born == map[FIRST := Outside]
  {
    PhasesMove(s0.actors[a].workers, Working(0, 0), Idle, Idle);
    hide Phases;
  }

  /** The answer to the request is the result. */
  lemma AnswerIs(s: State, a: nat, t: Bytes)
    requires a < |s.actors| && ConfigOk(s.actors[a].cfg) && |t| <= 31 && s.bus == [Body(t)] && Full(Body(t))
    requires Cast(Body(t)) == Request(t) && s.born == map[FIRST := Outside]
    ensures StampFits(s, SECOND, 0, []) && |Printout(t)| < PAYLOAD_CAP
    ensures Answer(s, a, 0, 0, SECOND, Printout(t)) == Result(s.actors[a].cfg, t)
  {
    IdsDiffer();
    PrintoutSize(t);
    Widths();
    hide Body, ConfigOk, ResultReply, Full, Request, Printout, Pow256, Cast;
  }

  /** The handler run is enabled, and publishes. */
  lemma RunsNow(s: State, a: nat, t: Bytes)
    requires At(s, a, 0) && s.actors[a].workers[0] == Working(0, 0) && s.actors[a].cfg.retryMax >= 0
    requires |s.bus| == 1 && Full(s.bus[0]) && |t| <= 31 && StampFits(s, SECOND, 0, [])
    ensures Enabled(s, RunHandler(a, 0, Output(Printout(t)), 0, SECOND, []))
    ensures Decide(Output(Printout(t)), 0, s.actors[a].cfg.retryMax) == Next.Publish(Printout(t))
  {
    PrintoutSize(t);
    hide Printout, StampFits, Full, ConfigOk;
  }

  /** The handler's report noted and the result put into the outbox. */
  lemma BoxedScene(s0: State, a: nat, b: Bytes, r: Bytes, out: Bytes)
    requires a < |s0.actors| && |s0.actors[a].workers| >= 2 && Id(r) == SECOND
    ensures var s1 := Noted(Stage(s0, a, Scene(a, b, r, out, 3)), a, 0, Output(out));
      && a < |s1.actors| && |s1.actors[a].workers| >= 2
      && Box(s1, a, 0, 0, r) == Stage(s0, a, Scene(a, b, r, out, 4))
  {
    var f := Scene(a, b, r, out, 3);
    hide Id, Phases, Stage, Box, Noted;
    NotedStage(s0, a, f, 0, Output(out));
    var f1 := f.(ran := f.ran[0 := Output(out)]);
    BoxStage(s0, a, f1, 0, r);
    StageIs(s0, a, f1);
  }

  lemma StageIs(s0: State, a: nat, f: Facts)
    requires a < |s0.actors| && |s0.actors[a].workers| >= 2
    ensures var s := Stage(s0, a, f); a < |s.actors| && |s.actors[a].workers| >= 2
  {
  }

  lemma NotedSame(s: State, a: nat, j: nat, run: Run)
    requires a < |s.actors|
    ensures var s1 := Noted(s, a, j, run);
      a < |s1.actors| && s1.actors[a].cfg == s.actors[a].cfg && s1.bus == s.bus && s1.born == s.born
  {
  }

  lemma Follows3(s0: State, a: nat, t: Bytes)
    requires Able(s0, a, t)
    ensures Follows(s0, a, t, 3)
  {
    AbleIs(s0, a, t);
    var c := s0.actors[a].cfg;
    ResultReads(c, t);
    BodyReads(c, t);
    var s := Stage(s0, a, Scene(a, Body(t), Result(c, t), Printout(t), 3));
    var run := Output(Printout(t));
    Stage3Is(s0, a, Body(t), Result(c, t), Printout(t), s);
    NotedSame(s, a, 0, run);
    AnswerIs(s, a, t);
    AnswerIs(Noted(s, a, 0, run), a, t);
    RunsNow(s, a, t);
    assert Act(a, c, t, 3) == RunHandler(a, 0, run, 0, SECOND, []);
    BoxedScene(s0, a, Body(t), Result(c, t), Printout(t));
    hide Body, Result, Id, Caus, Stage, Scene, Act, Able, Enabled, Apply, Answer, Box, Noted, Printout, Request, Cast;
    hide StampFits, ConfigOk, Full, AtWork, LastRun;
    RanIs(s, a, 0, run, 0, SECOND, []);
    ApplyRun(s, a, 0, run, 0, SECOND, []);
  }

  lemma Follows4(s0: State, a: nat, t: Bytes)
    requires Able(s0, a, t)
    ensures Follows(s0, a, t, 4)
  {
    AbleIs(s0, a, t);
    var c := s0.actors[a].cfg;
    ResultReads(c, t);
    hide Body, Result, Id, Caus, Stage, Able, Enabled, Apply, Hears, Refused, Early, ConfigOk;
    SendStage(s0, a, Scene(a, Body(t), Result(c, t), Printout(t), 4), 0, Result(c, t));
    assert [Body(t)] + [Result(c, t)] == [Body(t), Result(c, t)];
  }

  lemma LaterScenes(a: nat, b: Bytes, r: Bytes, out: Bytes)
    ensures var f, g := Scene(a, b, r, out, 5), Scene(a, b, r, out, 6);
      var h := Scene(a, b, r, out, 7);
      && f.q == Idle && f.bus == g.bus == [b, r] && 1 !in f.taken && g == f.(q := Held(1), taken := f.taken[1 := 1])
      && g.q == Held(1) && h == g.(q := Working(1, 0), inbox := g.inbox[SECOND := r])
  {
  }

  lemma Follows5(s0: State, a: nat, t: Bytes)
    requires Able(s0, a, t)
    ensures Follows(s0, a, t, 5)
  {
    AbleIs(s0, a, t);
    var c := s0.actors[a].cfg;
    ResultReads(c, t);
    LaterScenes(a, Body(t), Result(c, t), Printout(t));
    hide Body, Result, Id, Caus, Stage, Scene, Able, Enabled, Apply, Hears, Refused, Full, ConfigOk;
    ReceiveStage(s0, a, Scene(a, Body(t), Result(c, t), Printout(t), 5), 1, 1);
  }

  lemma Follows6(s0: State, a: nat, t: Bytes)
    requires Able(s0, a, t)
    ensures Follows(s0, a, t, 6)
  {
    AbleIs(s0, a, t);
    var c := s0.actors[a].cfg;
    ResultReads(c, t);
    LaterScenes(a, Body(t), Result(c, t), Printout(t));
    var f, now := Scene(a, Body(t), Result(c, t), Printout(t), 6), Early(c);
    assert Act(a, c, t, 6) == Put(a, 1, now) && f.bus[1] == Result(c, t);
    hide Body, Result, Id, Caus, Stage, Scene, Act, Able, Enabled, Apply, Hears, Refused, Early, Full;
    hide ConfigOk, OwnTopic;
    PutStage(s0, a, f, 1, 1, now);
  }

  lemma AllFollow(s0: State, a: nat, t: Bytes, i: nat)
    requires Able(s0, a, t) && i < 7
    ensures Follows(s0, a, t, i)
  {
    hide *;
    if i == 0 { Follows0(s0, a, t); }
    else if i <= 2 { Follows12(s0, a, t); }
    else if i == 3 { Follows3(s0, a, t); }
    else if i == 4 { Follows4(s0, a, t); }
    else if i == 5 { Follows5(s0, a, t); }
    else { Follows6(s0, a, t); }
  }

  lemma StartsThere(s0: State, a: nat, t: Bytes)
    requires Able(s0, a, t)
    ensures |t| <= 31 && ConfigOk(s0.actors[a].cfg)
    ensures Stage(s0, a, Scene(a, Body(t), Result(s0.actors[a].cfg, t), Printout(t), 0)) == s0
  {
    AbleIs(s0, a, t);
    PhasesStart(s0.actors[a].workers);
    hide Body, Result, Able, Phases;
    var x := s0.actors[a];
    assert s0.actors[a := x] == s0.actors;
  }

  lemma EndsOverlapping(s0: State, a: nat, b: Bytes, r: Bytes, out: Bytes)
    requires a < |s0.actors| && |s0.actors[a].workers| >= 2
    ensures var xs := Stage(s0, a, Scene(a, b, r, out, 7)).actors;
      a < |xs| && SECOND in xs[a].inbox && SECOND in xs[a].outbox
  {
  }

  /** From any start of any mesh, an actor that can hear itself comes to have one id in its inbox and
      its outbox. */
  lemma OverlapHappens(s0: State, a: nat, t: Bytes) returns (states: seq<State>, steps: seq<Step>)
    requires Able(s0, a, t)
    ensures IsRun(states, steps) && |states| == 8 && states[0] == s0 && a < |states[7].actors|
    ensures SECOND in states[7].actors[a].inbox && SECOND in states[7].actors[a].outbox
  {
    StartsThere(s0, a, t);
    var c := s0.actors[a].cfg;
    var b, r, out := Body(t), Result(c, t), Printout(t);
    EndsOverlapping(s0, a, b, r, out);
    states := seq(8, i requires 0 <= i < 8 => Stage(s0, a, Scene(a, b, r, out, i)));
    steps := seq(7, i requires 0 <= i < 7 => Act(a, c, t, i));
    hide Enabled, Apply, Scene, Stage, Act, Body, Result, OwnTopic;
    forall i | 0 <= i < |steps|
      ensures Enabled(states[i], steps[i]) && states[i + 1] == Apply(states[i], steps[i])
    {
      AllFollow(s0, a, t, i);
    }
  }

  /** A run from s0 after whose first n steps k is in both databases of actor a. */
  ghost predicate Overlaps(s0: State, a: nat, states: seq<State>, steps: seq<Step>, n: nat, k: Bytes) {
    && IsRun(states, steps) && states[0] == s0 && n <= |steps| && a < |states[n].actors|
    && k in states[n].actors[a].inbox && k in states[n].actors[a].outbox
  }

  /** Inbox and outbox of an actor can come to share an id exactly when it has two workers, a
      retry_max that is not negative, and a topic of its own among those it listens to. */
  lemma OverlapReachableExactly(s0: State, a: nat)
    requires Initial(s0) && a < |s0.actors|
    ensures (exists states, steps, n, k :: Overlaps(s0, a, states, steps, n, k)) <==> CanHearItself(s0.actors[a])
  {
    assert StartsEmpty(s0.actors[a]);
    hide IsRun, Listed, IsName, Initial, ConfigOk;
    if states, steps, n, k :| Overlaps(s0, a, states, steps, n, k) {
      OverlapNeeds(states, steps, n, a, k);
    }
    if CanHearItself(s0.actors[a]) {
      var c := s0.actors[a].cfg;
      var t :| t in Listed(c.topics) && (t == Cut31(c.resultTopic) || IsName(t));
      var states, steps := OverlapHappens(s0, a, t);
      assert |steps| == 7;
      assert Overlaps(s0, a, states, steps, 7, SECOND);
    }
  }
}
