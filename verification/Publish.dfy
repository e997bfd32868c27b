/** result_topic, publish_result and publish_rejection: from a handler's output to a frame. */
module Publish {
  import opened Bytes
  import opened Options
  import opened Subscribe
  import opened Wire
  import Uuid

  const NEWLINE: Byte := 10
  const NAME_MAX: nat := 31

  predicate IsNameByte(c: Byte) {
    || 97 <= c <= 122    // a-z
    || 65 <= c <= 90     // A-Z
    || 48 <= c <= 57     // 0-9
    || c == 95           // _
  }

  /** The end of the run of name bytes from i, looking no further than byte 31. */
  function NameEnd(buf: Bytes, i: nat): (e: nat)
    requires i <= |buf| && i <= NAME_MAX
    ensures i <= e <= |buf| && e <= NAME_MAX
    ensures forall k :: i <= k < e ==> IsNameByte(buf[k])
    ensures e < |buf| && e < NAME_MAX ==> !IsNameByte(buf[e])
    decreases NAME_MAX - i
  {
    if i < |buf| && i < NAME_MAX && IsNameByte(buf[i]) then NameEnd(buf, i + 1) else i
  }

  datatype Addressed = Addressed(topic: Bytes, payload: Bytes)

  /** How a handler's output is divided: a first line that is a name overrides the topic. */
  function Divided(buf: Bytes, fallback: Bytes): Addressed {
    var e := NameEnd(buf, 0);
    if 0 < e < NAME_MAX && e < |buf| && buf[e] == NEWLINE then Addressed(buf[..e], buf[e + 1..])
    else Addressed(fallback, buf)
  }

  /** result_topic: the topic and where the payload starts. */
  method ResultTopic(buf: Bytes, fallback: Bytes) returns (topic: Bytes, off: nat)
    ensures off <= |buf| && Addressed(topic, buf[off..]) == Divided(buf, fallback)
    ensures off > 0 ==> topic == buf[..off - 1] && 0 !in topic && |topic| < NAME_MAX
    ensures off == 0 ==> topic == fallback
  {
    var i := 0;
    while i < |buf| && i < NAME_MAX
      invariant i <= |buf| && i <= NAME_MAX
      invariant NameEnd(buf, 0) == NameEnd(buf, i)
      invariant forall k :: 0 <= k < i ==> IsNameByte(buf[k])
    {
      var c := buf[i];
      if c == NEWLINE {
        if i == 0 { break; }
        return buf[..i], i + 1;
      }
      if !IsNameByte(c) {
        break;
      }
      i := i + 1;
    }
    assert buf[0..] == buf;
    return fallback, 0;
  }

  predicate IsName(t: Bytes) {
    0 < |t| < NAME_MAX && forall k :: 0 <= k < |t| ==> IsNameByte(t[k])
  }

  lemma {:induction false} NameEndIs(buf: Bytes, i: nat, e: nat)
    requires i <= e < |buf| && e < NAME_MAX && !IsNameByte(buf[e])
    requires forall k :: i <= k < e ==> IsNameByte(buf[k])
    ensures NameEnd(buf, i) == e
    decreases e - i
  {
    if i < e { NameEndIs(buf, i + 1, e); }
  }

  /** A handler that prints a name of up to 30 bytes on its own first line chooses the topic, and
      that line is not part of the payload. */
  lemma NamedOutput(t: Bytes, rest: Bytes, fallback: Bytes)
    requires IsName(t)
    ensures Divided(t + [NEWLINE] + rest, fallback) == Addressed(t, rest)
  {
    var buf := t + [NEWLINE] + rest;
    NameEndIs(buf, 0, |t|);
    hide NameEnd;
  }

  /** Any other output is published whole on the configured topic. */
  lemma OtherOutput(buf: Bytes, fallback: Bytes)
    requires forall t, rest :: IsName(t) ==> buf != t + [NEWLINE] + rest
    ensures Divided(buf, fallback) == Addressed(fallback, buf)
  {
    var e := NameEnd(buf, 0);
    hide NameEnd;
    if 0 < e < NAME_MAX && e < |buf| && buf[e] == NEWLINE {
      var t := buf[..e];
      assert IsName(t);
      assert buf == t + [NEWLINE] + buf[e + 1..];
    }
  }

  // ---- frames ----

  /** The runtime's side of a published frame. */
  datatype Stamp = Stamp(actor: Bytes, id: Bytes, ttl: int, now: int)

  predicate StampOk(s: Stamp) {
    0 !in s.actor && |s.id| == ID && FitsSigned(s.ttl, 8) && FitsSigned(s.now, 8)
  }

  /** A frame in answer to a message: its chain, its id as the cause. */
  function Reply(to: Header, topic: Bytes, payload: Bytes, s: Stamp): Bytes
    requires Sized(to) && StampOk(s) && |payload| < Pow256(4)
  {
    Widths();
    Frame(ReplyHeader(to, topic, |payload|, s), payload)
  }

  function ReplyHeader(to: Header, topic: Bytes, len: nat, s: Stamp): (h: Header)
    requires Sized(to) && StampOk(s) && len < Pow256(4)
    ensures Sized(h)
  {
    Widths();
    InitHeader(topic, s.actor, Some(to.correlation), Some(to.id), len, s.now).(id := s.id, ttl := s.ttl)
  }

  /** The topic written into topic_buf. */
  function ResultReply(to: Header, result: Bytes, fallback: Bytes, s: Stamp): Bytes
    requires Sized(to) && StampOk(s) && |result| < Pow256(4)
  {
    var o := Divided(result, fallback);
    Reply(to, Cut31(o.topic), o.payload, s)
  }

  /** publish_result up to the send: the frame left in the worker's frame buffer. */
  method AssembleResult(to: Header, result: Bytes, fallback: Bytes, s: Stamp, frameBuf: array<Byte>)
    returns (n: nat)
    requires Sized(to) && StampOk(s) && 0 !in fallback
    requires HEADER + |result| <= frameBuf.Length && |result| < Pow256(4)
    modifies frameBuf
    ensures n <= frameBuf.Length && frameBuf[..n] == ResultReply(to, result, fallback, s)
  {
    var raw, off := ResultTopic(result, fallback);
    var topic: Bytes;
    if off > 0 {
      topic := raw[..off - 1];
    } else {
      topic := Cut31(raw);
    }
    var payload := result[off..];
    assert topic == Cut31(Divided(result, fallback).topic) && payload == Divided(result, fallback).payload;
    hide Divided;
    var out := new TupleHeader();
    out.Init(topic, s.actor, Some(to.correlation), Some(to.id), |payload|, s.now);
    out.id := s.id;
    out.ttl := s.ttl;
    var h := out.Value();
    assert h == ReplyHeader(to, topic, |payload|, s);
    hide *;
    n := Assemble(h, payload, frameBuf);
    ReplyFrame(to, topic, payload, s);
    ResultIs(to, result, fallback, s);
  }

  lemma ResultIs(to: Header, result: Bytes, fallback: Bytes, s: Stamp)
    requires Sized(to) && StampOk(s) && |result| < Pow256(4)
    ensures var o := Divided(result, fallback);
      |o.payload| < Pow256(4) && ResultReply(to, result, fallback, s) == Reply(to, Cut31(o.topic), o.payload, s)
  {
    hide Reply, Cut31, NameEnd;
  }

  /** What a reader of the reply sees: its own id, the chain of the message answered, that message
      as the direct cause, and the whole payload. */
  lemma ReplyReads(to: Header, topic: Bytes, payload: Bytes, s: Stamp)
    requires Sized(to) && StampOk(s) && |payload| < Pow256(4)
    ensures var f := Reply(to, topic, payload, s);
      && |f| == HEADER + |payload| && Cast(f) == ReplyHeader(to, topic, |payload|, s)
      && IdAt(f, 32) == s.id && IdAt(f, 48) == to.correlation && IdAt(f, 64) == to.id
      && PayloadIn(f) == payload && (0 !in topic ==> TopicIn(f) == Cut31(topic))
  {
    var h := ReplyHeader(to, topic, |payload|, s);
    assert h.topic == Field(topic) && h.id == s.id && h.correlation == to.correlation && h.causation == to.id;
    if 0 !in topic {
      FieldText(topic);
      TextOfPrefix(Field(topic), [0]);
    }
    FrameReads(h, payload, HEADER + |payload|);
    hide *;
    var f := Frame(h, payload);
    assert f[..HEADER + |payload|] == f && payload[..|payload|] == payload;
    ReplyFrame(to, topic, payload, s);
  }

  lemma ReplyFrame(to: Header, topic: Bytes, payload: Bytes, s: Stamp)
    requires Sized(to) && StampOk(s) && |payload| < Pow256(4)
    ensures Reply(to, topic, payload, s) == Frame(ReplyHeader(to, topic, |payload|, s), payload)
  {
  }

  /** The text a subscriber's prefix is held against: the topic cut to 31 bytes. */
  lemma ReplyText(to: Header, topic: Bytes, payload: Bytes, s: Stamp)
    requires Sized(to) && StampOk(s) && |payload| < Pow256(4) && 0 !in topic
    ensures 0 in Reply(to, topic, payload, s) && Text(Reply(to, topic, payload, s)) == Cut31(topic)
  {
    var h := ReplyHeader(to, topic, |payload|, s);
    assert h.topic == Field(topic) && h.topic[31] == 0;
    ReplyFrame(to, topic, payload, s);
    hide Reply, ReplyHeader;
    FrameText(h, topic, payload);
  }

  /** The topic of a result is the configured one or a name the handler printed. */
  lemma DividedTopic(buf: Bytes, fallback: Bytes)
    ensures var t := Divided(buf, fallback).topic; t == fallback || IsName(t)
  {
    hide NameEnd;
  }

  lemma NameIsText(t: Bytes)
    requires IsName(t)
    ensures 0 !in t && Cut31(t) == t
  {
  }

  /** A reply's bytes, field by field: the names as C strings, the ids, the clock reading and ttl it was
      stamped with, no attempt, and the length of its payload. */
  lemma ReplyBytes(to: Header, topic: Bytes, payload: Bytes, s: Stamp)
    requires Sized(to) && StampOk(s) && |payload| < Pow256(4) && 0 !in topic
    ensures var f := Reply(to, topic, payload, s);
      && |f| == 256 + |payload| && f[256..] == payload
      && Text(f[..32]) == Cut31(topic) && Text(f[80..112]) == Cut31(s.actor)
      && f[32..48] == s.id && f[48..64] == to.correlation && f[64..80] == to.id
      && SignedAt(f, 112) == s.now && SignedAt(f, 120) == s.ttl
      && Quad(f[128], f[129], f[130], f[131]) == 0 && Quad(f[132], f[133], f[134], f[135]) == |payload|
  {
    var h := ReplyHeader(to, topic, |payload|, s);
    assert h.topic == Field(topic) && h.origin == Field(s.actor) && h.id == s.id && h.correlation == to.correlation;
    assert h.causation == to.id && h.emittedAt == s.now && h.ttl == s.ttl && h.attempt == 0;
    assert h.payloadLen == |payload|;
    FieldText(topic);
    FieldText(s.actor);
    ReplyFrame(to, topic, payload, s);
    assert Frame(h, payload) == Packed(h) + payload;
    hide *;
    FieldOffsets(h, payload);
    assert (Packed(h) + payload)[256..] == payload;
  }

  // ---- the text of a rejection ----

  const REPORT_BUF: nat := 512

  function Chars(b: Bytes): (s: string)
    ensures |s| == |b|
  {
    seq(|b|, i requires 0 <= i < |b| => b[i] as char)
  }

  /** What publish_rejection prints for a message, read as the struct: origin and topic are printed up
      to the first zero, which need not be inside their fields. */
  function Report(body: Bytes, reason: string): string
    requires |body| >= HEADER
  {
    "{\"tuple_id\":\"" + Uuid.Hex(IdAt(body, 32)) + "\",\"correlation_id\":\"" + Uuid.Hex(IdAt(body, 48))
    + "\",\"origin\":\"" + Chars(Text(body[80..])) + "\",\"topic\":\"" + Chars(Text(body))
    + "\",\"reason\":\"" + reason + "\"}"
  }

  /** The five fields of a rejection's text, read back where they stand: the id and the correlation id
      of the message in hex, its origin and topic up to their first zeros, and the reason. */
  lemma ReportReads(body: Bytes, reason: string)
    requires |body| >= HEADER
    ensures var r, o, t := Report(body, reason), Chars(Text(body[80..])), Chars(Text(body));
      && |r| == 134 + |o| + |t| + |reason|
      && r[..13] == "{\"tuple_id\":\"" && Uuid.Unhex(r[13..45]) == body[32..48]
      && r[45..65] == "\",\"correlation_id\":\"" && Uuid.Unhex(r[65..97]) == body[48..64]
      && r[97..109] == "\",\"origin\":\"" && r[109..109 + |o|] == o
      && r[109 + |o|..120 + |o|] == "\",\"topic\":\"" && r[120 + |o|..120 + |o| + |t|] == t
      && r[120 + |o| + |t|..132 + |o| + |t|] == "\",\"reason\":\""
      && r[132 + |o| + |t|..132 + |o| + |t| + |reason|] == reason
      && r[132 + |o| + |t| + |reason|..] == "\"}"
  {
    var o, t := Chars(Text(body[80..])), Chars(Text(body));
    var a, b := Uuid.Hex(IdAt(body, 32)), Uuid.Hex(IdAt(body, 48));
    Uuid.HexReads(IdAt(body, 32));
    Uuid.HexReads(IdAt(body, 48));
    assert IdAt(body, 32) == body[32..48] && IdAt(body, 48) == body[48..64];
    hide *;
    ReportIs(body, reason);
    NinePieces("{\"tuple_id\":\"", a, "\",\"correlation_id\":\"", b, "\",\"origin\":\"", o, "\",\"topic\":\"", t,
               "\",\"reason\":\"", reason, "\"}");
  }

  lemma ReportIs(body: Bytes, reason: string)
    requires |body| >= HEADER
    ensures Report(body, reason) ==
      "{\"tuple_id\":\"" + Uuid.Hex(IdAt(body, 32)) + "\",\"correlation_id\":\"" + Uuid.Hex(IdAt(body, 48))
      + "\",\"origin\":\"" + Chars(Text(body[80..])) + "\",\"topic\":\"" + Chars(Text(body))
      + "\",\"reason\":\"" + reason + "\"}"
  {
    hide Uuid.Hex, IdAt, Chars, Text;
  }

  lemma NinePieces(
    p: string, a: string, q: string, b: string, r: string, o: string, u: string, t: string, v: string,
    reason: string, w: string)
    ensures var s := p + a + q + b + r + o + u + t + v + reason + w;
      var i := |p| + |a|;
      var j := i + |q| + |b|;
      var k := j + |r| + |o|;
      var l := k + |u| + |t|;
      var m := l + |v| + |reason|;
      && |s| == m + |w|
      && s[..|p|] == p && s[|p|..i] == a && s[i..i + |q|] == q && s[i + |q|..j] == b && s[j..j + |r|] == r
      && s[j + |r|..k] == o && s[k..k + |u|] == u && s[k + |u|..l] == t && s[l..l + |v|] == v
      && s[l + |v|..m] == reason && s[m..] == w
  {
  }

  /** The report fits its 512-byte buffer exactly when the two names and the reason leave room. */
  lemma ReportFits(body: Bytes, reason: string)
    requires |body| >= HEADER
    ensures |Report(body, reason)| < REPORT_BUF <==> |Text(body[80..])| + |Text(body)| + |reason| < 378
  {
    hide Uuid.Hex, Text, IdAt;
  }

  lemma {:induction false} TextBound(b: Bytes, k: nat)
    requires k < |b| && b[k] == 0
    ensures |Text(b)| <= k
  {
    if k > 0 && b[0] != 0 { TextBound(b[1..], k - 1); }
  }

  lemma {:induction false} TextBeyond(b: Bytes, k: nat)
    requires k <= |b| && 0 !in b[..k]
    ensures |Text(b)| >= k
  {
    if k > 0 {
      assert b[0] in b[..k] && b[1..][..k - 1] == b[..k][1..];
      TextBeyond(b[1..], k - 1);
    }
  }

  /** It does for every message whose topic and origin fields end in a zero, as the runtime and the
      browser bindings write them, and for every reason of the runtime. */
  lemma BuiltReportFits(body: Bytes, reason: string)
    requires |body| >= HEADER && body[31] == 0 && body[111] == 0
    requires reason in {"ttl_expired", "payload_cap_exceeded", "result_cap_exceeded", "max_retries_exceeded"}
    ensures |Report(body, reason)| < REPORT_BUF
  {
    TextBound(body, 31);
    assert body[80..][31] == body[111];
    TextBound(body[80..], 31);
    ReportFits(body, reason);
  }

  /** It does not for some messages a worker is handed: those on one of its topics, with an origin that
      is not terminated and 378 bytes from there on without a zero. */
  lemma UnterminatedOriginOverruns(list: Bytes, t: Bytes, body: Bytes, reason: string)
    requires t in Listed(list) && t + [0] <= body && |body| >= 458 && 0 !in body[80..458]
    ensures Delivered(Terminated(Listed(list)), body) && |Report(body, reason)| >= REPORT_BUF
  {
    var i :| 0 <= i < |Listed(list)| && Listed(list)[i] == t;
    assert Terminated(Listed(list))[i] <= body;
    assert body[80..][..378] == body[80..458];
    TextBeyond(body[80..], 378);
    ReportFits(body, reason);
    hide Listed, Text, Report;
  }

  /** The topic of a message a worker is handed ends within 256 bytes, terminated in its field or not:
      the worker's list of topics was cut to that. */
  lemma DeliveredTextShort(list: Bytes, body: Bytes)
    requires Delivered(Terminated(Listed(list)), body)
    ensures |Text(body)| < TOPIC_BUF && 0 in body
  {
    var ts := Listed(list);
    var i :| 0 <= i < |ts| && Terminated(ts)[i] <= body;
    ListedShort(list, i);
    hide Listed;
    assert body[|ts[i]|] == 0;
    TextBound(body, |ts[i]|);
  }
}
