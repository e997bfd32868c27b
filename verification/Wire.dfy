/** The 256-byte packed header and its frames: actor_tuple.h and the browser bindings. */
module Wire {
  import opened Bytes
  import opened Options

  const HEADER: nat := 256
  const TOPIC_FIELD: nat := 32
  const ID: nat := 16
  const RESERVED: nat := 120

  /** The header's fields; topic and origin are the whole 32-byte character arrays. */
  datatype Header = Header(
    topic: Bytes,
    id: Bytes,
    correlation: Bytes,
    causation: Bytes,
    origin: Bytes,
    emittedAt: int,
    ttl: int,
    attempt: int,
    payloadLen: nat
  )

  predicate Sized(h: Header) {
    && |h.topic| == TOPIC_FIELD && |h.origin| == TOPIC_FIELD
    && |h.id| == ID && |h.correlation| == ID && |h.causation| == ID
    && FitsSigned(h.emittedAt, 8) && FitsSigned(h.ttl, 8) && FitsSigned(h.attempt, 4)
    && h.payloadLen < Pow256(4)
  }

  /** The fields before offset 112. */
  function Names(h: Header): (b: Bytes)
    requires Sized(h)
    ensures |b| == 112
  {
    h.topic + h.id + h.correlation + h.causation + h.origin
  }

  /** The numbers, little-endian, from offset 112 to 136. */
  function Numbers(h: Header): (b: Bytes)
    requires Sized(h)
    ensures |b| == 24
  {
    Le(Unsigned(h.emittedAt, 8), 8) + Le(Unsigned(h.ttl, 8), 8) + Le(Unsigned(h.attempt, 4), 4) + Le(h.payloadLen, 4)
  }

  /** The packed struct, fields in order without gaps, reserved bytes zero. */
  function Packed(h: Header): (b: Bytes)
    requires Sized(h)
    ensures |b| == HEADER
  {
    Names(h) + Numbers(h) + Zeros(RESERVED)
  }

  /** The same bytes seen through the struct: every field at its offset. */
  function Cast(b: Bytes): (h: Header)
    requires |b| >= HEADER
    ensures Sized(h)
  {
    Header(b[..32], b[32..48], b[48..64], b[64..80], b[80..112],
           Signed(FromLe(b[112..120]), 8), Signed(FromLe(b[120..128]), 8), Signed(FromLe(b[128..132]), 4),
           FromLe(b[132..136]))
  }

  lemma NumbersRead(h: Header)
    requires Sized(h)
    ensures var n := Numbers(h);
      && Signed(FromLe(n[..8]), 8) == h.emittedAt && Signed(FromLe(n[8..16]), 8) == h.ttl
      && Signed(FromLe(n[16..20]), 4) == h.attempt && FromLe(n[20..]) == h.payloadLen
  {
    SignedReads(h.emittedAt, 8);
    SignedReads(h.ttl, 8);
    SignedReads(h.attempt, 4);
    LeReads(h.payloadLen, 4);
    hide Signed, FromLe, Le, Unsigned, Pow256;
    Parts(Le(Unsigned(h.emittedAt, 8), 8), Le(Unsigned(h.ttl, 8), 8), Le(Unsigned(h.attempt, 4), 4),
          Le(h.payloadLen, 4), [], Numbers(h));
  }

  lemma NamesRead(h: Header)
    requires Sized(h)
    ensures var b := Names(h);
      && b[..32] == h.topic && b[32..48] == h.id && b[48..64] == h.correlation
      && b[64..80] == h.causation && b[80..112] == h.origin
  {
    Parts(h.topic, h.id, h.correlation, h.causation, h.origin, Names(h));
  }

  /** A packed header seen through the struct is the header, whatever follows it. */
  lemma CastPacked(h: Header, rest: Bytes)
    requires Sized(h)
    ensures Cast(Packed(h) + rest) == h
  {
    NamesRead(h);
    NumbersRead(h);
    assert Packed(h) == Names(h) + Numbers(h) + Zeros(RESERVED);
    hide *;
    var b := Packed(h) + rest;
    Associate(Names(h), Numbers(h), Zeros(RESERVED), rest);
    CastParts(b, Names(h), Numbers(h), Zeros(RESERVED) + rest);
  }

  /** Cast in terms of the two halves of the header. */
  lemma CastParts(b: Bytes, x: Bytes, n: Bytes, rest: Bytes)
    requires |b| >= HEADER && |x| == 112 && |n| == 24 && b == x + n + rest
    ensures Cast(b) == Header(x[..32], x[32..48], x[48..64], x[64..80], x[80..112],
                              Signed(FromLe(n[..8]), 8), Signed(FromLe(n[8..16]), 8), Signed(FromLe(n[16..20]), 4),
                              FromLe(n[20..]))
  {
    hide Signed, FromLe, Pow256;
    Parts(x, n, rest, [], [], b);
    Sub(b, 112, 136, 0, 8);
    Sub(b, 112, 136, 8, 16);
    Sub(b, 112, 136, 16, 20);
    Sub(b, 112, 136, 20, 24);
    Sub(b, 0, 112, 0, 32);
    Sub(b, 0, 112, 32, 48);
    Sub(b, 0, 112, 48, 64);
    Sub(b, 0, 112, 64, 80);
    Sub(b, 0, 112, 80, 112);
  }

  /** Nothing but the reserved bytes is lost by reading a header and writing it back. */
  lemma PackedCast(b: Bytes)
    requires |b| >= HEADER
    ensures Packed(Cast(b)) == b[..136] + Zeros(RESERVED)
  {
    LeWrites(b[112..120]);
    LeWrites(b[120..128]);
    LeWrites(b[128..132]);
    LeWrites(b[132..136]);
    hide Le, FromLe, Signed, Unsigned, Pow256, Zeros;
    Rejoined(b, 32, 48, 64, 80, 112);
    Rejoined(b[112..136], 8, 16, 20, 24, 24);
    Sub(b, 112, 136, 0, 8);
    Sub(b, 112, 136, 8, 16);
    Sub(b, 112, 136, 16, 20);
    Sub(b, 112, 136, 20, 24);
    assert b[..112] + b[112..136] == b[..136];
  }

  // ---- bytes, one by one ----

  /** Four bytes as a number, least significant first. */
  function Quad(a: int, b: int, c: int, d: int): int {
    a + 0x100 * b + 0x1_0000 * c + 0x100_0000 * d
  }

  /** Eight bytes as a signed number, least significant first. */
  function SignedAt(b: Bytes, i: nat): int
    requires i + 8 <= |b|
  {
    var u := Quad(b[i], b[i + 1], b[i + 2], b[i + 3])
      + 0x1_0000_0000 * Quad(b[i + 4], b[i + 5], b[i + 6], b[i + 7]);
    if u < 0x8000_0000_0000_0000 then u else u - 0x1_0000_0000_0000_0000
  }

  lemma FourMore(b: Bytes)
    requires |b| >= 4
    ensures FromLe(b) == Quad(b[0], b[1], b[2], b[3]) + 0x1_0000_0000 * FromLe(b[4..])
  {
    assert b[1..][1..] == b[2..] && b[2..][1..] == b[3..] && b[3..][1..] == b[4..];
    assert FromLe(b[3..]) == b[3] + 256 * FromLe(b[4..]) && FromLe(b[2..]) == b[2] + 256 * FromLe(b[3..]);
    assert FromLe(b[1..]) == b[1] + 256 * FromLe(b[2..]);
  }

  lemma EightBytes(b: Bytes)
    requires |b| == 8
    ensures FromLe(b) == Quad(b[0], b[1], b[2], b[3]) + 0x1_0000_0000 * Quad(b[4], b[5], b[6], b[7])
  {
    FourMore(b);
    FourMore(b[4..]);
    assert FromLe(b[4..][4..]) == 0;
    hide FromLe, Quad;
  }

  lemma ReadSigned(body: Bytes, at: nat)
    requires at + 8 <= |body|
    ensures FromLe(body[at..at + 8]) < Pow256(8)
    ensures Signed(FromLe(body[at..at + 8]), 8) == SignedAt(body, at)
  {
    var b := body[at..at + 8];
    EightBytes(b);
    Widths();
    hide FromLe, Pow256, Quad;
  }

  lemma ReadQuad(b: Bytes, i: nat)
    requires i + 4 <= |b|
    ensures FromLe(b[i..i + 4]) == Quad(b[i], b[i + 1], b[i + 2], b[i + 3])
  {
    FourMore(b[i..i + 4]);
    assert FromLe(b[i..i + 4][4..]) == 0;
    hide FromLe, Quad;
  }

  /** Where every field of a header is on the wire, in a frame with anything behind it. */
  lemma FieldOffsets(h: Header, rest: Bytes)
    requires Sized(h)
    ensures var b := Packed(h) + rest;
      && |Packed(h)| == 256
      && b[..32] == h.topic && b[32..48] == h.id && b[48..64] == h.correlation && b[64..80] == h.causation
      && b[80..112] == h.origin && SignedAt(b, 112) == h.emittedAt && SignedAt(b, 120) == h.ttl
      && (var u := Quad(b[128], b[129], b[130], b[131]);
          h.attempt == if u < 0x8000_0000 then u else u - 0x1_0000_0000)
      && Quad(b[132], b[133], b[134], b[135]) == h.payloadLen
      && forall i :: 136 <= i < 256 ==> b[i] == 0
  {
    var b := Packed(h) + rest;
    CastPacked(h, rest);
    assert Cast(b) == h;
    ReadSigned(b, 112);
    ReadSigned(b, 120);
    ReadQuad(b, 128);
    ReadQuad(b, 132);
    Widths();
    PackedLength(h);
    FieldsOf(b);
    hide Cast, Packed, FromLe, Pow256, Quad, SignedAt, Zeros;
  }

  lemma PackedLength(h: Header)
    requires Sized(h)
    ensures |Packed(h)| == 256 && forall i :: 136 <= i < 256 ==> Packed(h)[i] == 0
  {
    assert Packed(h) == Names(h) + Numbers(h) + Zeros(RESERVED);
    assert |Names(h)| == 112 && |Numbers(h)| == 24;
  }

  lemma FieldsOf(b: Bytes)
    requires |b| >= 256
    ensures var h := Cast(b);
      && h.topic == b[..32] && h.id == b[32..48] && h.correlation == b[48..64] && h.causation == b[64..80]
      && h.origin == b[80..112] && h.emittedAt == Signed(FromLe(b[112..120]), 8)
      && h.ttl == Signed(FromLe(b[120..128]), 8) && h.attempt == Signed(FromLe(b[128..132]), 4)
      && h.payloadLen == FromLe(b[132..136])
  {
    hide Signed, FromLe;
  }

  // ---- building ----

  function Cut31(t: Bytes): Bytes {
    if |t| < TOPIC_FIELD then t else t[..TOPIC_FIELD - 1]
  }

  /** A name in its 32-byte array: at most 31 bytes and zeros to the end. */
  function Field(t: Bytes): (f: Bytes)
    ensures |f| == TOPIC_FIELD && f[31] == 0
  {
    Cut31(t) + Zeros(TOPIC_FIELD - |Cut31(t)|)
  }

  lemma FieldText(t: Bytes)
    requires 0 !in t
    ensures Text(Field(t)) == Cut31(t)
  {
    var n := TOPIC_FIELD - |Cut31(t)|;
    assert Zeros(n) == [0] + Zeros(n - 1);
    assert Field(t) == Cut31(t) + [0] + Zeros(n - 1);
    TextStops(Cut31(t), Zeros(n - 1));
  }

  function Frame(h: Header, payload: Bytes): (f: Bytes)
    requires Sized(h)
    ensures |f| == HEADER + |payload|
  {
    Packed(h) + payload
  }

  /** The header actor_tuple_init leaves: zeroed but for these fields. */
  function InitHeader(topic: Bytes, origin: Bytes, correlation: Option<Bytes>, causation: Option<Bytes>,
                      payloadLen: nat, now: int): Header
  {
    Header(Field(topic), Zeros(ID), IdOr(correlation), IdOr(causation), Field(origin), now, 0, 0, payloadLen)
  }

  function IdOr(id: Option<Bytes>): Bytes {
    if id.Some? then id.value else Zeros(ID)
  }

  predicate IsId(id: Option<Bytes>) {
    id.Some? ==> |id.value| == ID
  }

  /** actor_header_t as actor_tuple_init fills it in. */
  class TupleHeader {
    var topic: Bytes
    var id: Bytes
    var correlation: Bytes
    var causation: Bytes
    var origin: Bytes
    var emittedAt: int
    var ttl: int
    var attempt: int
    var payloadLen: nat

    constructor ()
      ensures Sized(Value())
    {
      topic, origin := Zeros(TOPIC_FIELD), Zeros(TOPIC_FIELD);
      id, correlation, causation := Zeros(ID), Zeros(ID), Zeros(ID);
      emittedAt, ttl, attempt, payloadLen := 0, 0, 0, 0;
      new;
      Widths();
    }

    function Value(): Header
      reads this
    {
      Header(topic, id, correlation, causation, origin, emittedAt, ttl, attempt, payloadLen)
    }

    /** actor_tuple_init, with the clock reading as a parameter; names are C strings. */
    method Init(name: Bytes, from: Bytes, corr: Option<Bytes>, caus: Option<Bytes>, len: nat, now: int)
      requires 0 !in name && 0 !in from && IsId(corr) && IsId(caus)
      requires len < Pow256(4) && FitsSigned(now, 8)
      modifies this
      ensures Value() == InitHeader(name, from, corr, caus, len, now) && Sized(Value())
    {
      id, correlation, causation := Zeros(ID), Zeros(ID), Zeros(ID);
      ttl, attempt := 0, 0;
      topic := Field(name);
      origin := Field(from);
      if corr.Some? { correlation := corr.value; }
      if caus.Some? { causation := caus.value; }
      payloadLen := len;
      emittedAt := now;
      Widths();
    }
  }

  /** Milliseconds to nanoseconds, truncated toward zero. */
  function TtlNanos(ms: real): int {
    if ms >= 0.0 then (ms * 1000000.0).Floor else -((-ms * 1000000.0).Floor)
  }

  /** The header buildFrame fills in: no causation, emitted_at left zero. */
  function BrowserHeader(topic: Bytes, origin: Bytes, id: Bytes, correlation: Bytes, len: nat, ttlMs: real): Header {
    Header(Field(topic), id, correlation, Zeros(ID), Field(origin), 0, TtlNanos(ttlMs), 0, len)
  }

  /** Header and payload copied one after the other into a buffer. */
  method Assemble(h: Header, payload: Bytes, output: array<Byte>) returns (n: nat)
    requires Sized(h) && HEADER + |payload| <= output.Length
    modifies output
    ensures n == HEADER + |payload|
    ensures output[..n] == Frame(h, payload) && output[n..] == old(output[n..])
  {
    assert Frame(h, payload) == Packed(h) + payload;
    hide *;
    ghost var was := output[..];
    Copy(output, 0, Packed(h));
    ghost var mid := output[..];
    Copy(output, HEADER, payload);
    n := HEADER + |payload|;
    Pieces(was, mid, output[..], Packed(h), payload);
  }

  /** buildFrame. */
  method BuildFrame(topic: Bytes, origin: Bytes, id: Bytes, correlation: Bytes, payload: Bytes, ttlMs: real,
                    output: array<Byte>)
    returns (n: nat)
    requires |id| == ID && |correlation| == ID && FitsSigned(TtlNanos(ttlMs), 8)
    requires 2 * (HEADER + |payload|) < Pow256(4) && HEADER + |payload| <= output.Length
    modifies output
    ensures n == HEADER + |payload|
    ensures var h := BrowserHeader(topic, origin, id, correlation, |payload|, ttlMs);
      Sized(h) && output[..n] == Frame(h, payload)
    ensures output[n..] == old(output[n..])
  {
    Widths();
    var h := Header(Field([]), Zeros(ID), Zeros(ID), Zeros(ID), Field([]), 0, 0, 0, 0);
    h := h.(topic := Field(topic));
    h := h.(id := id);
    h := h.(correlation := correlation);
    h := h.(origin := Field(origin));
    h := h.(ttl := TtlNanos(ttlMs));
    h := h.(payloadLen := |payload|);
    hide *;
    n := Assemble(h, payload, output);
  }

  // ---- parsing ----

  /** parseTopic's answer as the C string the caller reads. */
  function TopicIn(frame: Bytes): Bytes {
    if |frame| < HEADER then [] else Text(frame[..TOPIC_FIELD] + [0])
  }

  function IdAt(frame: Bytes, at: nat): (id: Bytes)
    requires at + ID <= HEADER
    ensures |id| == ID
  {
    if |frame| < HEADER then Zeros(ID) else frame[at..at + ID]
  }

  function PayloadIn(frame: Bytes): (p: Bytes)
    ensures |frame| >= HEADER ==> |p| <= |frame| - HEADER
  {
    if |frame| < HEADER then [] else
      var n := FromLe(frame[132..136]);
      frame[HEADER..HEADER + if n > |frame| - HEADER then |frame| - HEADER else n]
  }

  method ParseTopic(frame: Bytes, out: array<Byte>)
    requires out.Length >= 33
    modifies out
    ensures Text(out[..]) == TopicIn(frame)
    ensures out[33..] == old(out[33..])
  {
    if |frame| < HEADER {
      out[0] := 0;
      return;
    }
    Copy(out, 0, frame[..TOPIC_FIELD]);
    assert out[..TOPIC_FIELD] == frame[..TOPIC_FIELD];
    out[TOPIC_FIELD] := 0;
    var t := frame[..TOPIC_FIELD] + [0];
    assert out[..] == t + out[33..];
    TextOfPrefix(t, out[33..]);
  }

  lemma {:induction false} TextOfPrefix(t: Bytes, rest: Bytes)
    requires 0 in t
    ensures Text(t + rest) == Text(t)
  {
    if t[0] != 0 {
      assert 0 in t[1..];
      assert (t + rest)[1..] == t[1..] + rest;
      TextOfPrefix(t[1..], rest);
    }
  }

  /** parseId, parseCorrelationId and parseCausationId, which differ in the offset only. */
  method ParseId(frame: Bytes, at: nat, out: array<Byte>)
    requires at in {32, 48, 64} && out.Length >= ID
    modifies out
    ensures out[..ID] == IdAt(frame, at) && out[ID..] == old(out[ID..])
  {
    if |frame| < HEADER {
      Copy(out, 0, Zeros(ID));
      return;
    }
    Copy(out, 0, frame[at..at + ID]);
  }

  method ParsePayload(frame: Bytes, out: array<Byte>) returns (n: nat)
    requires HEADER + out.Length >= |frame| && |frame| < Pow256(4)
    modifies out
    ensures n == |PayloadIn(frame)| && n <= out.Length
    ensures out[..n] == PayloadIn(frame) && out[n..] == old(out[n..])
  {
    if |frame| < HEADER {
      return 0;
    }
    n := FromLe(frame[132..136]);
    if n > |frame| - HEADER {
      n := |frame| - HEADER;
    }
    Copy(out, 0, frame[HEADER..HEADER + n]);
  }

  // ---- round trips ----

  /** Every field of a frame reads back, and so does as much of the payload as arrived. */
  lemma FrameReads(h: Header, payload: Bytes, k: nat)
    requires Sized(h) && h.payloadLen == |payload| && HEADER <= k <= HEADER + |payload|
    ensures var f := Frame(h, payload)[..k];
      && Cast(f) == h && PayloadIn(f) == payload[..k - HEADER]
      && IdAt(f, 32) == h.id && IdAt(f, 48) == h.correlation && IdAt(f, 64) == h.causation
      && TopicIn(f) == Text(h.topic + [0])
  {
    var f := Frame(h, payload)[..k];
    assert f == Packed(h) + payload[..k - HEADER];
    CastPacked(h, payload[..k - HEADER]);
    hide Packed, Sized, Signed, Text, FromLe;
    assert FromLe(f[132..136]) == Cast(f).payloadLen;
    assert f[HEADER..] == payload[..k - HEADER];
  }

  /** What buildFrame wrote, the parsers return: the topic cut to 31 bytes, the ids, no causation,
      and the whole payload. */
  lemma BuiltFrameReads(topic: Bytes, origin: Bytes, id: Bytes, correlation: Bytes, payload: Bytes, ttlMs: real)
    requires 0 !in topic && |id| == ID && |correlation| == ID && FitsSigned(TtlNanos(ttlMs), 8)
    requires |payload| < Pow256(4)
    ensures var h := BrowserHeader(topic, origin, id, correlation, |payload|, ttlMs);
      Sized(h) &&
      var f := Frame(h, payload);
      && TopicIn(f) == Cut31(topic) && PayloadIn(f) == payload
      && IdAt(f, 32) == id && IdAt(f, 48) == correlation && IdAt(f, 64) == Zeros(ID)
  {
    Widths();
    var h := BrowserHeader(topic, origin, id, correlation, |payload|, ttlMs);
    assert Sized(h) && h.topic == Field(topic) && h.id == id && h.correlation == correlation;
    assert h.causation == Zeros(ID) && h.payloadLen == |payload|;
    hide *;
    FrameReads(h, payload, HEADER + |payload|);
    var f := Frame(h, payload);
    assert f[..HEADER + |payload|] == f;
    FieldText(topic);
    TextOfPrefix(Field(topic), [0]);
    assert payload[..|payload|] == payload;
  }

  /** A frame's text, up to its first zero, is its topic cut to 31 bytes. */
  lemma FrameText(h: Header, topic: Bytes, payload: Bytes)
    requires Sized(h) && 0 !in topic && h.topic == Field(topic)
    ensures 0 in Frame(h, payload) && Text(Frame(h, payload)) == Cut31(topic)
  {
    var f := Frame(h, payload);
    assert f == h.topic + f[32..] by { CastPacked(h, payload); }
    assert h.topic[31] == 0;
    FieldText(topic);
    TextOfPrefix(h.topic, f[32..]);
  }

  // ---- expiry ----

  /** actor_tuple_expired, for a clock reading. */
  predicate Expired(h: Header, now: int) {
    h.ttl != 0 && now > h.emittedAt + h.ttl
  }
}
