/** Which messages are refused as expired, read off their bytes. */
module Expiry {
  import opened Bytes
  import opened Options
  import opened Wire
  import opened Publish
  import Retry

  /** serve_once refuses the message as expired, and does nothing else with it. */
  predicate RefusedLate(body: Bytes, clock: int, answers: nat -> Retry.Run, retryMax: int) {
    Retry.Served(body, clock, answers, retryMax) == [Retry.Rejection(Retry.TtlExpired)]
  }

  lemma NeverLater(body: Bytes, answers: nat -> Retry.Run, retryMax: int)
    ensures Retry.Processed(|body|, answers, retryMax) != [Retry.Rejection(Retry.TtlExpired)]
  {
    hide Retry.Attempts;
  }

  /** For any message, whoever built it: it is refused as expired exactly when it holds a header whose
      ttl, bytes 120 to 127, is not zero and the clock has passed its sum with emitted_at, bytes 112 to
      119. */
  lemma RefusedExactly(body: Bytes, clock: int, answers: nat -> Retry.Run, retryMax: int)
    ensures RefusedLate(body, clock, answers, retryMax) <==>
      && |body| >= 256 && SignedAt(body, 120) != 0
      && clock > SignedAt(body, 112) + SignedAt(body, 120)
  {
    if |body| >= 256 {
      ReadSigned(body, 112);
      ReadSigned(body, 120);
      assert Cast(body).emittedAt == Signed(FromLe(body[112..120]), 8);
      assert Cast(body).ttl == Signed(FromLe(body[120..128]), 8);
      NeverLater(body[256..], answers, retryMax);
      hide Signed, FromLe, SignedAt, Retry.Processed;
    }
  }

  /** What is refused at one reading of the clock is refused at every later one. */
  lemma LaterRefusedToo(body: Bytes, clock: int, clock': int, answers: nat -> Retry.Run, retryMax: int)
    requires RefusedLate(body, clock, answers, retryMax) && clock <= clock'
    ensures RefusedLate(body, clock', answers, retryMax)
  {
    RefusedExactly(body, clock, answers, retryMax);
    RefusedExactly(body, clock', answers, retryMax);
    hide RefusedLate, SignedAt;
  }

  /** A result of the runtime: refused exactly when it has a ttl and more than that has passed since it
      was stamped. One without a ttl never expires. */
  lemma ReplyRefused(
    to: Header, topic: Bytes, payload: Bytes, s: Stamp, clock: int, answers: nat -> Retry.Run, retryMax: int)
    requires Sized(to) && StampOk(s) && |payload| < Pow256(4)
    ensures RefusedLate(Reply(to, topic, payload, s), clock, answers, retryMax) <==> s.ttl != 0 && clock > s.now + s.ttl
  {
    ReplyReads(to, topic, payload, s);
    var f := Reply(to, topic, payload, s);
    assert Cast(f).ttl == s.ttl && Cast(f).emittedAt == s.now;
    hide Reply, Cast, Pow256;
    CastRefused(f, clock, answers, retryMax);
  }

  lemma CastRefused(body: Bytes, clock: int, answers: nat -> Retry.Run, retryMax: int)
    requires |body| >= HEADER
    ensures RefusedLate(body, clock, answers, retryMax) <==>
      Cast(body).ttl != 0 && clock > Cast(body).emittedAt + Cast(body).ttl
  {
    NeverLater(body[256..], answers, retryMax);
    hide Cast, Retry.Processed;
  }

  /** Stamping a message d later moves the readings at which it is refused by exactly d. */
  lemma StampedLater(
    to: Header, topic: Bytes, payload: Bytes, s: Stamp, d: int, clock: int,
    answers: nat -> Retry.Run, retryMax: int)
    requires Sized(to) && StampOk(s) && StampOk(s.(now := s.now + d)) && |payload| < Pow256(4)
    ensures RefusedLate(Reply(to, topic, payload, s.(now := s.now + d)), clock + d, answers, retryMax) <==>
      RefusedLate(Reply(to, topic, payload, s), clock, answers, retryMax)
  {
    ReplyRefused(to, topic, payload, s, clock, answers, retryMax);
    ReplyRefused(to, topic, payload, s.(now := s.now + d), clock + d, answers, retryMax);
    hide Reply, RefusedLate, Sized, Pow256, StampOk;
  }

  /** A frame built in a browser, whose emitted_at is left zero: refused exactly when the clock has
      passed its ttl, counted in nanoseconds from zero, unless that is zero. */
  lemma BrowserRefused(
    topic: Bytes, origin: Bytes, id: Bytes, correlation: Bytes, payload: Bytes, ttlMs: real, clock: int,
    answers: nat -> Retry.Run, retryMax: int)
    requires |id| == ID && |correlation| == ID && FitsSigned(TtlNanos(ttlMs), 8) && |payload| < Pow256(4)
    ensures var h := BrowserHeader(topic, origin, id, correlation, |payload|, ttlMs);
      var nanos := if ttlMs < 0.0 then -((-ttlMs * 1000000.0).Floor) else (ttlMs * 1000000.0).Floor;
      Sized(h) && (RefusedLate(Frame(h, payload), clock, answers, retryMax) <==> nanos != 0 && clock > nanos)
  {
    Widths();
    var h := BrowserHeader(topic, origin, id, correlation, |payload|, ttlMs);
    assert Sized(h) && h.emittedAt == 0 && h.ttl == TtlNanos(ttlMs);
    assert TtlNanos(ttlMs) == if ttlMs < 0.0 then -((-ttlMs * 1000000.0).Floor) else (ttlMs * 1000000.0).Floor;
    hide Sized, Pow256, BrowserHeader, TtlNanos;
    CastPacked(h, payload);
    assert Frame(h, payload) == Packed(h) + payload;
    hide Cast, Packed, Frame;
    CastRefused(Frame(h, payload), clock, answers, retryMax);
  }
}
