/** serve_once and process_tuple: one message from receipt to its outcome. */
module Retry {
  import opened Bytes
  import opened Wire

  const PAYLOAD_CAP: nat := 1024 * 1024
  const BACKOFF: nat := 100_000_000
  const SECOND: nat := 1_000_000_000

  /** What invoke_handler reports: a length with the output, -2, or -1. */
  datatype Run = Output(bytes: Bytes) | TooBig | Failed

  datatype Reason = TtlExpired | PayloadCapExceeded | ResultCapExceeded | MaxRetriesExceeded

  datatype Event =
    | PutInbox
    | Invoked(run: Run)
    | Result(bytes: Bytes)
    | Rejection(reason: Reason)
    | Backoff(nanos: nat)
    | DeleteInbox

  /** What follows one run of the handler. */
  datatype Next = Publish(bytes: Bytes) | Finish | Reject(reason: Reason) | Again

  function Decide(run: Run, attempt: nat, retryMax: int): Next {
    match run
    case Output(bytes) => if bytes == [] then Finish else Publish(bytes)
    case TooBig => Reject(ResultCapExceeded)
    case Failed => if attempt + 1 > retryMax then Reject(MaxRetriesExceeded) else Again
  }

  /** The retry loop from an attempt on; answers gives each run's report. */
  function Attempts(answers: nat -> Run, retryMax: int, attempt: nat): seq<Event>
    decreases retryMax - attempt
  {
    if attempt > retryMax then [] else
      var run := answers(attempt);
      var next := Decide(run, attempt, retryMax);
      if next.Again? then
        [Invoked(run), Backoff(BACKOFF * Pow2(attempt))] + Attempts(answers, retryMax, attempt + 1)
      else [Invoked(run)] + Ending(next)
  }

  /** What the loop does after its last run. */
  function Ending(next: Next): seq<Event> {
    match next
    case Publish(bytes) => [Result(bytes)]
    case Reject(reason) => [Rejection(reason)]
    case _ => []
  }

  function Processed(payloadLen: nat, answers: nat -> Run, retryMax: int): seq<Event> {
    if payloadLen > PAYLOAD_CAP then [Rejection(PayloadCapExceeded)]
    else [PutInbox] + Attempts(answers, retryMax, 0) + [DeleteInbox]
  }

  /** serve_once, for a message and a clock reading. */
  function Served(body: Bytes, now: int, answers: nat -> Run, retryMax: int): seq<Event> {
    if |body| < HEADER then []
    else if Expired(Cast(body), now) then [Rejection(TtlExpired)]
    else Processed(|body| - HEADER, answers, retryMax)
  }

  /** process_tuple; the log is what it does, in order. */
  method ProcessTuple(payloadLen: nat, answers: nat -> Run, retryMax: int) returns (log: seq<Event>)
    ensures log == Processed(payloadLen, answers, retryMax)
  {
    if payloadLen > PAYLOAD_CAP {
      return [Rejection(PayloadCapExceeded)];
    }
    log := [PutInbox];
    var attempt: nat, backoff: nat := 0, BACKOFF;
    ghost var want := [PutInbox] + Attempts(answers, retryMax, 0);
    while attempt <= retryMax
      invariant backoff == BACKOFF * Pow2(attempt)
      invariant want == log + Attempts(answers, retryMax, attempt)
      decreases retryMax - attempt
    {
      var run := answers(attempt);
      AttemptStep(answers, retryMax, attempt, log);
      log := log + [Invoked(run)];
      match run
      case Output(bytes) =>
        if |bytes| > 0 {
          log := log + [Result(bytes)];
        }
        return log + [DeleteInbox];
      case TooBig =>
        return log + [Rejection(ResultCapExceeded)] + [DeleteInbox];
      case Failed =>
        attempt := attempt + 1;
        if attempt > retryMax {
          return log + [Rejection(MaxRetriesExceeded)] + [DeleteInbox];
        }
        log := log + [Backoff(backoff)];
        backoff := 2 * backoff;
    }
    assert log + [] == log;
    log := log + [DeleteInbox];
  }

  lemma OneMore<T>(log: seq<T>, x: T, later: seq<T>)
    ensures log + ([x] + later) == log + [x] + later
  {
  }

  lemma TwoMore<T>(log: seq<T>, x: T, y: T, later: seq<T>)
    ensures log + ([x, y] + later) == log + [x] + [y] + later == log + [x, y] + later
  {
  }

  /** One turn of the loop, appended to a log. */
  lemma AttemptStep(answers: nat -> Run, retryMax: int, attempt: nat, log: seq<Event>)
    requires attempt <= retryMax
    ensures var run := answers(attempt);
      var next := Decide(run, attempt, retryMax);
      log + Attempts(answers, retryMax, attempt) ==
        if next.Again? then
          log + [Invoked(run)] + [Backoff(BACKOFF * Pow2(attempt))] + Attempts(answers, retryMax, attempt + 1)
        else if next.Finish? then log + [Invoked(run)]
        else log + [Invoked(run)] + Ending(next)
  {
    var run := answers(attempt);
    var next := Decide(run, attempt, retryMax);
    var backoff, later := Backoff(BACKOFF * Pow2(attempt)), Attempts(answers, retryMax, attempt + 1);
    assert Attempts(answers, retryMax, attempt) ==
      if next.Again? then [Invoked(run), backoff] + later else [Invoked(run)] + Ending(next);
    hide Attempts, Pow2, Decide;
    TwoMore(log, Invoked(run), backoff, later);
    OneMore(log, Invoked(run), Ending(next));
  }

  /** serve_once, after a message has been received. */
  method ServeOnce(body: Bytes, now: int, answers: nat -> Run, retryMax: int) returns (log: seq<Event>)
    ensures log == Served(body, now, answers, retryMax)
  {
    if |body| < HEADER {
      return [];
    }
    var hdr := Cast(body);
    if Expired(hdr, now) {
      return [Rejection(TtlExpired)];
    }
    log := ProcessTuple(|body| - HEADER, answers, retryMax);
  }

  // ---- what a log amounts to ----

  function Invocations(log: seq<Event>): nat {
    if log == [] then 0 else (if log[0].Invoked? then 1 else 0) + Invocations(log[1..])
  }

  /** A result, a rejection, or a run that ended well with nothing to say. */
  predicate IsOutcome(e: Event) {
    e.Result? || e.Rejection? || e == Invoked(Output([]))
  }

  function Outcomes(log: seq<Event>): nat {
    if log == [] then 0 else (if IsOutcome(log[0]) then 1 else 0) + Outcomes(log[1..])
  }

  /** Nanoseconds asked for. */
  function Requested(log: seq<Event>): nat {
    if log == [] then 0 else (if log[0].Backoff? then log[0].nanos else 0) + Requested(log[1..])
  }

  /** nanosleep refuses a tv_nsec of a second or more, and then does not sleep. */
  function Slept(log: seq<Event>): nat {
    if log == [] then 0
    else (if log[0].Backoff? && log[0].nanos < SECOND then log[0].nanos else 0) + Slept(log[1..])
  }

  lemma {:induction false} Sums(a: seq<Event>, b: seq<Event>)
    ensures Invocations(a + b) == Invocations(a) + Invocations(b) && Outcomes(a + b) == Outcomes(a) + Outcomes(b)
    ensures Requested(a + b) == Requested(a) + Requested(b) && Slept(a + b) == Slept(a) + Slept(b)
  {
    if a == [] {
      assert a + b == b;
    } else {
      assert (a + b)[1..] == a[1..] + b;
      Sums(a[1..], b);
    }
  }

  function Least(a: int, b: int): int {
    if a < b then a else b
  }

  /** The failures before the run that decides: what k failed attempts leave in the log. */
  function Failures(k: nat): seq<Event> {
    if k == 0 then [] else Failures(k - 1) + [Invoked(Failed), Backoff(BACKOFF * Pow2(k - 1))]
  }

  lemma OneFailure(n: nat)
    ensures var log := [Invoked(Failed), Backoff(n)];
      && Invocations(log) == 1 && Outcomes(log) == 0
      && Requested(log) == n && Slept(log) == if n < SECOND then n else 0
  {
    assert [Invoked(Failed)] + [Backoff(n)] == [Invoked(Failed), Backoff(n)];
    assert [Invoked(Failed)][1..] == [] && [Backoff(n)][1..] == [];
    Sums([Invoked(Failed)], [Backoff(n)]);
  }

  lemma {:induction false} FailuresSum(k: nat)
    ensures Invocations(Failures(k)) == k && Outcomes(Failures(k)) == 0
    ensures Requested(Failures(k)) == BACKOFF * (Pow2(k) - 1)
    ensures Slept(Failures(k)) == BACKOFF * (Pow2(Least(k, 4)) - 1)
  {
    if k > 0 {
      var n := BACKOFF * Pow2(k - 1);
      FailuresSum(k - 1);
      OneFailure(n);
      DoubledGrows(k - 1);
      assert k - 1 < 4 ==> Least(k, 4) == k;
      hide Invocations, Outcomes, Requested, Slept;
      Sums(Failures(k - 1), [Invoked(Failed), Backoff(n)]);
    }
  }

  lemma {:induction false} DoubledGrows(k: nat)
    ensures Pow2(0) == 1 && Pow2(1) == 2 && Pow2(2) == 4 && Pow2(3) == 8 && Pow2(4) == 16
    ensures k >= 4 ==> Pow2(k) >= 16
  {
    if k > 4 { DoubledGrows(k - 1); }
  }

  lemma FailuresGrow(k: nat)
    ensures Failures(k) == if k == 0 then [] else Failures(k - 1) + [Invoked(Failed), Backoff(BACKOFF * Pow2(k - 1))]
  {
    hide Pow2;
  }

  /** With k failures behind it the loop goes on from attempt k. */
  lemma {:induction false} AfterFailures(answers: nat -> Run, retryMax: int, k: nat)
    requires k <= retryMax && forall i: nat :: i < k ==> answers(i) == Failed
    ensures Attempts(answers, retryMax, 0) == Failures(k) + Attempts(answers, retryMax, k)
  {
    FailuresGrow(k);
    hide Attempts, Failures, Pow2;
    if k > 0 {
      AfterFailures(answers, retryMax, k - 1);
      AttemptStep(answers, retryMax, k - 1, Failures(k - 1));
      assert Decide(answers(k - 1), k - 1, retryMax).Again?;
      TwoMore(Failures(k - 1), Invoked(Failed), Backoff(BACKOFF * Pow2(k - 1)), Attempts(answers, retryMax, k));
    } else {
      assert [] + Attempts(answers, retryMax, 0) == Attempts(answers, retryMax, 0);
    }
  }

  /** The attempt that decides: the first that does not fail, or the last allowed. */
  function Deciding(answers: nat -> Run, retryMax: int, i: nat): (k: nat)
    requires i <= retryMax
    requires forall j: nat :: j < i ==> answers(j) == Failed
    ensures i <= k <= retryMax && (forall j: nat :: j < k ==> answers(j) == Failed)
    ensures answers(k) != Failed || k == retryMax
    decreases retryMax - i
  {
    if answers(i) != Failed || i == retryMax then i else Deciding(answers, retryMax, i + 1)
  }

  /** How the loop ends, given the run that decides. */
  function Verdict(run: Run): seq<Event> {
    match run
    case Output(bytes) => if bytes == [] then [] else [Result(bytes)]
    case TooBig => [Rejection(ResultCapExceeded)]
    case Failed => [Rejection(MaxRetriesExceeded)]
  }

  /** The whole loop: failures, each with its backoff, then one run and what it decides. */
  lemma LoopShape(answers: nat -> Run, retryMax: int)
    requires retryMax >= 0
    ensures var k := Deciding(answers, retryMax, 0);
      Attempts(answers, retryMax, 0) == Failures(k) + [Invoked(answers(k))] + Verdict(answers(k))
  {
    var k := Deciding(answers, retryMax, 0);
    AfterFailures(answers, retryMax, k);
    AttemptStep(answers, retryMax, k, Failures(k));
    hide Failures, Attempts, Deciding;
  }

  /** A message within the cap is run at most retry_max + 1 times, and exactly one outcome comes of
      it whatever the handler does, if and only if retry_max is not negative: with a negative one
      it leaves no trace. */
  lemma OneOutcomeExactly(payloadLen: nat, answers: nat -> Run, retryMax: int)
    requires payloadLen <= PAYLOAD_CAP
    ensures var log := Processed(payloadLen, answers, retryMax);
      && Outcomes(log) <= 1 && (Outcomes(log) == 1 <==> retryMax >= 0)
      && (retryMax >= 0 ==> 1 <= Invocations(log) == Deciding(answers, retryMax, 0) + 1 <= retryMax + 1)
      && (retryMax < 0 ==> log == [PutInbox, DeleteInbox])
  {
    var loop := Attempts(answers, retryMax, 0);
    hide Attempts, Deciding;
    Wrapped(loop);
    if retryMax >= 0 {
      DecidedSum(answers, retryMax);
    } else {
      NoAttempts(answers, retryMax);
    }
  }

  lemma NoAttempts(answers: nat -> Run, retryMax: int)
    requires retryMax < 0
    ensures Attempts(answers, retryMax, 0) == []
  {
  }

  lemma DecidedSum(answers: nat -> Run, retryMax: int)
    requires retryMax >= 0
    ensures var loop, k := Attempts(answers, retryMax, 0), Deciding(answers, retryMax, 0);
      && Outcomes(loop) == 1 && Invocations(loop) == k + 1
      && Requested(loop) == BACKOFF * (Pow2(k) - 1) && Slept(loop) == BACKOFF * (Pow2(Least(k, 4)) - 1)
  {
    var k := Deciding(answers, retryMax, 0);
    LoopShape(answers, retryMax);
    FailuresSum(k);
    hide Attempts, Deciding, Failures, Pow2;
    var run, end := answers(k), Verdict(answers(k));
    VerdictSum(run);
    hide Invocations, Outcomes, Requested, Slept;
    Sums(Failures(k) + [Invoked(run)], end);
    Sums(Failures(k), [Invoked(run)]);
  }

  /** The deciding run and its verdict are one invocation and one outcome. */
  lemma VerdictSum(run: Run)
    ensures Invocations([Invoked(run)]) == 1 && Invocations(Verdict(run)) == 0
    ensures Outcomes([Invoked(run)]) + Outcomes(Verdict(run)) == 1
    ensures Requested([Invoked(run)]) == Requested(Verdict(run)) == 0
    ensures Slept([Invoked(run)]) == Slept(Verdict(run)) == 0
  {
    assert [Invoked(run)][1..] == [];
    assert Verdict(run) != [] ==> Verdict(run)[1..] == [];
  }

  /** Giving up means that all retry_max + 1 runs failed, and then 100 ms * (2^retry_max - 1) of
      backoff were asked for; nanosleep grants them all exactly when retry_max is at most 4, and
      from then on no more than 1.5 s are ever slept. */
  lemma GivingUp(payloadLen: nat, answers: nat -> Run, retryMax: int)
    requires payloadLen <= PAYLOAD_CAP && retryMax >= 0
    ensures var log := Processed(payloadLen, answers, retryMax);
      && (Rejection(MaxRetriesExceeded) in log <==> forall i: nat :: i <= retryMax ==> answers(i) == Failed)
      && (Rejection(MaxRetriesExceeded) in log ==>
            && Invocations(log) == retryMax + 1
            && Requested(log) == BACKOFF * (Pow2(retryMax) - 1)
            && Slept(log) == BACKOFF * (Pow2(Least(retryMax, 4)) - 1)
            && (Slept(log) == Requested(log) <==> retryMax <= 4))
  {
    var k, loop := Deciding(answers, retryMax, 0), Attempts(answers, retryMax, 0);
    LoopShape(answers, retryMax);
    NoRejection(k);
    DecidedSum(answers, retryMax);
    GrantedExactly(retryMax);
    Wrapped(loop);
    hide Attempts, Deciding, Failures, Pow2, Invocations, Requested, Slept, Least;
    var log := [PutInbox] + loop + [DeleteInbox];
    assert Rejection(MaxRetriesExceeded) in Verdict(answers(k)) <==> answers(k) == Failed;
    assert Rejection(MaxRetriesExceeded) in loop <==> answers(k) == Failed;
    assert Rejection(MaxRetriesExceeded) in log <==> answers(k) == Failed;
    assert answers(k) == Failed ==> k == retryMax;
  }

  /** The inbox writes around the loop count for nothing. */
  lemma Wrapped(loop: seq<Event>)
    ensures var log := [PutInbox] + loop + [DeleteInbox];
      && Invocations(log) == Invocations(loop) && Outcomes(log) == Outcomes(loop)
      && Requested(log) == Requested(loop) && Slept(log) == Slept(loop)
  {
    Sums([PutInbox] + loop, [DeleteInbox]);
    Sums([PutInbox], loop);
    assert [PutInbox][1..] == [] && [DeleteInbox][1..] == [];
  }

  lemma {:induction false} NoRejection(k: nat)
    ensures forall e :: e in Failures(k) ==> !e.Rejection?
  {
    if k > 0 { NoRejection(k - 1); }
  }

  lemma {:induction false} DoubledStrict(k: nat)
    ensures k > 4 ==> Pow2(k) > 16
  {
    DoubledGrows(k);
    if k > 5 { DoubledStrict(k - 1); }
  }

  lemma GrantedExactly(k: nat)
    ensures BACKOFF * (Pow2(Least(k, 4)) - 1) == BACKOFF * (Pow2(k) - 1) <==> k <= 4
  {
    DoubledGrows(k);
    DoubledStrict(k);
  }

  /** Every message long enough to hold a header gets exactly one outcome, unless retry_max is
      negative and neither the clock nor the cap refuses it first; shorter ones get none. */
  lemma EveryMessageAnswered(body: Bytes, now: int, answers: nat -> Run, retryMax: int)
    ensures Outcomes(Served(body, now, answers, retryMax)) <= 1
    ensures Outcomes(Served(body, now, answers, retryMax)) == 1 <==>
      |body| >= HEADER && (Expired(Cast(body), now) || |body| - HEADER > PAYLOAD_CAP || retryMax >= 0)
  {
    if |body| >= HEADER && |body| - HEADER <= PAYLOAD_CAP {
      OneOutcomeExactly(|body| - HEADER, answers, retryMax);
    }
  }

  // ---- the order of a log ----

  predicate IsInbox(e: Event) {
    e.PutInbox? || e.DeleteInbox?
  }

  /** What may stand directly behind an event within the retry loop, given whether it is its last run:
      a run is followed by what it decides and by nothing else. */
  predicate Follows(e: Event, next: Event) {
    match e
    case Invoked(Output(bytes)) => if bytes == [] then next.DeleteInbox? else next == Result(bytes)
    case Invoked(TooBig) => next == Rejection(ResultCapExceeded)
    case Invoked(Failed) => next.Backoff? || next == Rejection(MaxRetriesExceeded)
    case Backoff(_) => next.Invoked?
    case Result(_) => next.DeleteInbox?
    case Rejection(_) => next.DeleteInbox?
    case PutInbox => next.Invoked? || next.DeleteInbox?
    case DeleteInbox => false
  }

  /** What may stand directly before an event: a result rests on the run before it, and so does a
      rejection. */
  predicate RestsOn(e: Event, before: Event) {
    match e
    case Result(bytes) => bytes != [] && before == Invoked(Output(bytes))
    case Rejection(ResultCapExceeded) => before == Invoked(TooBig)
    case Rejection(MaxRetriesExceeded) => before == Invoked(Failed)
    case Rejection(_) => false
    case Backoff(_) => before == Invoked(Failed)
    case Invoked(_) => before.PutInbox? || before.Backoff?
    case _ => true
  }

  ghost predicate InOrder(log: seq<Event>) {
    && (forall i :: 0 <= i < |log| - 1 ==> Follows(log[i], log[i + 1]) && RestsOn(log[i + 1], log[i]))
  }

  /** The loop's events hang together when put between what is before it and the delete behind it. */
  lemma {:induction false} LoopInOrder(answers: nat -> Run, retryMax: int, attempt: nat, before: Event)
    requires before.Backoff? || before.PutInbox?
    requires attempt <= retryMax || before.PutInbox?
    ensures InOrder([before] + Attempts(answers, retryMax, attempt) + [DeleteInbox])
    ensures forall e :: e in Attempts(answers, retryMax, attempt) ==> !IsInbox(e)
    decreases retryMax - attempt
  {
    if attempt <= retryMax {
      var run := answers(attempt);
      var next := Decide(run, attempt, retryMax);
      var loop := Attempts(answers, retryMax, attempt);
      if next.Again? {
        var wait := Backoff(BACKOFF * Pow2(attempt));
        var later := Attempts(answers, retryMax, attempt + 1);
        LoopInOrder(answers, retryMax, attempt + 1, wait);
        assert loop == [Invoked(run), wait] + later && run == Failed;
        hide Attempts, Decide, Pow2;
        assert [before] + loop + [DeleteInbox] == [before, Invoked(run)] + ([wait] + later + [DeleteInbox]);
        OrderBefore(before, Invoked(run), [wait] + later + [DeleteInbox]);
      } else {
        assert loop == [Invoked(run)] + Ending(next);
        hide Attempts, Pow2;
        assert [before] + loop + [DeleteInbox] == [before, Invoked(run)] + (Ending(next) + [DeleteInbox]);
        OrderBefore(before, Invoked(run), Ending(next) + [DeleteInbox]);
      }
    }
  }

  lemma OrderBefore(a: Event, b: Event, later: seq<Event>)
    requires later != [] && InOrder(later) && Follows(a, b) && RestsOn(b, a)
    requires Follows(b, later[0]) && RestsOn(later[0], b)
    ensures InOrder([a, b] + later)
  {
    hide Follows, RestsOn;
    var log := [a, b] + later;
    forall i | 0 <= i < |log| - 1 ensures Follows(log[i], log[i + 1]) && RestsOn(log[i + 1], log[i]) {
      if i >= 2 { assert log[i] == later[i - 2] && log[i + 1] == later[i - 1]; }
    }
  }

  /** A message within the cap is in the inbox from before its first run to behind its last event: the
      log starts with the put and ends with the delete, each occurs once, and in between every result,
      rejection and backoff stands directly behind the run it rests on. */
  lemma InboxBrackets(payloadLen: nat, answers: nat -> Run, retryMax: int)
    requires payloadLen <= 1024 * 1024
    ensures var log := Processed(payloadLen, answers, retryMax);
      && |log| >= 2 && log[0] == PutInbox && log[|log| - 1] == DeleteInbox
      && (forall i :: 0 < i < |log| - 1 ==> !IsInbox(log[i]))
      && InOrder(log)
  {
    LoopInOrder(answers, retryMax, 0, PutInbox);
    var loop := Attempts(answers, retryMax, 0);
    hide Attempts, InOrder;
    var log := [PutInbox] + loop + [DeleteInbox];
    forall i | 0 < i < |log| - 1 ensures !IsInbox(log[i]) {
      assert log[i] == loop[i - 1] && loop[i - 1] in loop;
    }
  }

  /** One over the cap is never stored and never run. */
  lemma OverCap(payloadLen: nat, answers: nat -> Run, retryMax: int)
    requires payloadLen > 1024 * 1024
    ensures var log := Processed(payloadLen, answers, retryMax);
      log == [Rejection(PayloadCapExceeded)] && forall e :: e in log ==> !IsInbox(e) && !e.Invoked?
  {
  }
}
