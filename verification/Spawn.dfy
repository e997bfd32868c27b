/** platform_spawn and the pid-namespace relay: when does a run count as a success? */
module Spawn {
  import opened Bytes

  // ---- wait statuses ----

  /** What a status can report; a stop is never collected without WUNTRACED, but the code has a
      branch for it. */
  datatype End = Exited(code: nat) | Signaled(sig: nat, core: bool) | Stopped(sig: nat)

  predicate Possible(e: End) {
    match e
    case Exited(code) => code < 256
    case Signaled(sig, _) => 1 <= sig <= 126
    case Stopped(sig) => sig < 256
  }

  /** The raw status the kernel stores. */
  function Raw(e: End): (st: int)
    requires Possible(e)
    ensures st >= 0
  {
    match e
    case Exited(code) => 256 * code
    case Signaled(sig, core) => sig + if core then 128 else 0
    case Stopped(sig) => 256 * sig + 127
  }

  predicate IfExited(st: nat) { st % 128 == 0 }

  function ExitStatus(st: nat): nat { st / 256 % 256 }

  predicate IfSignaled(st: nat) { 1 <= st % 128 <= 126 }

  function TermSig(st: nat): nat { st % 128 }

  lemma RawReads(e: End)
    requires Possible(e)
    ensures IfExited(Raw(e)) <==> e.Exited?
    ensures IfSignaled(Raw(e)) <==> e.Signaled?
    ensures e.Exited? ==> ExitStatus(Raw(e)) == e.code
    ensures e.Signaled? ==> TermSig(Raw(e)) == e.sig
  {
    if e.Signaled? && e.core {
      assert (e.sig + 128) % 128 == e.sig;
    }
  }

  // ---- the relay ----

  /** One answer of waitpid(inner): interrupted, failed otherwise, or the status collected. */
  datatype Answer = Eintr | Fails | Collects(end: End)

  /** The exit code of the intermediate process for the answer that ends its loop. */
  function RelayCode(a: Answer): nat
    requires a.Collects? ==> Possible(a.end)
  {
    match a
    case Collects(Exited(code)) => code
    case Collects(Signaled(sig, _)) => 128 + sig
    case Collects(Stopped(_)) => 1
    case _ => 0
  }

  /** The relay loop; st starts at 0 and only a collected status changes it. */
  method Relay(answers: seq<Answer>) returns (code: nat)
    requires answers != [] && !answers[|answers| - 1].Eintr?
    requires forall i :: 0 <= i < |answers| - 1 ==> answers[i].Eintr?
    requires forall i :: 0 <= i < |answers| && answers[i].Collects? ==> Possible(answers[i].end)
    ensures code == RelayCode(answers[|answers| - 1]) < 256
  {
    var st: nat, i: nat := 0, 0;
    while answers[i].Eintr?
      invariant 0 <= i < |answers| && st == 0
      decreases |answers| - i
    {
      i := i + 1;
    }
    if answers[i].Collects? {
      st := Raw(answers[i].end);
      RawReads(answers[i].end);
    }
    if IfExited(st) {
      code := ExitStatus(st);
    } else if IfSignaled(st) {
      code := 128 + TermSig(st);
    } else {
      code := 1;
    }
  }

  // ---- the run ----

  /** What happened around the handler: pipes, slot, fork and write, and the status awaited. */
  datatype Setup = Setup(pipes: bool, slot: bool, fork: bool, wrote: bool)

  predicate Ready(s: Setup) {
    s.pipes && s.slot && s.fork && s.wrote
  }

  /** What platform_spawn returns for a handler that writes output and a status from await_child. */
  function Result(s: Setup, output: Bytes, cap: nat, status: int): int {
    if !Ready(s) then -1
    else if |output| >= cap then -2
    else if status >= 0 && IfExited(status) && ExitStatus(status) == 0 then |output|
    else -1
  }

  /** How many bytes a read of at most room returns when some are waiting: at least one, and
      otherwise as the kernel pleases. */
  function ReadSize(wish: nat, room: nat, waiting: nat): (n: nat)
    requires room > 0 && waiting > 0
    ensures 1 <= n <= room && n <= waiting
  {
    var most := if room < waiting then room else waiting;
    if wish < 1 then 1 else if wish > most then most else wish
  }

  /** platform_spawn: wishes decides how the output is split over the reads. */
  method Run(s: Setup, output: Bytes, wishes: nat -> nat, status: int, out: array<Byte>, cap: nat) returns (r: int)
    requires 0 < cap <= out.Length && status >= -1
    modifies out
    ensures r == Result(s, output, cap, status)
    ensures r >= 0 ==> out[..r] == output
    ensures out[cap..] == old(out[cap..])
  {
    if !s.pipes || !s.slot || !s.fork || !s.wrote {
      return -1;
    }
    ghost var was := out[..];
    var len: nat, turn: nat := 0, 0;
    while len < |output|
      invariant len <= |output| && len < cap
      invariant out[..len] == output[..len] && out[cap..] == was[cap..]
      decreases |output| - len
    {
      var n := ReadSize(wishes(turn), cap - len, |output| - len);
      Copy(out, len, output[len..len + n]);
      Joined(out[..], was, output, len, n, cap);
      len := len + n;
      turn := turn + 1;
      if len == cap {
        var drained := len;
        while drained < |output|
          invariant drained <= |output|
        {
          drained := drained + ReadSize(wishes(turn), 256, |output| - drained);
        }
        return -2;
      }
    }
    if status == -1 { return -1; }
    if IfExited(status) && ExitStatus(status) != 0 { return -1; }
    if !IfExited(status) { return -1; }
    assert output[..len] == output;
    r := len;
  }

  lemma Joined(now: Bytes, was: Bytes, output: Bytes, len: nat, n: nat, cap: nat)
    requires len + n <= |output| && len + n <= cap <= |now| == |was|
    requires now[..len] == output[..len] && now[len..len + n] == output[len..len + n]
    requires now[cap..] == was[cap..]
    ensures now[..len + n] == output[..len + n]
  {
    assert now[..len + n] == now[..len] + now[len..len + n];
    assert output[..len + n] == output[..len] + output[len..len + n];
  }

  // ---- success, through every layer ----

  /** The process platform_spawn forked: the handler itself, or a relay around it. */
  datatype Child = Handler(end: End) | Relayed(answer: Answer)

  predicate ChildPossible(c: Child) {
    match c
    case Handler(e) => Possible(e)
    case Relayed(a) => !a.Eintr? && (a.Collects? ==> Possible(a.end))
  }

  function ChildEnd(c: Child): (e: End)
    requires ChildPossible(c)
    ensures Possible(e)
  {
    match c
    case Handler(e) => e
    case Relayed(a) => Exited(RelayCode(a))
  }

  /** The innermost handler is known to have exited with code 0. */
  predicate Succeeded(c: Child) {
    c == Handler(Exited(0)) || c == Relayed(Collects(Exited(0)))
  }

  /** A length is returned exactly when everything was set up, the wait was not interrupted, the
      output is under the cap, and the innermost handler exited with code 0; the one exception is
      a relay whose waitpid fails with something other than EINTR, which passes for success. */
  lemma SuccessExactly(s: Setup, output: Bytes, cap: nat, c: Child, interrupted: bool)
    requires ChildPossible(c)
    ensures var status := if interrupted then -1 else Raw(ChildEnd(c));
      var r := Result(s, output, cap, status);
      && (r >= 0 <==> Ready(s) && |output| < cap && !interrupted && (Succeeded(c) || c == Relayed(Fails)))
      && (r >= 0 ==> r == |output|)
      && (r == -2 <==> Ready(s) && |output| >= cap)
  {
    RawReads(ChildEnd(c));
  }

  /** Seen through the relay a signal is an exit code from 129 to 254, never 0, and never a success
      whatever the handler wrote. */
  lemma SignalsShow(s: Setup, output: Bytes, cap: nat, sig: nat, core: bool)
    requires 1 <= sig <= 126
    ensures 129 <= RelayCode(Collects(Signaled(sig, core))) <= 254
    ensures Result(s, output, cap, Raw(ChildEnd(Relayed(Collects(Signaled(sig, core)))))) ==
      if Ready(s) && |output| >= cap then -2 else -1
  {
    RawReads(Exited(128 + sig));
  }

  /** What platform_spawn can tell of a handler through the relay: an exit code comes through as it is, a signal
      as 128 and its number, and anything else as 1; so only an exit looks the same with and without the
      relay, and different signals stay apart. */
  lemma RelayTells(e: End, e': End)
    requires Possible(e) && Possible(e')
    ensures var through := ChildEnd(Relayed(Collects(e)));
      && through.Exited? && (Raw(through) == Raw(ChildEnd(Handler(e))) <==> e.Exited?)
      && ExitStatus(Raw(through)) == if e.Exited? then e.code else if e.Signaled? then 128 + e.sig else 1
    ensures e.Signaled? && e'.Signaled? ==>
      (Raw(ChildEnd(Relayed(Collects(e)))) == Raw(ChildEnd(Relayed(Collects(e')))) <==> e.sig == e'.sig)
  {
    RawReads(e);
    RawReads(ChildEnd(Relayed(Collects(e))));
    RawReads(ChildEnd(Relayed(Collects(e'))));
  }
}
