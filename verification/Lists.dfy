/** Separator lists: what strtok_r and the space-skipping loops around it see. */
module Lists {

  /** Position of the next c at or after i, or the end. */
  function NextAt<T(==)>(s: seq<T>, c: T, i: nat): (j: nat)
    requires i <= |s|
    ensures i <= j <= |s| && c !in s[i..j]
    ensures j < |s| ==> s[j] == c
    decreases |s| - i
  {
    if i == |s| || s[i] == c then i else
      var j := NextAt(s, c, i + 1);
      assert s[i..j] == [s[i]] + s[i + 1..j];
      j
  }

  /** The stretches of s between the separators, empty ones included. */
  function Split<T(==)>(s: seq<T>, c: T): seq<seq<T>>
    decreases |s|
  {
    var j := NextAt(s, c, 0);
    if j == |s| then [s] else [s[..j]] + Split(s[j + 1..], c)
  }

  function DropLeading<T(==)>(s: seq<T>, c: T): seq<T> {
    if s != [] && s[0] == c then DropLeading(s[1..], c) else s
  }

  lemma {:induction false} SplitStep<T>(s: seq<T>, c: T, j: nat)
    requires j == NextAt(s, c, 0)
    ensures Split(s, c) == if j == |s| then [s] else [s[..j]] + Split(s[j + 1..], c)
  {
  }

  /** How far the stretch at the front of s goes. */
  method FindNext<T(==)>(s: seq<T>, c: T) returns (j: nat)
    ensures j == NextAt(s, c, 0)
  {
    j := 0;
    while j < |s| && s[j] != c
      invariant j <= |s|
      invariant NextAt(s, c, 0) == NextAt(s, c, j)
    {
      j := j + 1;
    }
  }

  method SkipLeading<T(==)>(s: seq<T>, c: T) returns (t: seq<T>)
    ensures t == DropLeading(s, c)
  {
    t := s;
    while t != [] && t[0] == c
      invariant DropLeading(t, c) == DropLeading(s, c)
    {
      t := t[1..];
    }
  }

  /** The next c is the only position that has none before it and c, or the end, at it. */
  lemma {:induction false} NextIs<T>(s: seq<T>, c: T, i: nat, j: nat)
    requires i <= j <= |s| && c !in s[i..j] && (j < |s| ==> s[j] == c)
    ensures NextAt(s, c, i) == j
    decreases j - i
  {
    if i < j {
      assert s[i] == s[i..j][0];
      assert s[i + 1..j] == s[i..j][1..];
      NextIs(s, c, i + 1, j);
    }
  }

  /** The texts with one separator between each two. */
  function JoinWith<T>(ts: seq<seq<T>>, c: T): seq<T>
    requires ts != []
  {
    if |ts| == 1 then ts[0] else ts[0] + [c] + JoinWith(ts[1..], c)
  }

  /** Splitting undoes joining. */
  lemma {:induction false} SplitJoined<T>(ts: seq<seq<T>>, c: T)
    requires ts != [] && forall i :: 0 <= i < |ts| ==> c !in ts[i]
    ensures Split(JoinWith(ts, c), c) == ts
  {
    var s, j := JoinWith(ts, c), |ts[0]|;
    assert s[0..j] == ts[0];
    NextIs(s, c, 0, j);
    SplitStep(s, c, j);
    if |ts| > 1 {
      assert s[j + 1..] == JoinWith(ts[1..], c);
      SplitJoined(ts[1..], c);
      assert ts == [ts[0]] + ts[1..];
    }
  }

  // ---- texts with something skipped in front ----

  function Run<T>(c: T, k: nat): (r: seq<T>)
    ensures |r| == k && forall i :: 0 <= i < k ==> r[i] == c
  {
    if k == 0 then [] else [c] + Run(c, k - 1)
  }

  /** Each text with so many c before it. */
  function Indented<T>(ts: seq<seq<T>>, pads: seq<nat>, c: T): (r: seq<seq<T>>)
    requires |pads| == |ts|
    ensures |r| == |ts|
  {
    seq(|ts|, i requires 0 <= i < |ts| => Run(c, pads[i]) + ts[i])
  }

  /** All the c in front are dropped and nothing else. */
  lemma {:induction false} DropRun<T>(k: nat, c: T, t: seq<T>)
    requires t == [] || t[0] != c
    ensures DropLeading(Run(c, k) + t, c) == t
  {
    if k == 0 {
      assert Run(c, 0) + t == t;
    } else {
      assert (Run(c, k) + t)[1..] == Run(c, k - 1) + t;
      DropRun(k - 1, c, t);
    }
  }

  /** Cutting an indented text short leaves less of the text behind the c, or nothing. */
  lemma {:induction false} DropCut<T>(k: nat, c: T, t: seq<T>, n: nat)
    requires t != [] && t[0] != c && n < k + |t|
    ensures DropLeading((Run(c, k) + t)[..n], c) == if n <= k then [] else t[..n - k]
  {
    if n <= k {
      assert (Run(c, k) + t)[..n] == Run(c, n) + [];
      DropRun(n, c, []);
    } else {
      assert (Run(c, k) + t)[..n] == Run(c, k) + t[..n - k];
      DropRun(k, c, t[..n - k]);
    }
  }

  lemma IndentedClean<T>(ts: seq<seq<T>>, pads: seq<nat>, c: T, x: T)
    requires |pads| == |ts| && x != c && forall i :: 0 <= i < |ts| ==> x !in ts[i]
    ensures forall i :: 0 <= i < |ts| ==> x !in Indented(ts, pads, c)[i]
  {
    forall i | 0 <= i < |ts| ensures x !in Run(c, pads[i]) + ts[i] {
      assert forall k :: 0 <= k < |ts[i]| ==> ts[i][k] in ts[i];
    }
  }
}
