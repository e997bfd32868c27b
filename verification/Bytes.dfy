/** Bytes and fixed-width numbers. A shift right by 8 of an unsigned value is a division by 256. */
module Bytes {

  type Byte = x: int | 0 <= x < 256
  type Bytes = seq<Byte>

  function Pow256(k: nat): (r: nat)
    ensures r > 0
  {
    if k == 0 then 1 else 256 * Pow256(k - 1)
  }

  /** 1 << k. */
  function Pow2(k: nat): (r: nat)
    ensures r > 0
  {
    if k == 0 then 1 else 2 * Pow2(k - 1)
  }

  function Zeros(k: nat): (z: Bytes)
    ensures |z| == k && forall i :: 0 <= i < k ==> z[i] == 0
  {
    seq(k, _ => 0)
  }

  /** The low k bytes of n, least significant first. */
  function Le(n: nat, k: nat): (b: Bytes)
    ensures |b| == k
    decreases k
  {
    if k == 0 then [] else [n % 256] + Le(n / 256, k - 1)
  }

  function FromLe(b: Bytes): (n: nat)
    ensures n < Pow256(|b|)
  {
    if b == [] then 0 else b[0] + 256 * FromLe(b[1..])
  }

  /** Writing a number that fits and reading it back. */
  lemma {:induction false} LeReads(n: nat, k: nat)
    requires n < Pow256(k)
    ensures FromLe(Le(n, k)) == n
    decreases k
  {
    if k > 0 {
      assert Le(n, k)[1..] == Le(n / 256, k - 1);
      LeReads(n / 256, k - 1);
    }
  }

  /** Reading bytes and writing them back. */
  lemma {:induction false} LeWrites(b: Bytes)
    ensures Le(FromLe(b), |b|) == b
  {
    if b != [] {
      LeWrites(b[1..]);
      assert FromLe(b) % 256 == b[0] && FromLe(b) / 256 == FromLe(b[1..]);
      assert b == [b[0]] + b[1..];
    }
  }

  lemma Widths()
    ensures Pow256(4) == 0x1_0000_0000 && Pow256(8) == 0x1_0000_0000_0000_0000
    ensures Pow256(6) == 0x1_0000_0000_0000
  {
    assert Pow256(1) == 256 && Pow256(2) == 0x1_0000 && Pow256(3) == 0x100_0000;
    assert Pow256(4) == 0x1_0000_0000 && Pow256(5) == 0x100_0000_0000;
    assert Pow256(6) == 0x1_0000_0000_0000 && Pow256(7) == 0x100_0000_0000_0000;
  }

  predicate FitsSigned(n: int, k: nat) {
    2 * n < Pow256(k) && 2 * -n <= Pow256(k)
  }

  /** Two's complement in k bytes. */
  function Unsigned(n: int, k: nat): (u: nat)
    requires FitsSigned(n, k)
    ensures k > 0 ==> u < Pow256(k)
  {
    if n >= 0 then n else n + Pow256(k)
  }

  function Signed(u: nat, k: nat): (n: int)
    requires k > 0 && u < Pow256(k)
    ensures FitsSigned(n, k) && Unsigned(n, k) == u
  {
    if 2 * u < Pow256(k) then u else u - Pow256(k)
  }

  /** A signed field written and read back. */
  lemma SignedReads(n: int, k: nat)
    requires k > 0 && FitsSigned(n, k)
    ensures Signed(FromLe(Le(Unsigned(n, k), k)), k) == n
  {
    LeReads(Unsigned(n, k), k);
    assert Pow256(k) % 2 == 0;
  }

  /** The bytes before the first zero: what a C string read sees. */
  function Text(b: Bytes): Bytes {
    if b == [] || b[0] == 0 then [] else [b[0]] + Text(b[1..])
  }

  lemma {:induction false} TextStops(t: Bytes, rest: Bytes)
    requires 0 !in t
    ensures Text(t + [0] + rest) == t
  {
    var b := t + [0] + rest;
    if t != [] {
      assert b[1..] == t[1..] + [0] + rest;
      assert t[0] in t;
      TextStops(t[1..], rest);
    }
  }

  lemma {:induction false} TextIsPrefix(b: Bytes)
    requires 0 in b
    ensures Text(b) + [0] <= b && 0 !in Text(b)
  {
    if b[0] != 0 {
      assert 0 in b[1..];
      TextIsPrefix(b[1..]);
      assert b == [b[0]] + b[1..];
    }
  }

  // ---- copying and cutting ----

  /** memcpy of a value into a buffer. */
  method Copy(dst: array<Byte>, at: nat, src: Bytes)
    requires at + |src| <= dst.Length
    modifies dst
    ensures dst[..] == old(dst[..at]) + src + old(dst[at + |src|..])
  {
    ghost var was := dst[..];
    for i := 0 to |src|
      invariant dst[..at] == was[..at] && dst[at..at + i] == src[..i] && dst[at + i..] == was[at + i..]
    {
      dst[at + i] := src[i];
      assert dst[at..at + i + 1] == src[..i + 1];
    }
    assert dst[..] == dst[..at] + dst[at..at + |src|] + dst[at + |src|..];
  }

  lemma Sub<T>(b: seq<T>, from: nat, upto: nat, lo: nat, hi: nat)
    requires from <= upto <= |b| && lo <= hi <= upto - from
    ensures b[from..upto][lo..hi] == b[from + lo..from + hi]
  {
    var l, r := b[from..upto][lo..hi], b[from + lo..from + hi];
    assert forall i :: 0 <= i < |l| ==> l[i] == r[i];
  }

  lemma Parts<T>(a: seq<T>, b: seq<T>, c: seq<T>, d: seq<T>, e: seq<T>, s: seq<T>)
    requires s == a + b + c + d + e
    ensures var i, j, k, l := |a|, |a| + |b|, |a| + |b| + |c|, |a| + |b| + |c| + |d|;
      s[..i] == a && s[i..j] == b && s[j..k] == c && s[k..l] == d && s[l..] == e
  {
  }

  lemma Rejoined<T>(s: seq<T>, i: nat, j: nat, k: nat, l: nat, n: nat)
    requires i <= j <= k <= l <= n <= |s|
    ensures s[..i] + s[i..j] + s[j..k] + s[k..l] + s[l..n] == s[..n]
  {
  }

  lemma Associate<T>(a: seq<T>, b: seq<T>, c: seq<T>, d: seq<T>)
    ensures a + b + c + d == a + b + (c + d)
  {
  }

  /** Two pieces copied one behind the other. */
  lemma Pieces<T>(was: seq<T>, mid: seq<T>, now: seq<T>, p: seq<T>, q: seq<T>)
    requires |p| + |q| <= |was| == |mid| == |now|
    requires mid == was[..0] + p + was[|p|..]
    requires now == mid[..|p|] + q + mid[|p| + |q|..]
    ensures now[..|p| + |q|] == p + q && now[|p| + |q|..] == was[|p| + |q|..]
  {
    assert mid[..|p|] == p;
  }
}
