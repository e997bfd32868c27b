/** actor_uuid.h: version 7 ids (section 5.7 of RFC 9562) and their two text forms.
    On an unsigned byte, x >> 4 is x / 16, x & 0xF is x % 16, and 0x70 | (x & 0xF) is 0x70 + x % 16. */
module Uuid {
  import opened Bytes

  // ---- generation ----

  /** The low k bytes of n, most significant first. */
  function Be(n: nat, k: nat): (b: Bytes)
    ensures |b| == k
    decreases k
  {
    if k == 0 then [] else Be(n / 256, k - 1) + [n % 256]
  }

  function FromBe(b: Bytes): nat
    decreases |b|
  {
    if b == [] then 0 else 256 * FromBe(b[..|b| - 1]) + b[|b| - 1]
  }

  /** The id for a clock reading and ten random bytes. */
  function Id(ms: nat, rnd: Bytes): (u: Bytes)
    requires |rnd| == 10
    ensures |u| == 16 && u[..6] == Be(ms, 6)
  {
    Be(ms, 6) + [0x70 + rnd[0] % 16, rnd[1], 0x80 + rnd[2] % 64] + rnd[3..]
  }

  function Timestamp(u: Bytes): nat
    requires |u| == 16
  {
    FromBe(u[..6])
  }

  /** actor_uuid_gen, byte by byte. */
  method Generate(ms: nat, rnd: Bytes, dst: array<Byte>)
    requires |rnd| == 10 && dst.Length == 16
    modifies dst
    ensures dst[..] == Id(ms, rnd)
  {
    dst[0] := ms / 0x100_0000_0000 % 256;
    dst[1] := ms / 0x1_0000_0000 % 256;
    dst[2] := ms / 0x100_0000 % 256;
    dst[3] := ms / 0x1_0000 % 256;
    dst[4] := ms / 0x100 % 256;
    dst[5] := ms % 256;
    dst[6] := 0x70 + rnd[0] % 16;
    dst[7] := rnd[1];
    dst[8] := 0x80 + rnd[2] % 64;
    SixBytes(ms);
    hide Be;
    ghost var head := Be(ms, 6) + [0x70 + rnd[0] % 16, rnd[1], 0x80 + rnd[2] % 64];
    assert dst[..9] == head;
    Copy(dst, 9, rnd[3..]);
    assert dst[..] == head + rnd[3..];
  }

  lemma SixBytes(ms: nat)
    ensures Be(ms, 6) == [ms / 0x100_0000_0000 % 256, ms / 0x1_0000_0000 % 256, ms / 0x100_0000 % 256,
                          ms / 0x1_0000 % 256, ms / 0x100 % 256, ms % 256]
  {
    var a, b, c, d, e := ms / 0x100, ms / 0x1_0000, ms / 0x100_0000, ms / 0x1_0000_0000, ms / 0x100_0000_0000;
    assert a / 256 == b && b / 256 == c && c / 256 == d && d / 256 == e;
    assert Be(e, 1) == [e % 256];
    assert Be(d, 2) == [e % 256, d % 256];
    assert Be(c, 3) == [e % 256, d % 256, c % 256];
    assert Be(b, 4) == [e % 256, d % 256, c % 256, b % 256];
    assert Be(a, 5) == [e % 256, d % 256, c % 256, b % 256, a % 256];
  }

  lemma {:induction false} BeReads(n: nat, k: nat)
    requires n < Pow256(k)
    ensures FromBe(Be(n, k)) == n
    decreases k
  {
    if k > 0 {
      BeReads(n / 256, k - 1);
      var b := Be(n, k);
      assert b[..|b| - 1] == Be(n / 256, k - 1);
    }
  }

  /** The version and variant bits are set, and the clock reading can be read back. */
  lemma IdReads(ms: nat, rnd: Bytes)
    requires |rnd| == 10 && ms < 0x1_0000_0000_0000
    ensures var u := Id(ms, rnd); u[6] / 16 == 7 && u[8] / 64 == 2 && Timestamp(u) == ms
  {
    Widths();
    BeReads(ms, 6);
  }

  /** Two ids are equal exactly when the clock readings and all 74 random bits are. */
  lemma IdInjective(ms: nat, rnd: Bytes, ms': nat, rnd': Bytes)
    requires |rnd| == 10 && |rnd'| == 10 && ms < 0x1_0000_0000_0000 && ms' < 0x1_0000_0000_0000
    ensures Id(ms, rnd) == Id(ms', rnd') <==>
      && ms == ms' && rnd[0] % 16 == rnd'[0] % 16 && rnd[1] == rnd'[1]
      && rnd[2] % 64 == rnd'[2] % 64 && rnd[3..] == rnd'[3..]
  {
    IdReads(ms, rnd);
    IdReads(ms', rnd');
    var u, v := Id(ms, rnd), Id(ms', rnd');
    hide Be, FromBe;
    assert u[6] == 0x70 + rnd[0] % 16 && u[7] == rnd[1] && u[8] == 0x80 + rnd[2] % 64 && u[9..] == rnd[3..];
    assert v[6] == 0x70 + rnd'[0] % 16 && v[7] == rnd'[1] && v[8] == 0x80 + rnd'[2] % 64 && v[9..] == rnd'[3..];
  }

  // ---- order ----

  /** Byte order: memcmp on equal lengths. */
  predicate Before(a: Bytes, b: Bytes)
    requires |a| == |b|
  {
    a != [] && (a[0] < b[0] || (a[0] == b[0] && Before(a[1..], b[1..])))
  }

  lemma {:induction false} BeforeAppend(a: Bytes, b: Bytes, x: Bytes, y: Bytes)
    requires |a| == |b| && |x| == |y|
    requires Before(a, b) || (a == b && Before(x, y))
    ensures Before(a + x, b + y)
  {
    if a == [] {
      assert a + x == x && b + y == y;
    } else {
      assert (a + x)[1..] == a[1..] + x && (b + y)[1..] == b[1..] + y;
      if a[0] == b[0] {
        BeforeAppend(a[1..], b[1..], x, y);
      }
    }
  }

  lemma {:induction false} BeOrdered(n: nat, m: nat, k: nat)
    requires n < m < Pow256(k)
    ensures Before(Be(n, k), Be(m, k))
    decreases k
  {
    if n / 256 < m / 256 {
      BeOrdered(n / 256, m / 256, k - 1);
    }
    assert Before([n % 256], [m % 256]) || n / 256 < m / 256;
    BeforeAppend(Be(n / 256, k - 1), Be(m / 256, k - 1), [n % 256], [m % 256]);
  }

  /** An id made in an earlier millisecond sorts first. */
  lemma EarlierFirst(ms: nat, rnd: Bytes, ms': nat, rnd': Bytes)
    requires |rnd| == 10 && |rnd'| == 10 && ms < ms' < 0x1_0000_0000_0000
    ensures Before(Id(ms, rnd), Id(ms', rnd'))
  {
    Widths();
    BeOrdered(ms, ms', 6);
    var u, v := Id(ms, rnd), Id(ms', rnd');
    hide Before, Be, Id;
    BeforeAppend(u[..6], v[..6], u[6..], v[6..]);
    assert u == u[..6] + u[6..] && v == v[..6] + v[6..];
  }

  // ---- text forms ----

  const DIGITS: string := "0123456789abcdef"

  predicate HexDigit(c: char) {
    '0' <= c <= '9' || 'a' <= c <= 'f'
  }

  function ValueOf(c: char): int {
    if c <= '9' then c as int - '0' as int else c as int - 'a' as int + 10
  }

  function HexChar(d: nat): char
    requires d < 16
  {
    DIGITS[d]
  }

  function Pair(x: Byte): (p: string)
    ensures |p| == 2
  {
    [HexChar(x / 16), HexChar(x % 16)]
  }

  lemma DigitReads(d: nat)
    requires d < 16
    ensures HexDigit(HexChar(d)) && ValueOf(HexChar(d)) == d
  {
    assert d in [0, 1, 2, 3, 4, 5, 6, 7, 8, 9, 10, 11, 12, 13, 14, 15];
  }

  lemma PairReads(x: Byte)
    ensures var p := Pair(x);
      HexDigit(p[0]) && HexDigit(p[1]) && 16 * ValueOf(p[0]) + ValueOf(p[1]) == x
  {
    DigitReads(x / 16);
    DigitReads(x % 16);
    hide ValueOf, HexDigit, HexChar;
  }

  function Hex(b: Bytes): (s: string)
    ensures |s| == 2 * |b|
    decreases |b|
  {
    if b == [] then "" else Hex(b[..|b| - 1]) + Pair(b[|b| - 1])
  }

  function Unhex(s: string): seq<int>
    requires |s| % 2 == 0
    decreases |s|
  {
    if s == "" then [] else Unhex(s[..|s| - 2]) + [16 * ValueOf(s[|s| - 2]) + ValueOf(s[|s| - 1])]
  }

  /** The hex form is injective: it reads back. */
  lemma {:induction false} HexReads(b: Bytes)
    ensures Unhex(Hex(b)) == b
    decreases |b|
  {
    if b == [] {
      HexEmpty(b);
    } else {
      HexReads(b[..|b| - 1]);
      HexReadsStep(b);
    }
  }

  lemma HexReadsStep(b: Bytes)
    requires b != [] && Unhex(Hex(b[..|b| - 1])) == b[..|b| - 1]
    ensures var h := Hex(b); |h| % 2 == 0 && Unhex(h) == b
  {
    hide *;
    var x, rest := b[|b| - 1], b[..|b| - 1];
    PairReads(x);
    HexStep(b, rest, x);
    UnhexStep(Hex(rest), Pair(x), x);
    assert b == rest + [x];
  }

  lemma UnhexStep(s: string, p: string, x: Byte)
    requires |s| % 2 == 0 && |p| == 2 && 16 * ValueOf(p[0]) + ValueOf(p[1]) == x
    ensures |s + p| % 2 == 0 && Unhex(s + p) == Unhex(s) + [x]
  {
    hide ValueOf, HexChar, Hex;
    assert (s + p)[..|s + p| - 2] == s && (s + p)[|s|] == p[0] && (s + p)[|s| + 1] == p[1];
  }

  /** One formatting loop: the digits of src[from..upto], from dst[at] on. */
  method Digits(src: Bytes, from: nat, upto: nat, dst: array<char>, at: nat) returns (j: nat)
    requires from <= upto <= |src| && at + 2 * (upto - from) <= dst.Length
    modifies dst
    ensures j == at + 2 * (upto - from)
    ensures dst[..j] == old(dst[..at]) + Hex(src[from..upto]) && dst[j..] == old(dst[j..])
  {
    hide *;
    ghost var was := dst[..];
    j := at;
    HexEmpty(src[from..from]);
    assert dst[..] == was[..at] + "" + was[at..];
    for i := from to upto
      invariant j == at + 2 * (i - from)
      invariant |Hex(src[from..i])| == j - at && dst[..] == was[..at] + Hex(src[from..i]) + was[j..]
    {
      ghost var before := dst[..];
      var c, d := HexChar(src[i] / 16), HexChar(src[i] % 16);
      dst[j] := c;
      dst[j + 1] := d;
      assert dst[..] == before[j := c][j + 1 := d];
      DigitStep(src, from, i, was, at, before);
      j := j + 2;
    }
    Halves(was[..at] + Hex(src[from..upto]), was[j..]);
  }

  /** Two more digits written. */
  lemma DigitStep(src: Bytes, from: nat, i: nat, was: string, at: nat, before: string)
    requires from <= i < |src| && at + 2 * (i - from) + 2 <= |was|
    requires before == was[..at] + Hex(src[from..i]) + was[at + 2 * (i - from)..]
    ensures var j, h := at + 2 * (i - from), Hex(src[from..i + 1]);
      && |h| == j + 2 - at
      && before[j := HexChar(src[i] / 16)][j + 1 := HexChar(src[i] % 16)] == was[..at] + h + was[j + 2..]
  {
    hide *;
    PairIs(src[i]);
    HexStep(src[from..i + 1], src[from..i], src[i]);
    PairWritten(was[..at], Hex(src[from..i]), Pair(src[i]), was, at + 2 * (i - from));
  }

  lemma Halves(a: string, b: string)
    ensures (a + b)[..|a|] == a && (a + b)[|a|..] == b
  {
  }

  lemma PairWritten(front: string, h: string, p: string, was: string, j: nat)
    requires |front| + |h| == j && j + 2 <= |was| && |p| == 2
    ensures (front + h + was[j..])[j := p[0]][j + 1 := p[1]] == front + (h + p) + was[j + 2..]
  {
  }

  lemma PairIs(x: Byte)
    ensures Pair(x) == [HexChar(x / 16), HexChar(x % 16)]
  {
  }

  lemma HexEmpty(b: Bytes)
    requires b == []
    ensures Hex(b) == "" && Unhex(Hex(b)) == []
  {
  }

  lemma HexStep(b: Bytes, a: Bytes, x: Byte)
    requires b == a + [x]
    ensures Hex(b) == Hex(a) + Pair(x)
  {
    assert b[..|b| - 1] == a;
  }

  /** actor_uuid_hex. */
  method HexInto(src: Bytes, dst: array<char>)
    requires |src| == 16 && dst.Length == 33
    modifies dst
    ensures dst[..] == Hex(src) + ['\0']
  {
    var j := Digits(src, 0, 16, dst, 0);
    assert src[0..16] == src;
    dst[j] := '\0';
    hide Hex;
    assert dst[..32] == Hex(src);
  }

  function Dashed(b: Bytes): string
    requires |b| == 16
  {
    Hex(b[..4]) + "-" + Hex(b[4..6]) + "-" + Hex(b[6..8]) + "-" + Hex(b[8..10]) + "-" + Hex(b[10..])
  }

  /** Where the dashes stand: behind 8, 12, 16 and 20 digits, in a text of 36 characters. */
  lemma DashesAt(b: Bytes, k: nat)
    requires |b| == 16
    ensures |Dashed(b)| == 36
    ensures k < 36 ==> (Dashed(b)[k] == '-' <==> k in {8, 13, 18, 23})
  {
    HexHasNoDash(b[..4]);
    HexHasNoDash(b[4..6]);
    HexHasNoDash(b[6..8]);
    HexHasNoDash(b[8..10]);
    HexHasNoDash(b[10..]);
    hide Hex, WithoutDashes;
    FiveGroups(Hex(b[..4]), Hex(b[4..6]), Hex(b[6..8]), Hex(b[8..10]), Hex(b[10..]), k);
  }

  lemma FiveGroups(p: string, q: string, r: string, s: string, t: string, k: nat)
    requires |p| == 8 && |q| == |r| == |s| == 4 && |t| == 12
    requires '-' !in p && '-' !in q && '-' !in r && '-' !in s && '-' !in t
    ensures var d := p + "-" + q + "-" + r + "-" + s + "-" + t;
      |d| == 36 && (k < 36 ==> (d[k] == '-' <==> k in {8, 13, 18, 23}))
  {
    var d := p + "-" + q + "-" + r + "-" + s + "-" + t;
    if k < 8 { assert d[k] == p[k] && p[k] in p; }
    else if 8 < k < 13 { assert d[k] == q[k - 9] && q[k - 9] in q; }
    else if 13 < k < 18 { assert d[k] == r[k - 14] && r[k - 14] in r; }
    else if 18 < k < 23 { assert d[k] == s[k - 19] && s[k - 19] in s; }
    else if 23 < k < 36 { assert d[k] == t[k - 24] && t[k - 24] in t; }
  }

  method Group(src: Bytes, from: nat, upto: nat, dst: array<char>, at: nat, end: char) returns (j: nat)
    requires from <= upto <= |src| && at + 2 * (upto - from) < dst.Length
    modifies dst
    ensures j == at + 2 * (upto - from) + 1
    ensures dst[..j] == old(dst[..at]) + (Hex(src[from..upto]) + [end])
  {
    j := Digits(src, from, upto, dst, at);
    ghost var before := dst[..j];
    dst[j] := end;
    j := j + 1;
    assert dst[..j] == before + [end];
  }

  /** actor_uuid_str: five groups, each followed by its dash or, at the end, by the zero. */
  method StrInto(src: Bytes, dst: array<char>)
    requires |src| == 16 && dst.Length == 37
    modifies dst
    ensures dst[..] == Dashed(src) + ['\0']
  {
    ghost var a, b, c, d, e := Hex(src[..4]), Hex(src[4..6]), Hex(src[6..8]), Hex(src[8..10]), Hex(src[10..]);
    ghost var whole := Dashed(src);
    assert whole == a + "-" + b + "-" + c + "-" + d + "-" + e;
    hide *;
    var j := Group(src, 0, 4, dst, 0, '-');
    assert dst[..j] == a + "-";
    j := Group(src, 4, 6, dst, j, '-');
    assert dst[..j] == a + "-" + (b + "-");
    j := Group(src, 6, 8, dst, j, '-');
    j := Group(src, 8, 10, dst, j, '-');
    assert dst[..j] == a + "-" + (b + "-") + (c + "-") + (d + "-");
    assert src[10..16] == src[10..];
    j := Group(src, 10, 16, dst, j, '\0');
    assert dst[..j] == a + "-" + (b + "-") + (c + "-") + (d + "-") + (e + ['\0']);
    assert dst[..j] == dst[..];
    Regroup(a, b, c, d, e);
  }

  lemma Regroup(a: string, b: string, c: string, d: string, e: string)
    ensures a + "-" + (b + "-") + (c + "-") + (d + "-") + (e + ['\0'])
      == a + "-" + b + "-" + c + "-" + d + "-" + e + ['\0']
  {
  }

  function WithoutDashes(s: string): string {
    if s == "" then "" else (if s[0] == '-' then "" else [s[0]]) + WithoutDashes(s[1..])
  }

  lemma {:induction false} WithoutAppend(s: string, t: string)
    ensures WithoutDashes(s + t) == WithoutDashes(s) + WithoutDashes(t)
  {
    if s == "" {
      assert s + t == t;
    } else {
      assert (s + t)[1..] == s[1..] + t;
      WithoutAppend(s[1..], t);
    }
  }

  lemma {:induction false} NothingToDrop(s: string)
    requires '-' !in s
    ensures WithoutDashes(s) == s
  {
    if s != "" {
      NothingToDrop(s[1..]);
      assert s == [s[0]] + s[1..];
    }
  }

  lemma {:induction false} HexHasNoDash(b: Bytes)
    ensures '-' !in Hex(b) && WithoutDashes(Hex(b)) == Hex(b)
    decreases |b|
  {
    if b != [] {
      HexHasNoDash(b[..|b| - 1]);
      PairReads(b[|b| - 1]);
    }
    NothingToDrop(Hex(b));
  }

  lemma DashDropped(s: string, t: string)
    ensures WithoutDashes(s + "-" + t) == WithoutDashes(s) + WithoutDashes(t)
  {
    WithoutAppend(s + "-", t);
    WithoutAppend(s, "-");
    assert WithoutDashes("-") == "" && WithoutDashes(s) + "" == WithoutDashes(s);
    hide WithoutDashes;
  }

  lemma {:induction false} HexAppend(a: Bytes, b: Bytes)
    ensures Hex(a + b) == Hex(a) + Hex(b)
    decreases |b|
  {
    if b == [] {
      assert a + b == a;
    } else {
      assert (a + b)[..|a + b| - 1] == a + b[..|b| - 1];
      HexAppend(a, b[..|b| - 1]);
    }
  }

  /** The dashed form without its dashes is the hex form. */
  lemma DashedIsHex(b: Bytes)
    requires |b| == 16
    ensures WithoutDashes(Dashed(b)) == Hex(b)
  {
    var p, q, r, s, t := b[..4], b[4..6], b[6..8], b[8..10], b[10..];
    HexHasNoDash(p);
    HexHasNoDash(q);
    HexHasNoDash(r);
    HexHasNoDash(s);
    HexHasNoDash(t);
    HexAppend(p, q);
    HexAppend(p + q, r);
    HexAppend(p + q + r, s);
    HexAppend(p + q + r + s, t);
    hide Hex, WithoutDashes;
    Rejoined(b, 4, 6, 8, 10, 16);
    assert b[..16] == b && t == b[10..16];
    var a := Hex(p) + "-" + Hex(q);
    var c := a + "-" + Hex(r);
    var d := c + "-" + Hex(s);
    assert Dashed(b) == d + "-" + Hex(t);
    hide *;
    DashDropped(Hex(p), Hex(q));
    DashDropped(a, Hex(r));
    DashDropped(c, Hex(s));
    DashDropped(d, Hex(t));
  }
}
