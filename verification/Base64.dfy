/** _b64_decode: packed floats from base64 text. */
module Base64 {
  import opened Bytes

  const WORD: nat := 0x1_0000_0000

  /** The table T: '=' is listed with the value 0, every other character outside the alphabet is -1. */
  function Sextet(c: char): (v: int)
    ensures -1 <= v < 64
  {
    if 'A' <= c <= 'Z' then c as int - 'A' as int
    else if 'a' <= c <= 'z' then c as int - 'a' as int + 26
    else if '0' <= c <= '9' then c as int - '0' as int + 52
    else if c == '+' then 62
    else if c == '/' then 63
    else if c == '=' then 0
    else -1
  }

  /** acc << 6 | v in 32 bits. */
  function Pushed(acc: nat, v: nat): (r: nat)
    ensures r < WORD
  {
    (64 * acc + v) % WORD
  }

  /** Every byte the loop shifts out, from a given accumulator. */
  function Shifted(s: string, acc: nat, bits: nat): Bytes {
    if s == "" then []
    else if Sextet(s[0]) < 0 then Shifted(s[1..], acc, bits)
    else
      var a := Pushed(acc, Sextet(s[0]));
      if bits + 6 >= 8 then [a / Pow2(bits - 2) % 256] + Shifted(s[1..], a, bits - 2)
      else Shifted(s[1..], a, bits + 6)
  }

  function Take(b: Bytes, n: nat): (t: Bytes)
    ensures |t| <= n && t <= b
  {
    if |b| <= n then b else b[..n]
  }

  /** The bytes stored when there is room for so many floats. */
  function Stored(s: string, maxFloats: nat): Bytes {
    Take(Shifted(s, 0, 0), 4 * maxFloats)
  }

  /** _b64_decode; dst is the float array seen as bytes. */
  method DecodeInto(src: string, dst: array<Byte>, maxFloats: nat) returns (n: nat)
    requires dst.Length >= 4 * maxFloats
    modifies dst
    ensures n == |Stored(src, maxFloats)| / 4
    ensures dst[..] == Stored(src, maxFloats) + old(dst[..])[|Stored(src, maxFloats)|..]
  {
    StoredIs(src, maxFloats);
    assert 0 < WORD;
    hide *;
    ghost var was, all := dst[..], Shifted(src, 0, 0);
    var max := 4 * maxFloats;
    var bytes: nat, acc: nat, bits: nat := 0, 0, 0;
    ghost var sofar: Bytes := [];
    assert src[0..] == src && [] + all == all && Take([], max) == [];
    for i := 0 to |src|
      invariant bits in {0, 2, 4, 6} && acc < WORD
      invariant all == sofar + Shifted(src[i..], acc, bits)
      invariant bytes == |Take(sofar, max)|
      invariant dst[..] == Take(sofar, max) + was[bytes..]
    {
      ShiftedStep(src, i, acc, bits);
      var v := Sextet(src[i]);
      if v >= 0 {
        acc := Pushed(acc, v);
        bits := bits + 6;
        if bits >= 8 {
          bits := bits - 8;
          var x: Byte := acc / Pow2(bits) % 256;
          Regroup(sofar, x, Shifted(src[i + 1..], acc, bits), max);
          if bytes < max {
            ghost var before := dst[..];
            dst[bytes] := x;
            assert dst[..] == before[bytes := x];
            Replaced(Take(sofar, max), was, x);
            bytes := bytes + 1;
          }
          sofar := sofar + [x];
        }
      }
    }
    NothingLeft(src, sofar, acc, bits);
    n := bytes / 4;
  }

  lemma Replaced(kept: Bytes, was: Bytes, x: Byte)
    requires |kept| < |was|
    ensures (kept + was[|kept|..])[|kept| := x] == kept + [x] + was[|kept| + 1..]
  {
  }

  lemma StoredIs(s: string, maxFloats: nat)
    ensures Stored(s, maxFloats) == Take(Shifted(s, 0, 0), 4 * maxFloats)
  {
  }

  lemma ShiftedStep(s: string, i: nat, acc: nat, bits: nat)
    requires i < |s|
    ensures Shifted(s[i..], acc, bits) ==
      var v := Sextet(s[i]);
      if v < 0 then Shifted(s[i + 1..], acc, bits)
      else if bits + 6 >= 8 then
        [Pushed(acc, v) / Pow2(bits - 2) % 256] + Shifted(s[i + 1..], Pushed(acc, v), bits - 2)
      else Shifted(s[i + 1..], Pushed(acc, v), bits + 6)
  {
    hide Sextet, Pow2, Pushed;
    assert s[i..][0] == s[i] && s[i..][1..] == s[i + 1..];
  }

  lemma NothingLeft(s: string, sofar: Bytes, acc: nat, bits: nat)
    ensures sofar + Shifted(s[|s|..], acc, bits) == sofar
  {
  }

  lemma Regroup(sofar: Bytes, x: Byte, later: Bytes, max: nat)
    ensures sofar + ([x] + later) == sofar + [x] + later
    ensures Take(sofar + [x], max) == if |Take(sofar, max)| < max then Take(sofar, max) + [x] else Take(sofar, max)
  {
  }

  // ---- what the loop computes ----

  /** The same without an accumulator: only the bits not yet shifted out are kept. */
  function Decoded(s: string, r: nat, bits: nat): Bytes
    requires bits in {0, 2, 4, 6} && r < Pow2(bits)
  {
    if s == "" then []
    else if Sextet(s[0]) < 0 then Decoded(s[1..], r, bits)
    else
      var t := 64 * r + Sextet(s[0]);
      if bits == 0 then Decoded(s[1..], t, 6)
      else [t / Pow2(bits - 2)] + Decoded(s[1..], t % Pow2(bits - 2), bits - 2)
  }

  /** Letting the accumulator wrap at 32 bits changes nothing. */
  lemma {:induction false} WrapHarmless(s: string, acc: nat, bits: nat)
    requires bits in {0, 2, 4, 6}
    ensures Shifted(s, acc, bits) == Decoded(s, acc % Pow2(bits), bits)
  {
    if s != "" {
      var v := Sextet(s[0]);
      if v < 0 {
        WrapHarmless(s[1..], acc, bits);
      } else {
        var a := Pushed(acc, v);
        PushedBits(acc, v, bits);
        if bits == 0 {
          WrapHarmless(s[1..], a, 6);
        } else {
          WrapHarmless(s[1..], a, bits - 2);
        }
      }
    }
  }

  /** Only the low bits of the accumulator reach the output. */
  lemma PushedBits(acc: nat, v: nat, bits: nat)
    requires bits in {0, 2, 4, 6} && v < 64
    ensures var a, t := Pushed(acc, v), 64 * (acc % Pow2(bits)) + v;
      if bits == 0 then a % Pow2(6) == t
      else a / Pow2(bits - 2) % 256 == t / Pow2(bits - 2) && a % Pow2(bits - 2) == t % Pow2(bits - 2)
  {
    Shifts();
    var a, q := Pushed(acc, v), (64 * acc + v) / WORD;
    assert 64 * acc + v == q * WORD + a;
    hide Pow2, Pushed;
    if bits == 0 {
      SixBits(a, acc, v, q);
    } else if bits == 2 {
      LowBits2(a, acc, v, q);
    } else if bits == 4 {
      LowBits4(a, acc, v, q);
    } else {
      LowBits6(a, acc, v, q);
    }
  }

  lemma Shifts()
    ensures Pow2(0) == 1 && Pow2(2) == 4 && Pow2(4) == 16 && Pow2(6) == 64
  {
    assert Pow2(1) == 2 && Pow2(3) == 8 && Pow2(5) == 32;
  }

  lemma SixBits(a: nat, acc: nat, v: nat, q: nat)
    requires 64 * acc + v == q * WORD + a && v < 64
    ensures a % 64 == v
  {
    assert a == 64 * (acc - q * 0x400_0000) + v;
  }

  lemma Over4(a: int, j: int, r: int)
    requires a == 4 * j + r && 0 <= r < 4
    ensures a / 4 == j && a % 4 == r
  {
  }

  lemma Over16(a: int, j: int, r: int)
    requires a == 16 * j + r && 0 <= r < 16
    ensures a / 16 == j && a % 16 == r
  {
  }

  lemma Over256(a: int, j: int, r: int)
    requires a == 256 * j + r && 0 <= r < 256
    ensures a % 256 == r
  {
  }

  lemma LowBits2(a: nat, acc: nat, v: nat, q: nat)
    requires 64 * acc + v == q * WORD + a && v < 64
    ensures a / 1 % 256 == (64 * (acc % 4) + v) / 1 && a % 1 == (64 * (acc % 4) + v) % 1
  {
    assert a == 256 * (acc / 4 - q * 0x100_0000) + (64 * (acc % 4) + v);
  }

  lemma LowBits4(a: nat, acc: nat, v: nat, q: nat)
    requires 64 * acc + v == q * WORD + a && v < 64
    ensures a / 4 % 256 == (64 * (acc % 16) + v) / 4 && a % 4 == (64 * (acc % 16) + v) % 4
  {
    var t := 64 * (acc % 16) + v;
    var k := acc / 16 - q * 0x40_0000;
    assert a == 1024 * k + t;
    Over4(a, 256 * k + t / 4, t % 4);
    Over256(256 * k + t / 4, k, t / 4);
  }

  lemma LowBits6(a: nat, acc: nat, v: nat, q: nat)
    requires 64 * acc + v == q * WORD + a && v < 64
    ensures a / 16 % 256 == (64 * (acc % 64) + v) / 16 && a % 16 == (64 * (acc % 64) + v) % 16
  {
    var t := 64 * (acc % 64) + v;
    var k := acc / 64 - q * 0x10_0000;
    assert a == 4096 * k + t;
    Over16(a, 256 * k + t / 16, t % 16);
    Over256(256 * k + t / 16, k, t / 16);
  }

  // ---- the encoding ----

  function Digit(d: nat): (c: char)
    requires d < 64
    ensures Sextet(c) == d
  {
    if d < 26 then 'A' + d as char
    else if d < 52 then 'a' + (d - 26) as char
    else if d < 62 then '0' + (d - 52) as char
    else if d == 62 then '+' else '/'
  }

  /** Padded base64, section 4 of RFC 4648. */
  function Encode(b: Bytes): string {
    if b == [] then ""
    else if |b| == 1 then [Digit(b[0] / 4), Digit(b[0] % 4 * 16), '=', '=']
    else if |b| == 2 then [Digit(b[0] / 4), Digit(b[0] % 4 * 16 + b[1] / 16), Digit(b[1] % 16 * 4), '=']
    else
      [Digit(b[0] / 4), Digit(b[0] % 4 * 16 + b[1] / 16), Digit(b[1] % 16 * 4 + b[2] / 64), Digit(b[2] % 64)]
      + Encode(b[3..])
  }

  /** How many '=' end the encoding of n bytes. */
  function Padding(n: nat): nat {
    (3 - n % 3) % 3
  }

  /** The alphabet of table 1 of RFC 4648: three runs and two signs; '=' counts as 0 and every other character
      is stepped over. Two different characters never stand for the same six bits but 'A' and '='. */
  lemma TableExactly(c: char, d: char, v: nat)
    requires v < 64
    ensures Sextet('A') == Sextet('=') == 0 && Sextet('a') == 26 && Sextet('0') == 52
    ensures Sextet('+') == 62 && Sextet('/') == 63 && Sextet(Digit(v)) == v
    ensures 'A' <= c <= d <= 'Z' || 'a' <= c <= d <= 'z' || '0' <= c <= d <= '9' ==>
      Sextet(d) - Sextet(c) == d as int - c as int
    ensures Sextet(c) < 0 <==>
      !('A' <= c <= 'Z' || 'a' <= c <= 'z' || '0' <= c <= '9' || c == '+' || c == '/' || c == '=')
    ensures Sextet(c) == Sextet(d) >= 0 ==> c == d || (c in "A=" && d in "A=")
  {
  }

  /** Four characters of the alphabet give three bytes and leave nothing over. */
  lemma Quad(s: string)
    requires |s| >= 4 && forall i :: 0 <= i < 4 ==> Sextet(s[i]) >= 0
    ensures var p, q, r, t := Sextet(s[0]), Sextet(s[1]), Sextet(s[2]), Sextet(s[3]);
      Decoded(s, 0, 0) == [4 * p + q / 16, 16 * (q % 16) + r / 4, 64 * (r % 4) + t] + Decoded(s[4..], 0, 0)
  {
    Shifts();
    hide Pow2, Sextet, Decoded;
    var p, q, r, t := Sextet(s[0]), Sextet(s[1]), Sextet(s[2]), Sextet(s[3]);
    FirstTwo(s);
    LastTwo(s[2..], q % 16);
    assert s[2..][2..] == s[4..];
    Chain(4 * p + q / 16, 16 * (q % 16) + r / 4, 64 * (r % 4) + t, Decoded(s[4..], 0, 0));
  }

  lemma FirstTwo(s: string)
    requires |s| >= 2 && Sextet(s[0]) >= 0 && Sextet(s[1]) >= 0
    ensures Pow2(4) == 16 && var p, q := Sextet(s[0]), Sextet(s[1]);
      Decoded(s, 0, 0) == [4 * p + q / 16] + Decoded(s[2..], q % 16, 4)
  {
    Shifts();
    hide Pow2, Sextet, Decoded;
    var p, q := Sextet(s[0]), Sextet(s[1]);
    assert s[1..][0] == s[1] && s[1..][1..] == s[2..];
    DecodedStep(s, 0, 0);
    DecodedStep(s[1..], p, 6);
    assert (64 * p + q) % 16 == q % 16 && (64 * p + q) / 16 == 4 * p + q / 16;
  }

  lemma LastTwo(s: string, e: nat)
    requires |s| >= 2 && Sextet(s[0]) >= 0 && Sextet(s[1]) >= 0 && e < 16 == Pow2(4)
    ensures Pow2(0) == 1 && var r, t := Sextet(s[0]), Sextet(s[1]);
      Decoded(s, e, 4) == [16 * e + r / 4] + ([64 * (r % 4) + t] + Decoded(s[2..], 0, 0))
  {
    Shifts();
    hide Pow2, Sextet, Decoded;
    var r, t := Sextet(s[0]), Sextet(s[1]);
    assert s[1..][0] == s[1] && s[1..][1..] == s[2..];
    DecodedStep(s, e, 4);
    assert (64 * e + r) % 4 == r % 4 && (64 * e + r) / 4 == 16 * e + r / 4;
    DecodedStep(s[1..], r % 4, 2);
  }

  lemma {:induction false} DecodedStep(s: string, r: nat, bits: nat)
    requires bits in {0, 2, 4, 6} && r < Pow2(bits) && s != "" && Sextet(s[0]) >= 0
    ensures var t := 64 * r + Sextet(s[0]);
      if bits == 0 then t < Pow2(6) && Decoded(s, r, bits) == Decoded(s[1..], t, 6)
      else Decoded(s, r, bits) == [t / Pow2(bits - 2)] + Decoded(s[1..], t % Pow2(bits - 2), bits - 2)
  {
    Shifts();
    hide Pow2, Sextet;
  }

  lemma Chain(x: Byte, y: Byte, z: Byte, rest: Bytes)
    ensures [x] + ([y] + ([z] + rest)) == [x, y, z] + rest
  {
  }

  /** Three bytes cut into four sextets and put together again. */
  lemma Sextets(x: Byte, y: Byte, z: Byte)
    ensures var p, q, r, t := x / 4, x % 4 * 16 + y / 16, y % 16 * 4 + z / 64, z % 64;
      4 * p + q / 16 == x && 16 * (q % 16) + r / 4 == y && 64 * (r % 4) + t == z
  {
  }

  lemma {:induction false} EncodeHead(b: Bytes)
    requires b != []
    ensures var s, y, z := Encode(b), if |b| > 1 then b[1] else 0, if |b| > 2 then b[2] else 0;
      && |s| >= 4 && s[4..] == (if |b| > 3 then Encode(b[3..]) else "")
      && Sextet(s[0]) == b[0] / 4 && Sextet(s[1]) == b[0] % 4 * 16 + y / 16
      && Sextet(s[2]) == y % 16 * 4 + z / 64 && Sextet(s[3]) == z % 64
  {
    assert Sextet('=') == 0;
    hide Digit, Sextet;
    if |b| == 3 { assert b[3..] == [] && Encode([]) == ""; }
  }

  lemma PaddedHead(b: Bytes)
    requires b != []
    ensures var y, z := if |b| > 1 then b[1] else 0, if |b| > 2 then b[2] else 0;
      b + Zeros(Padding(|b|)) == [b[0], y, z] + if |b| > 3 then b[3..] + Zeros(Padding(|b| - 3)) else []
  {
    if |b| > 3 {
      assert b == [b[0], b[1], b[2]] + b[3..];
      assert Padding(|b|) == Padding(|b| - 3);
    }
  }

  lemma NothingEncoded()
    ensures Pow2(0) == 1 && Decoded("", 0, 0) == [] == Zeros(Padding(0)) && Encode([]) == ""
  {
    Shifts();
  }

  /** Decoding an encoding gives the bytes back, and a zero byte for each '='. */
  lemma {:induction false} EncodeDecodes(b: Bytes)
    ensures Pow2(0) == 1 && Decoded(Encode(b), 0, 0) == b + Zeros(Padding(|b|))
  {
    NothingEncoded();
    hide *;
    if b != [] {
      EncodeHead(b);
      Quad(Encode(b));
      Sextets(b[0], if |b| > 1 then b[1] else 0, if |b| > 2 then b[2] else 0);
      PaddedHead(b);
      if |b| > 3 {
        EncodeDecodes(b[3..]);
      }
    }
  }

  /** The text without the characters the decoder steps over. */
  function Kept(s: string): string {
    if s == "" then "" else (if Sextet(s[0]) < 0 then "" else [s[0]]) + Kept(s[1..])
  }

  lemma {:induction false} OthersSkipped(s: string, acc: nat, bits: nat)
    ensures Shifted(s, acc, bits) == Shifted(Kept(s), acc, bits)
  {
    if s != "" {
      var v := Sextet(s[0]);
      if v < 0 {
        assert Kept(s) == Kept(s[1..]);
        OthersSkipped(s[1..], acc, bits);
      } else {
        assert Kept(s)[1..] == Kept(s[1..]);
        var a := Pushed(acc, v);
        OthersSkipped(s[1..], a, if bits + 6 >= 8 then bits - 2 else bits + 6);
      }
    }
  }

  /** Decoding base64 text, broken by any characters outside the alphabet, gives the encoded bytes
      and then one zero byte for each '=', as far as there is room. */
  lemma DecodesText(s: string, b: Bytes, maxFloats: nat)
    requires Kept(s) == Encode(b)
    ensures Stored(s, maxFloats) == Take(b + Zeros(Padding(|b|)), 4 * maxFloats)
  {
    OthersSkipped(s, 0, 0);
    WrapHarmless(Encode(b), 0, 0);
    EncodeDecodes(b);
    assert 0 % Pow2(0) == 0;
  }

  /** The bytes of k floats decode to themselves and are counted as k, within the capacity. */
  lemma FloatsDecode(s: string, b: Bytes, k: nat, maxFloats: nat)
    requires Kept(s) == Encode(b) && |b| == 4 * k && k <= maxFloats
    ensures b <= Stored(s, maxFloats) && |Stored(s, maxFloats)| / 4 == k
  {
    DecodesText(s, b, maxFloats);
  }

  /** For other lengths the padding can be counted in: with room to spare, the count is that of the
      whole floats encoded exactly when the odd bytes and the padding do not make up one more. */
  lemma CountExactly(s: string, b: Bytes, maxFloats: nat)
    requires Kept(s) == Encode(b) && |b| + 2 <= 4 * maxFloats
    ensures |Stored(s, maxFloats)| / 4 == |b| / 4 <==> |b| % 4 + Padding(|b|) < 4
  {
    DecodesText(s, b, maxFloats);
  }
}
