/** C strings and the ctype tests of the "C" locale. A C string is a sequence of
    characters without the terminating NUL, each standing for one byte. */
module CText {

  const NUL: char := '\0'

  predicate IsCString(s: string) {
    NUL !in s
  }

  predicate IsUpper(c: char) {
    'A' <= c <= 'Z'
  }

  predicate IsDigit(c: char) {
    '0' <= c <= '9'
  }

  predicate IsSpace(c: char) {
    c == ' ' || '\t' <= c <= '\r'
  }

  predicate IsPunct(c: char) {
    '!' <= c <= '/' || ':' <= c <= '@' || '[' <= c <= '`' || '{' <= c <= '~'
  }

  /** The three tests used on text, over the bytes of ASCII: white space is the blank and the codes 9 to 13;
      punctuation is what prints, is not the blank, and is neither a letter nor a digit; and no
      other byte is either. */
  lemma ClassesExactly(c: char)
    ensures IsSpace(c) <==> c as int == 32 || 9 <= c as int <= 13
    ensures IsPunct(c) <==>
      33 <= c as int <= 126 && !(48 <= c as int <= 57) && !(65 <= c as int <= 90) && !(97 <= c as int <= 122)
    ensures (IsUpper(c) <==> 65 <= c as int <= 90) && (IsDigit(c) <==> 48 <= c as int <= 57)
  {
    assert 'A' as int == 65 && 'Z' as int == 90 && '0' as int == 48 && '9' as int == 57;
    assert '!' as int == 33 && '/' as int == 47 && ':' as int == 58 && '@' as int == 64;
    assert '[' as int == 91 && '`' as int == 96 && '{' as int == 123 && '~' as int == 126;
  }

  /** At most the first n elements: what snprintf, strncpy and a clamped memcpy keep. */
  function Take<T>(s: seq<T>, n: nat): seq<T> {
    if |s| <= n then s else s[..n]
  }

  predicate AllUpper(s: string) {
    forall i :: 0 <= i < |s| ==> IsUpper(s[i])
  }

  predicate AllDigits(s: string) {
    forall i :: 0 <= i < |s| ==> IsDigit(s[i])
  }

  function DigitChar(d: nat): char
    requires d < 10
  {
    ['0', '1', '2', '3', '4', '5', '6', '7', '8', '9'][d]
  }

  /** "%d" of a non-negative number. */
  function Decimal(n: nat): string {
    if n < 10 then [DigitChar(n)] else Decimal(n / 10) + [DigitChar(n % 10)]
  }

  /** Zeros in front, up to four characters. */
  function Pad4(d: string): string
    decreases 4 - |d|
  {
    if |d| >= 4 then d else Pad4("0" + d)
  }

  /** "%04d" of a non-negative number. */
  function Padded(n: nat): string {
    Pad4(Decimal(n))
  }

  function DigitValue(c: char): nat {
    if IsDigit(c) then (c as int) - ('0' as int) else 0
  }

  /** atoi on a string of digits. */
  function Atoi(s: string): nat {
    if s == "" then 0 else Atoi(s[..|s| - 1]) * 10 + DigitValue(s[|s| - 1])
  }

  lemma {:induction false} DecimalDigits(n: nat)
    ensures AllDigits(Decimal(n)) && 1 <= |Decimal(n)|
    ensures Atoi(Decimal(n)) == n
  {
    if n >= 10 {
      DecimalDigits(n / 10);
      assert Decimal(n)[..|Decimal(n)| - 1] == Decimal(n / 10);
    } else {
      assert Decimal(n)[..0] == "";
    }
  }

  /** A number below 10^k prints with at most k digits. */
  lemma {:induction false} DecimalLength(n: nat, k: nat, bound: nat)
    requires 1 <= k && n < bound && bound == Pow10(k)
    ensures |Decimal(n)| <= k
  {
    if n >= 10 {
      DecimalLength(n / 10, k - 1, Pow10(k - 1));
    }
  }

  function Pow10(k: nat): nat {
    if k == 0 then 1 else 10 * Pow10(k - 1)
  }

  lemma {:induction false} DecimalLong(n: nat)
    requires 10000 <= n
    ensures 5 <= |Decimal(n)|
  {
    assert Decimal(n) == Decimal(n / 10) + [DigitChar(n % 10)];
    assert Decimal(n / 10) == Decimal(n / 10 / 10) + [DigitChar(n / 10 % 10)];
    var m := n / 10 / 10;
    assert m >= 100;
    assert Decimal(m) == Decimal(m / 10) + [DigitChar(m % 10)];
    assert Decimal(m / 10) == Decimal(m / 10 / 10) + [DigitChar(m / 10 % 10)];
    DecimalDigits(m / 10 / 10);
  }

  lemma AtoiLeadingZero(s: string)
    ensures Atoi("0" + s) == Atoi(s)
    decreases |s|
  {
    if s == "" {
      assert "0"[..0] == "";
    } else {
      var t := s[..|s| - 1];
      AtoiLeadingZero(t);
      assert ("0" + s)[..|s|] == "0" + t;
    }
  }

  lemma {:induction false} Pad4Reads(d: string)
    requires AllDigits(d)
    ensures AllDigits(Pad4(d)) && Atoi(Pad4(d)) == Atoi(d)
    ensures |Pad4(d)| == if |d| < 4 then 4 else |d|
    decreases 4 - |d|
  {
    if |d| < 4 {
      AtoiLeadingZero(d);
      Pad4Reads("0" + d);
    }
  }

  /** "%04d" prints digits only, reads back as n, and has four digits exactly below 10000. */
  lemma PaddedReads(n: nat)
    ensures AllDigits(Padded(n)) && 4 <= |Padded(n)|
    ensures Atoi(Padded(n)) == n
    ensures |Padded(n)| == 4 <==> n < 10000
  {
    DecimalDigits(n);
    Pad4Reads(Decimal(n));
    if n < 10000 {
      assert Pow10(2) == 100;
      assert Pow10(4) == 10000;
      DecimalLength(n, 4, 10000);
    } else {
      DecimalLong(n);
    }
  }

  /** memcpy of a whole string into a buffer. */
  method CopyAt(dst: array<char>, at: nat, src: string)
    requires at + |src| <= dst.Length
    modifies dst
    ensures dst[..] == old(dst[..at]) + src + old(dst[at + |src|..])
  {
    forall k | 0 <= k < |src| {
      dst[at + k] := src[k];
    }
  }
}
