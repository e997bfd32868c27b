/** restore_string: replace every placeholder of a text by what the token map holds for it. */
module Scanner {
  import opened CText
  import opened Options
  import opened TokenMap

  /** How many upper-case letters s starts with. */
  function UpperRun(s: string): (n: nat)
    ensures n <= |s| && forall k :: 0 <= k < n ==> IsUpper(s[k])
    ensures n < |s| ==> !IsUpper(s[n])
  {
    if s == "" || !IsUpper(s[0]) then 0 else 1 + UpperRun(s[1..])
  }

  /** The first n characters of s are a placeholder: "TOK_", one or more upper-case letters,
      '_', four digits, 31 characters at most. */
  ghost predicate Shape(s: string, n: nat) {
    && 10 <= n <= |s| && n < 32
    && s[0] == 'T' && s[1] == 'O' && s[2] == 'K' && s[3] == '_'
    && (forall k :: 4 <= k < n - 5 ==> IsUpper(s[k]))
    && s[n - 5] == '_'
    && (forall k :: n - 4 <= k < n ==> IsDigit(s[k]))
  }

  /** Length of the placeholder s starts with, 0 if it does not start with one. */
  function MatchLen(s: string): (n: nat)
    ensures n <= |s|
    ensures n > 0 ==> Shape(s, n)
  {
    if |s| >= 9 && s[0] == 'T' && s[1] == 'O' && s[2] == 'K' && s[3] == '_' && IsUpper(s[4]) then
      var u := UpperRun(s[4..]);
      var j := 4 + u;
      if j + 5 <= |s| && s[j] == '_' && IsDigit(s[j + 1]) && IsDigit(s[j + 2])
         && IsDigit(s[j + 3]) && IsDigit(s[j + 4]) && j + 5 < 32
      then
        assert forall k :: 4 <= k < j ==> s[k] == s[4..][k - 4];
        j + 5
      else 0
    else 0
  }

  /** A text starts with at most one placeholder, and the scan finds it. */
  lemma ShapeIsMatch(s: string, n: nat)
    requires Shape(s, n)
    ensures MatchLen(s) == n
  {
    UpperRunIs(s[4..], n - 9);
  }

  lemma {:induction false} UpperRunIs(s: string, n: nat)
    requires n <= |s| && (forall k :: 0 <= k < n ==> IsUpper(s[k])) && (n < |s| ==> !IsUpper(s[n]))
    ensures UpperRun(s) == n
  {
    if n > 0 {
      assert IsUpper(s[0]);
      UpperRunIs(s[1..], n - 1);
    }
  }

  /** What one placeholder becomes: unknown ones stay as they are. */
  function Meaning(db: Db, corr: string, tok: string): string {
    match Lookup(db, corr, tok)
    case Some(text) => text
    case None => tok
  }

  /** How far one step of the scan moves, and what it writes. */
  function StepLen(s: string): (n: nat)
    requires s != ""
    ensures 1 <= n <= |s|
  {
    if MatchLen(s) > 0 then MatchLen(s) else 1
  }

  function StepText(db: Db, corr: string, s: string): string
    requires s != ""
  {
    if MatchLen(s) > 0 then Meaning(db, corr, s[..MatchLen(s)]) else s[..1]
  }

  /** The restored text, with all the room it needs. */
  function Restore(db: Db, corr: string, s: string): string
    decreases |s|
  {
    if s == "" then "" else StepText(db, corr, s) + Restore(db, corr, s[StepLen(s)..])
  }

  /** The restored text as the buffer receives it: a looked-up text that does not fit is
      left out, an unknown placeholder is copied whatever room is left. */
  function RestoreInto(db: Db, corr: string, s: string, out: string, max: nat): string
    decreases |s|
  {
    if s == "" || |out| >= max - 1 then out
    else if MatchLen(s) > 0 then
      var tok, rest := s[..MatchLen(s)], s[MatchLen(s)..];
      match Lookup(db, corr, tok)
      case Some(text) => RestoreInto(db, corr, rest, if |out| + |text| < max - 1 then out + text else out, max)
      case None => RestoreInto(db, corr, rest, out + tok, max)
    else RestoreInto(db, corr, s[1..], out + [s[0]], max)
  }

  /** The pattern test of the scan at position si. */
  method MatchAt(src: string, si: nat) returns (toklen: nat)
    requires si < |src|
    ensures toklen == MatchLen(src[si..])
  {
    ghost var rest := src[si..];
    assert forall k :: 0 <= k < |rest| ==> rest[k] == src[si + k];
    if si + 9 <= |src| && src[si] == 'T' && src[si + 1] == 'O' && src[si + 2] == 'K' && src[si + 3] == '_'
       && IsUpper(src[si + 4])
    {
      var j := si + 4;
      while j < |src| && IsUpper(src[j])
        invariant si + 4 <= j <= |src|
        invariant forall k :: si + 4 <= k < j ==> IsUpper(src[k])
      {
        j := j + 1;
      }
      assert forall k :: 0 <= k < |rest[4..]| ==> rest[4..][k] == src[si + 4 + k];
      UpperRunIs(rest[4..], j - si - 4);
      if j + 5 <= |src| && src[j] == '_' && IsDigit(src[j + 1]) && IsDigit(src[j + 2])
         && IsDigit(src[j + 3]) && IsDigit(src[j + 4])
      {
        if j + 5 - si < 32 {
          return j + 5 - si;
        }
        return 0;
      }
    }
    return 0;
  }

  /** With o bytes written and s still to scan: every unknown placeholder the scan comes to leaves
      room behind it for the terminating zero. */
  predicate HasRoom(db: Db, corr: string, s: string, o: nat, max: nat)
    decreases |s|
  {
    if s == "" || o >= max - 1 then true
    else if MatchLen(s) > 0 then
      var m := MatchLen(s);
      match Lookup(db, corr, s[..m])
      case Some(text) => HasRoom(db, corr, s[m..], if o + |text| < max - 1 then o + |text| else o, max)
      case None => o + m < max && HasRoom(db, corr, s[m..], o + m, max)
    else HasRoom(db, corr, s[1..], o + 1, max)
  }

  /** restore_string. An unknown placeholder is copied without looking at dst_max, so the caller has
      to see to the room for it. The result is dst[..n], NUL-terminated. */
  method RestoreString(store: TokenStore, src: string, dst: array<char>, dstMax: nat, corr: string) returns (n: nat)
    requires IsCString(src) && 1 <= dstMax <= dst.Length
    requires HasRoom(store.db, corr, src, 0, dstMax)
    modifies dst
    ensures n < dstMax && dst[n] == NUL
    ensures dst[..n] == RestoreInto(store.db, corr, src, "", dstMax)
  {
    hide MatchLen, Lookup, RestoreInto, HasRoom;
    var si, di := 0, 0;
    var slen := |src|;
    assert src[0..] == src;
    while si < slen && di < dstMax - 1
      invariant 0 <= si <= slen && 0 <= di < dstMax
      invariant HasRoom(store.db, corr, src[si..], di, dstMax)
      invariant RestoreInto(store.db, corr, src[si..], dst[..di], dstMax)
             == RestoreInto(store.db, corr, src, "", dstMax)
    {
      ghost var rest, got := src[si..], dst[..di];
      IntoStep(store.db, corr, rest, got, dstMax);
      RoomStep(store.db, corr, rest, di, dstMax);
      var toklen := MatchAt(src, si);
      if toklen > 0 {
        var tok := src[si..si + toklen];
        assert rest[..toklen] == tok && rest[toklen..] == src[si + toklen..];
        var found := store.TokLookup(corr, tok);
        match found {
          case Some(orig) =>
            var ol := |orig|;
            if di + ol < dstMax - 1 {
              CopyAt(dst, di, orig);
              di := di + ol;
              assert dst[..di] == got + orig;
            }
          case None =>
            CopyAt(dst, di, tok);
            di := di + toklen;
            assert dst[..di] == got + tok;
        }
        si := si + toklen;
      } else {
        dst[di] := src[si];
        assert rest[1..] == src[si + 1..];
        assert dst[..di + 1] == got + [src[si]];
        di := di + 1;
        si := si + 1;
      }
    }
    IntoEnds(store.db, corr, src[si..], dst[..di], dstMax);
    dst[di] := NUL;
    n := di;
  }

  lemma {:induction false} RoomStep(db: Db, corr: string, s: string, o: nat, max: nat)
    requires s != "" && o < max - 1
    ensures HasRoom(db, corr, s, o, max) <==>
      if MatchLen(s) > 0 then
        var m := MatchLen(s);
        match Lookup(db, corr, s[..m])
        case Some(text) => HasRoom(db, corr, s[m..], if o + |text| < max - 1 then o + |text| else o, max)
        case None => o + m < max && HasRoom(db, corr, s[m..], o + m, max)
      else HasRoom(db, corr, s[1..], o + 1, max)
  {
    hide MatchLen, Lookup;
  }

  /** One turn of the scan. */
  lemma {:induction false} IntoStep(db: Db, corr: string, s: string, out: string, max: nat)
    requires s != "" && |out| < max - 1
    ensures RestoreInto(db, corr, s, out, max) ==
      if MatchLen(s) > 0 then
        var tok, rest := s[..MatchLen(s)], s[MatchLen(s)..];
        match Lookup(db, corr, tok)
        case Some(text) => RestoreInto(db, corr, rest, if |out| + |text| < max - 1 then out + text else out, max)
        case None => RestoreInto(db, corr, rest, out + tok, max)
      else RestoreInto(db, corr, s[1..], out + [s[0]], max)
  {
    hide MatchLen, Lookup;
  }

  lemma {:induction false} IntoEnds(db: Db, corr: string, s: string, out: string, max: nat)
    requires s == "" || |out| >= max - 1
    ensures RestoreInto(db, corr, s, out, max) == out
  {
  }

  /** With room for it, the buffer receives the whole restored text. */
  lemma {:induction false} RestoreFits(db: Db, corr: string, s: string, out: string, max: nat)
    requires |out| + |Restore(db, corr, s)| < max - 1
    ensures RestoreInto(db, corr, s, out, max) == out + Restore(db, corr, s)
    decreases |s|
  {
    hide MatchLen, Lookup;
    if s != "" {
      var m, t := StepText(db, corr, s), s[StepLen(s)..];
      RestoreFits(db, corr, t, out + m, max);
      assert s[..1] == [s[0]];
      assert |out| < max - 1 && |out| + |m| < max - 1;
      assert RestoreInto(db, corr, s, out, max) == RestoreInto(db, corr, t, out + m, max);
      assert out + m + Restore(db, corr, t) == out + (m + Restore(db, corr, t));
    }
  }

  // ---- room in the buffer ----

  lemma {:induction false} RoomGives(db: Db, corr: string, s: string, out: string, max: nat)
    requires |out| < max && HasRoom(db, corr, s, |out|, max)
    ensures |RestoreInto(db, corr, s, out, max)| < max
    decreases |s|
  {
    hide MatchLen, Lookup;
    if s != "" && |out| < max - 1 {
      if MatchLen(s) > 0 {
        var tok, rest := s[..MatchLen(s)], s[MatchLen(s)..];
        match Lookup(db, corr, tok)
        case Some(text) => RoomGives(db, corr, rest, if |out| + |text| < max - 1 then out + text else out, max);
        case None => RoomGives(db, corr, rest, out + tok, max);
      } else {
        RoomGives(db, corr, s[1..], out + [s[0]], max);
      }
    }
  }

  lemma {:induction false} NeedsRoom(db: Db, corr: string, s: string, out: string, max: nat)
    requires |out| < max && |RestoreInto(db, corr, s, out, max)| < max
    ensures HasRoom(db, corr, s, |out|, max)
    decreases |s|
  {
    hide MatchLen, Lookup;
    if s != "" && |out| < max - 1 {
      if MatchLen(s) > 0 {
        var tok, rest := s[..MatchLen(s)], s[MatchLen(s)..];
        match Lookup(db, corr, tok)
        case Some(text) => NeedsRoom(db, corr, rest, if |out| + |text| < max - 1 then out + text else out, max);
        case None =>
          if |out| + |tok| < max {
            NeedsRoom(db, corr, rest, out + tok, max);
          } else {
            IntoEnds(db, corr, rest, out + tok, max);
          }
      } else {
        NeedsRoom(db, corr, s[1..], out + [s[0]], max);
      }
    }
  }

  /** What restore_string writes, with the zero behind it, stays inside its buffer exactly when every
      unknown placeholder it comes to, with less than max - 1 bytes written, ends before byte max. */
  lemma RoomExactly(db: Db, corr: string, src: string, max: nat)
    requires max >= 1
    ensures |RestoreInto(db, corr, src, "", max)| < max <==> HasRoom(db, corr, src, 0, max)
  {
    hide RestoreInto, HasRoom;
    if HasRoom(db, corr, src, 0, max) { RoomGives(db, corr, src, "", max); }
    if |RestoreInto(db, corr, src, "", max)| < max { NeedsRoom(db, corr, src, "", max); }
  }

  /** There is room if the whole restored text fits. */
  lemma FittingHasRoom(db: Db, corr: string, src: string, max: nat)
    requires |Restore(db, corr, src)| + 1 < max
    ensures HasRoom(db, corr, src, 0, max)
  {
    hide Restore, RestoreInto, HasRoom;
    RestoreFits(db, corr, src, "", max);
    RoomExactly(db, corr, src, max);
  }

  /** There is room, in a buffer of any size, if every placeholder in the text is known. */
  lemma {:induction false} KnownHasRoom(db: Db, corr: string, s: string, o: nat, max: nat)
    requires forall i {:trigger s[i..]} :: 0 <= i < |s| && MatchLen(s[i..]) > 0 ==>
      Lookup(db, corr, s[i..][..MatchLen(s[i..])]).Some?
    ensures HasRoom(db, corr, s, o, max)
    decreases |s|
  {
    hide MatchLen, Lookup;
    if s != "" && o < max - 1 {
      assert s[0..] == s;
      var n := if MatchLen(s) > 0 then MatchLen(s) else 1;
      KnownBehind(db, corr, s, n);
      if MatchLen(s) > 0 {
        var text := Lookup(db, corr, s[..n]).value;
        KnownHasRoom(db, corr, s[n..], if o + |text| < max - 1 then o + |text| else o, max);
      } else {
        KnownHasRoom(db, corr, s[n..], o + 1, max);
      }
    }
  }

  lemma KnownBehind(db: Db, corr: string, s: string, n: nat)
    requires n <= |s|
    requires forall i {:trigger s[i..]} :: 0 <= i < |s| && MatchLen(s[i..]) > 0 ==>
      Lookup(db, corr, s[i..][..MatchLen(s[i..])]).Some?
    ensures var t := s[n..];
      forall i {:trigger t[i..]} :: 0 <= i < |t| && MatchLen(t[i..]) > 0 ==>
        Lookup(db, corr, t[i..][..MatchLen(t[i..])]).Some?
  {
    hide MatchLen, Lookup;
    var t := s[n..];
    forall i {:trigger t[i..]} | 0 <= i < |t| && MatchLen(t[i..]) > 0
      ensures Lookup(db, corr, t[i..][..MatchLen(t[i..])]).Some?
    {
      assert t[i..] == s[n + i..];
    }
  }

  lemma NoStart(s: string)
    requires s != "" && s[0] != 'T'
    ensures MatchLen(s) == 0
  {
  }

  /** Plain text that nearly fills the buffer and an unknown placeholder behind it: all of both is
      written, whatever the size of the buffer. */
  lemma {:induction false} UnknownOverruns(db: Db, corr: string, plain: string, tok: string, out: string, max: nat)
    requires 'T' !in plain && Scannable(tok) && Lookup(db, corr, tok).None?
    requires |out| + |plain| < max - 1
    ensures RestoreInto(db, corr, plain + tok, out, max) == out + plain + tok
    decreases |plain|
  {
    hide *;
    if plain == "" {
      OverrunLast(db, corr, tok, out, max);
      assert plain + tok == tok && out + plain + tok == out + tok;
    } else {
      UnknownOverruns(db, corr, plain[1..], tok, out + [plain[0]], max);
      OverrunPlain(db, corr, plain, tok, out, max);
    }
  }

  lemma OverrunLast(db: Db, corr: string, tok: string, out: string, max: nat)
    requires Scannable(tok) && Lookup(db, corr, tok).None? && |out| < max - 1
    ensures RestoreInto(db, corr, tok, out, max) == out + tok
  {
    assert tok[..|tok|] == tok && tok[|tok|..] == "";
    hide Lookup, MatchLen, RestoreInto;
    IntoStep(db, corr, tok, out, max);
    IntoEnds(db, corr, "", out + tok, max);
  }

  lemma OverrunPlain(db: Db, corr: string, plain: string, tok: string, out: string, max: nat)
    requires plain != "" && 'T' !in plain && |out| + |plain| < max - 1
    requires RestoreInto(db, corr, plain[1..] + tok, out + [plain[0]], max) == out + [plain[0]] + plain[1..] + tok
    ensures RestoreInto(db, corr, plain + tok, out, max) == out + plain + tok
  {
    var s := plain + tok;
    assert s[0] == plain[0] && plain[0] in plain && s[1..] == plain[1..] + tok;
    NoStart(s);
    hide *;
    IntoStep(db, corr, s, out, max);
    assert out + [plain[0]] + plain[1..] + tok == out + plain + tok;
  }

  /** A text of 65536 bytes for which the 64 KiB buffer of walk_and_rewrite is one byte too small:
      the zero would go behind it. */
  lemma OverrunHappens(corr: string, plain: string)
    requires |plain| == 65526 && forall i :: 0 <= i < |plain| ==> plain[i] == 'x'
    ensures |RestoreInto(map[], corr, plain + "TOK_A_0000", "", 65536)| == 65536
    ensures !HasRoom(map[], corr, plain + "TOK_A_0000", 0, 65536)
  {
    var tok := "TOK_A_0000";
    assert Shape(tok, 10);
    ShapeIsMatch(tok, 10);
    assert 'T' !in plain;
    UnknownOverruns(map[], corr, plain, tok, "", 65536);
    hide RestoreInto, HasRoom, MatchLen;
    assert |"" + plain + tok| == 65536;
    RoomExactly(map[], corr, plain + tok, 65536);
  }

  // ---- placeholders the scanner recognises ----

  /** The scanner takes the whole of tok as one placeholder. */
  predicate Scannable(tok: string) {
    |tok| > 0 && MatchLen(tok) == |tok|
  }

  /** The scanner takes the whole of a printed placeholder as one match exactly when its label is
      upper-case letters only and its number still has four digits. */
  lemma ScannableExactly(lbl: string, n: nat)
    requires GoodLabel(lbl) && n <= INT_MAX
    ensures Scannable(Token(lbl, n)) <==> lbl != "" && AllUpper(lbl) && n < 10000
  {
    TokenShape(lbl, n);
    PaddedReads(n);
    TokenChars(lbl, Padded(n));
    hide Token, Padded, Atoi, MatchLen;
    var tok, p := Token(lbl, n), Padded(n);
    if lbl != "" && AllUpper(lbl) && n < 10000 {
      ShapeIsMatch(tok, |tok|);
    }
    if Scannable(tok) {
      assert Shape(tok, |tok|);
      LastUnderscore(lbl, p, tok);
    }
  }

  /** The number the scanner reads instead of n: its first four digits. */
  function Leading(n: nat): (m: nat)
    ensures n >= 1000 ==> 1000 <= m < 10000
    ensures n >= 10000 ==> m < n
    ensures n < 10000 ==> m == n
  {
    if n < 10000 then n else Leading(n / 10)
  }

  lemma {:induction false} LeadingDigits(n: nat)
    requires n >= 1000
    ensures |Decimal(n)| >= 4 && Decimal(n)[..4] == Decimal(Leading(n))
  {
    if n < 10000 {
      FourDigits(n);
    } else {
      LeadingDigits(n / 10);
      assert Decimal(n)[..4] == Decimal(n / 10)[..4];
    }
  }

  lemma FourDigits(n: nat)
    requires 1000 <= n < 10000
    ensures |Decimal(n)| == 4 && Decimal(n)[..4] == Decimal(n) == Padded(n)
  {
    var a, b, c := n / 10, n / 100, n / 1000;
    assert a / 10 == b && b / 10 == c && c < 10;
    assert Decimal(b) == [DigitChar(c), DigitChar(b % 10)];
    assert Decimal(a) == Decimal(b) + [DigitChar(a % 10)];
    assert Decimal(n) == Decimal(a) + [DigitChar(n % 10)];
  }

  lemma NoPadding(n: nat)
    requires |Decimal(n)| >= 4
    ensures Padded(n) == Decimal(n)
  {
  }

  lemma PaddedLeads(n: nat)
    requires n >= 10000
    ensures |Padded(n)| > 4 && Padded(n)[..4] == Padded(Leading(n))
  {
    PaddedReads(n);
    LeadingDigits(n);
    FourDigits(Leading(n));
    hide Decimal, Leading, Atoi, AllDigits;
    NoPadding(n);
  }

  /** From 10000 on a placeholder prints as the one numbered by its first four digits, with the other
      digits behind it. */
  lemma LargeNumberPrints(lbl: string, n: nat)
    requires GoodLabel(lbl) && 10000 <= n <= INT_MAX
    ensures |Padded(n)| > 4 && Token(lbl, n) == Token(lbl, Leading(n)) + Padded(n)[4..]
  {
    PaddedLeads(n);
    var m := Leading(n);
    assert m <= INT_MAX;
    hide *;
    TokenShape(lbl, n);
    TokenShape(lbl, m);
    SplitBehind("TOK_" + lbl + "_", Padded(n));
  }

  lemma SplitBehind(head: string, p: string)
    requires |p| >= 4
    ensures head + p == head + p[..4] + p[4..]
  {
  }

  lemma OneCopied(db: Db, corr: string, c: char, rest: string)
    requires c != 'T'
    ensures Restore(db, corr, [c] + rest) == [c] + Restore(db, corr, rest)
  {
    hide MatchLen, Meaning;
    var s := [c] + rest;
    NoStart(s);
    assert s[1..] == rest && s[..1] == [c];
  }

  lemma {:induction false} DigitsCopied(db: Db, corr: string, digits: string, rest: string)
    requires AllDigits(digits)
    ensures Restore(db, corr, digits + rest) == digits + Restore(db, corr, rest)
  {
    hide Restore;
    if digits == "" {
      assert digits + rest == rest;
    } else {
      var c, later := digits[0], digits[1..];
      assert digits + rest == [c] + (later + rest);
      OneCopied(db, corr, c, later + rest);
      DigitsCopied(db, corr, later, rest);
      assert [c] + (later + Restore(db, corr, rest)) == digits + Restore(db, corr, rest);
    }
  }

  /** A placeholder numbered from 10000 on is read as another one: in any text it is restored to
      whatever the placeholder of its first four digits stands for, followed by the other digits. */
  lemma LargeNumberMisread(db: Db, corr: string, gap: string, lbl: string, n: nat, rest: string)
    requires GoodLabel(lbl) && lbl != "" && AllUpper(lbl) && 10000 <= n <= INT_MAX
    ensures MatchLen(Token(lbl, n)) == |Token(lbl, Leading(n))| < |Token(lbl, n)| && |Padded(n)| > 4
    ensures Restore(db, corr, gap + Token(lbl, n) + rest)
      == Restore(db, corr, gap) + Meaning(db, corr, Token(lbl, Leading(n))) + Padded(n)[4..] + Restore(db, corr, rest)
  {
    LargeNumberPrints(lbl, n);
    PaddedReads(n);
    var m, tail := Leading(n), Padded(n)[4..];
    ScannableExactly(lbl, m);
    var tok := Token(lbl, m);
    MatchStable(tok, tail);
    assert AllDigits(tail);
    hide Token, Padded, MatchLen, Restore, Meaning, Leading;
    assert gap + (tok + tail) + rest == gap + tok + (tail + rest);
    RestoreAcross(db, corr, gap, tok, tail + rest);
    DigitsCopied(db, corr, tail, rest);
    Regrouped(Restore(db, corr, gap), Meaning(db, corr, tok), tail, Restore(db, corr, rest));
  }

  lemma Regrouped(a: string, b: string, c: string, d: string)
    ensures a + b + (c + d) == a + b + c + d
  {
  }

  lemma TokenChars(lbl: string, p: string)
    ensures
      var t := "TOK_" + lbl + "_" + p;
      && t[0] == 'T' && t[1] == 'O' && t[2] == 'K' && t[3] == '_'
      && (forall k :: 4 <= k < 4 + |lbl| ==> t[k] == lbl[k - 4])
      && t[4 + |lbl|] == '_'
      && (forall k :: 5 + |lbl| <= k < |t| ==> t[k] == p[k - 5 - |lbl|])
  {
  }

  lemma LastUnderscore(lbl: string, p: string, tok: string)
    requires tok == "TOK_" + lbl + "_" + p && AllDigits(p) && |p| >= 4 && Shape(tok, |tok|)
    ensures |p| == 4 && lbl != "" && AllUpper(lbl)
  {
    TokenChars(lbl, p);
    assert forall k :: 5 + |lbl| <= k < |tok| ==> IsDigit(tok[k]);
    assert !IsDigit(tok[|tok| - 5]);
    forall i | 0 <= i < |lbl| ensures IsUpper(lbl[i]) {
      assert tok[4 + i] == lbl[i];
    }
  }

  // ---- a match never runs into a placeholder ----

  /** A match found at the head of s is found there whatever follows. */
  lemma MatchStable(s: string, t: string)
    requires MatchLen(s) > 0
    ensures MatchLen(s + t) == MatchLen(s)
  {
    ShapeIsMatch(s + t, MatchLen(s));
  }

  /** A match that ends within the first n characters depends on those only. */
  lemma MatchWithin(s: string, n: nat)
    requires n <= |s| && 0 < MatchLen(s) <= n
    ensures MatchLen(s[..n]) == MatchLen(s)
  {
    ShapeIsMatch(s[..n], MatchLen(s));
  }

  /** A placeholder cannot hold the start of another one further in. */
  lemma NoInnerStart(s: string, n: nat, q: nat)
    requires 0 < q < n && q + 5 <= |s|
    requires s[q] == 'T' && s[q + 1] == 'O' && s[q + 2] == 'K' && s[q + 3] == '_' && IsUpper(s[q + 4])
    ensures !Shape(s, n)
  {
  }

  /** No match starts in copied text and runs into a placeholder behind it. */
  lemma NoMatchIntoToken(gap: string, tok: string, rest: string)
    requires gap != "" && Scannable(tok)
    ensures MatchLen(gap + tok + rest) == MatchLen(gap)
  {
    hide MatchLen;
    var s, q := gap + tok + rest, |gap|;
    assert s[..q] == gap;
    assert forall k :: 0 <= k < |tok| ==> s[q + k] == tok[k];
    assert Shape(tok, |tok|);
    if MatchLen(gap) > 0 {
      assert s == gap + (tok + rest);
      MatchStable(gap, tok + rest);
    } else if 0 < MatchLen(s) <= q {
      MatchWithin(s, q);
    } else if MatchLen(s) > q {
      NoInnerStart(s, MatchLen(s), q);
    }
  }

  /** Restoring a text around a recognised placeholder restores both sides separately. */
  lemma {:induction false} RestoreAcross(db: Db, corr: string, gap: string, tok: string, rest: string)
    requires Scannable(tok)
    ensures Restore(db, corr, gap + tok + rest)
         == Restore(db, corr, gap) + Meaning(db, corr, tok) + Restore(db, corr, rest)
    decreases |gap|
  {
    hide *;
    if gap == "" {
      assert gap + tok + rest == tok + rest;
      TokenStep(db, corr, tok, rest);
      RestoreStep(db, corr, tok + rest);
      RestoreNone(db, corr);
      assert "" + Meaning(db, corr, tok) == Meaning(db, corr, tok);
    } else {
      var n := StepLen(gap);
      GapStep(db, corr, gap, tok, rest);
      RestoreStep(db, corr, gap);
      RestoreStep(db, corr, gap + tok + rest);
      RestoreAcross(db, corr, gap[n..], tok, rest);
      Regroup(StepText(db, corr, gap), Restore(db, corr, gap[n..]), Meaning(db, corr, tok), Restore(db, corr, rest));
    }
  }

  lemma RestoreStep(db: Db, corr: string, s: string)
    requires s != ""
    ensures Restore(db, corr, s) == StepText(db, corr, s) + Restore(db, corr, s[StepLen(s)..])
  {
    hide StepText, StepLen;
  }

  lemma RestoreNone(db: Db, corr: string)
    ensures Restore(db, corr, "") == ""
  {
  }

  /** A step at a placeholder. */
  lemma TokenStep(db: Db, corr: string, tok: string, rest: string)
    requires Scannable(tok)
    ensures tok + rest != "" && StepLen(tok + rest) == |tok|
    ensures StepText(db, corr, tok + rest) == Meaning(db, corr, tok) && (tok + rest)[|tok|..] == rest
  {
    hide MatchLen, Meaning;
    MatchStable(tok, rest);
    assert (tok + rest)[..|tok|] == tok;
  }

  /** A step in the text before a placeholder. */
  lemma GapStep(db: Db, corr: string, gap: string, tok: string, rest: string)
    requires gap != "" && Scannable(tok)
    ensures
      var s, n := gap + tok + rest, StepLen(gap);
      StepLen(s) == n && StepText(db, corr, s) == StepText(db, corr, gap) && s[n..] == gap[n..] + tok + rest
  {
    hide MatchLen, Meaning, Scannable;
    NoMatchIntoToken(gap, tok, rest);
    var s, n := gap + tok + rest, StepLen(gap);
    assert s[n..] == gap[n..] + tok + rest && s[..n] == gap[..n];
  }

  lemma Regroup(a: string, b: string, c: string, d: string)
    ensures a + (b + c + d) == a + b + c + d
  {
  }

  /** No placeholder issued under corr occurs in s. */
  ghost predicate Clean(db: Db, corr: string, s: string) {
    forall i {:trigger s[i..]} :: 0 <= i < |s| && MatchLen(s[i..]) > 0 ==>
      Lookup(db, corr, s[i..][..MatchLen(s[i..])]).None?
  }

  /** Nothing in s looks like a placeholder. */
  predicate NoPlaceholder(s: string) {
    forall i :: 0 <= i < |s| ==> MatchLen(s[i..]) == 0
  }

  /** Such a text is restored to itself: unknown placeholders are copied verbatim. */
  lemma {:induction false} RestoreClean(db: Db, corr: string, s: string)
    requires Clean(db, corr, s)
    ensures Restore(db, corr, s) == s
    decreases |s|
  {
    hide *;
    if s != "" {
      var n := StepLen(s);
      RestoreStep(db, corr, s);
      CleanStep(db, corr, s);
      CleanTail(db, corr, s, n);
      RestoreClean(db, corr, s[n..]);
      assert s[..n] + s[n..] == s;
    } else {
      RestoreNone(db, corr);
    }
  }

  /** One step over a clean text copies it. */
  lemma CleanStep(db: Db, corr: string, s: string)
    requires Clean(db, corr, s) && s != ""
    ensures StepText(db, corr, s) == s[..StepLen(s)]
  {
    hide MatchLen, Lookup;
    assert s[0..] == s;
  }

  lemma CleanTail(db: Db, corr: string, s: string, n: nat)
    requires Clean(db, corr, s) && n <= |s|
    ensures Clean(db, corr, s[n..])
  {
    forall i | 0 <= i < |s[n..]| && MatchLen(s[n..][i..]) > 0
      ensures Lookup(db, corr, s[n..][i..][..MatchLen(s[n..][i..])]).None?
    {
      assert s[n..][i..] == s[n + i..];
    }
  }

  /** Every stretch of a clean text is clean. */
  lemma CleanSlice(db: Db, corr: string, s: string, a: nat, b: nat)
    requires Clean(db, corr, s) && a <= b <= |s|
    ensures Clean(db, corr, s[a..b])
  {
    hide MatchLen, Lookup;
    forall i | 0 <= i < |s[a..b]| && MatchLen(s[a..b][i..]) > 0
      ensures Lookup(db, corr, s[a..b][i..][..MatchLen(s[a..b][i..])]).None?
    {
      var t := s[a..b][i..];
      assert s[a + i..] == t + s[b..];
      MatchStable(t, s[b..]);
      assert s[a + i..][..MatchLen(t)] == t[..MatchLen(t)];
    }
  }

  // ---- placeholders that stay ----

  /** "TOK_" stands at i. */
  predicate HeadAt(s: string, i: nat) {
    i + 4 <= |s| && s[i] == 'T' && s[i + 1] == 'O' && s[i + 2] == 'K' && s[i + 3] == '_'
  }

  /** A label without digits and without the head of a placeholder in it. */
  predicate PlainLabel(lbl: string) {
    forall i :: 0 <= i < |lbl| ==> !IsDigit(lbl[i]) && !HeadAt(lbl, i)
  }

  /** No match starts in the placeholder of such a label, unless the label is upper case. */
  lemma NoMatchFrom(lbl: string, p: string, j: nat, rest: string, m: nat)
    requires PlainLabel(lbl) && (lbl == "" || !AllUpper(lbl)) && AllDigits(p) && p != ""
    requires j < 5 + |lbl| + |p|
    ensures !Shape(("TOK_" + lbl + "_" + p)[j..] + rest, m)
  {
    TokenChars(lbl, p);
    var tok, l := "TOK_" + lbl + "_" + p, |lbl|;
    var t := tok[j..] + rest;
    assert forall k :: 0 <= k < |tok| - j ==> t[k] == tok[j + k];
    if j == 0 {
      assert t == tok + rest;
      HeadNotShape(lbl, p, rest, m);
    } else if 4 <= j && j + 4 <= 4 + l {
      assert !HeadAt(lbl, j - 4);
      assert t[0] == lbl[j - 4] && t[1] == lbl[j - 3] && t[2] == lbl[j - 2] && t[3] == lbl[j - 1];
    } else if 4 <= j < 4 + l {
      assert t[4 + l - j] == '_' && t[5 + l - j] == p[0];
    }
  }

  lemma HeadNotShape(lbl: string, p: string, rest: string, m: nat)
    requires PlainLabel(lbl) && (lbl == "" || !AllUpper(lbl))
    ensures !Shape("TOK_" + lbl + "_" + p + rest, m)
  {
    TokenChars(lbl, p);
    var t, l := "TOK_" + lbl + "_" + p + rest, |lbl|;
    assert forall k :: 0 <= k < 5 + l ==> t[k] == ("TOK_" + lbl + "_" + p)[k];
    if 10 <= m <= |t| && m < 5 + l + 4 {
      assert !IsDigit(t[m - 4]);
    } else if 10 <= m <= |t| && m == 9 + l {
      var i :| 0 <= i < l && !IsUpper(lbl[i]);
      assert t[4 + i] == lbl[i];
    } else {
      assert !IsUpper(t[4 + l]);
    }
  }

  /** No match runs from the text before into such a placeholder. */
  lemma NoMatchInto(g: string, lbl: string, p: string, rest: string, m: nat)
    requires g != "" && PlainLabel(lbl)
    ensures m > |g| ==> !Shape(g + ("TOK_" + lbl + "_" + p) + rest, m)
  {
    TokenChars(lbl, p);
    var tok, q := "TOK_" + lbl + "_" + p, |g|;
    var t := g + tok + rest;
    assert forall k :: 0 <= k < 5 + |lbl| ==> t[q + k] == tok[k];
    assert t[q] == 'T' && t[q + 1] == 'O' && t[q + 2] == 'K' && t[q + 3] == '_' && !IsDigit(t[q + 4]);
  }

  /** A placeholder whose label has neither digits nor "TOK_" in it and is not upper case, such as
      WORK_OF_ART, is never touched, in any text that is itself clean and with any token map. */
  lemma OtherLabelClean(db: Db, corr: string, gap: string, lbl: string, n: nat, rest: string)
    requires GoodLabel(lbl) && n <= INT_MAX && PlainLabel(lbl) && (lbl == "" || !AllUpper(lbl))
    requires Clean(db, corr, gap) && Clean(db, corr, rest)
    ensures Clean(db, corr, gap + Token(lbl, n) + rest)
  {
    TokenShape(lbl, n);
    PaddedReads(n);
    var s, p := gap + Token(lbl, n) + rest, Padded(n);
    hide MatchLen, Lookup, Token, Padded, PlainLabel, AllUpper, AllDigits, Clean;
    forall i | 0 <= i < |s| && MatchLen(s[i..]) > 0
      ensures Lookup(db, corr, s[i..][..MatchLen(s[i..])]).None?
    {
      OtherLabelAt(db, corr, gap, lbl, p, rest, i);
    }
    CleanIs(db, corr, s);
  }

  lemma CleanIs(db: Db, corr: string, s: string)
    requires forall i {:trigger s[i..]} :: 0 <= i < |s| && MatchLen(s[i..]) > 0 ==>
      Lookup(db, corr, s[i..][..MatchLen(s[i..])]).None?
    ensures Clean(db, corr, s)
  {
    hide MatchLen, Lookup;
  }

  /** Where a match can be: in the text before, as it was there, or in the text behind. */
  lemma OtherLabelMatch(gap: string, lbl: string, p: string, rest: string, i: nat)
    requires PlainLabel(lbl) && (lbl == "" || !AllUpper(lbl)) && AllDigits(p) && p != ""
    requires var s := gap + ("TOK_" + lbl + "_" + p) + rest; i < |s| && MatchLen(s[i..]) > 0
    ensures var s, q := gap + ("TOK_" + lbl + "_" + p) + rest, |gap| + 5 + |lbl| + |p|;
      && (i < |gap| ==> MatchLen(gap[i..]) == MatchLen(s[i..]) && s[i..][..|gap| - i] == gap[i..])
      && (i >= |gap| ==> q <= i && s[i..] == rest[i - q..])
  {
    hide *;
    var tok := "TOK_" + lbl + "_" + p;
    var s, g := gap + tok + rest, |gap|;
    var m := MatchLen(s[i..]);
    assert |tok| == 5 + |lbl| + |p|;
    if i < g {
      var u := gap[i..];
      Front(gap, tok, rest, i);
      NoMatchInto(u, lbl, p, rest, m);
      MatchWithin(s[i..], |u|);
    } else {
      NotInside(gap, tok, rest, i);
      if i < g + |tok| { NoMatchFrom(lbl, p, i - g, rest, m); }
    }
  }

  lemma Front(gap: string, tok: string, rest: string, i: nat)
    requires i < |gap|
    ensures (gap + tok + rest)[i..] == gap[i..] + tok + rest && (gap[i..] + tok + rest)[..|gap| - i] == gap[i..]
  {
  }

  lemma NotInside(gap: string, tok: string, rest: string, i: nat)
    requires |gap| <= i <= |gap + tok + rest|
    ensures var s, q := gap + tok + rest, |gap| + |tok|;
      if i < q then s[i..] == tok[i - |gap|..] + rest else s[i..] == rest[i - q..]
  {
  }

  lemma OtherLabelAt(db: Db, corr: string, gap: string, lbl: string, p: string, rest: string, i: nat)
    requires PlainLabel(lbl) && (lbl == "" || !AllUpper(lbl)) && AllDigits(p) && p != ""
    requires Clean(db, corr, gap) && Clean(db, corr, rest)
    requires var s := gap + ("TOK_" + lbl + "_" + p) + rest; i < |s| && MatchLen(s[i..]) > 0
    ensures var s := gap + ("TOK_" + lbl + "_" + p) + rest; Lookup(db, corr, s[i..][..MatchLen(s[i..])]).None?
  {
    OtherLabelMatch(gap, lbl, p, rest, i);
    var s := gap + ("TOK_" + lbl + "_" + p) + rest;
    var t := s[i..];
    var m := MatchLen(t);
    hide MatchLen, Lookup, PlainLabel, AllUpper, AllDigits;
    if i < |gap| {
      var u := gap[i..];
      assert t[..m] == t[..|u|][..m] == u[..m];
    } else {
      assert t == rest[i - (|gap| + 5 + |lbl| + |p|)..];
    }
  }

  /** So such a placeholder stays in the restored text in place of its entity. */
  lemma OtherLabelStays(db: Db, corr: string, gap: string, lbl: string, n: nat, rest: string)
    requires GoodLabel(lbl) && n <= INT_MAX && PlainLabel(lbl) && (lbl == "" || !AllUpper(lbl))
    requires Clean(db, corr, gap) && Clean(db, corr, rest)
    ensures Restore(db, corr, gap + Token(lbl, n) + rest) == gap + Token(lbl, n) + rest
  {
    hide *;
    OtherLabelClean(db, corr, gap, lbl, n, rest);
    RestoreClean(db, corr, gap + Token(lbl, n) + rest);
  }

  lemma {:induction false} NeverShorter(db: Db, corr: string, s: string)
    requires forall t :: |t| <= 31 ==> |Meaning(db, corr, t)| >= |t|
    ensures |Restore(db, corr, s)| >= |s|
    decreases |s|
  {
    if s != "" {
      StepNeverShorter(db, corr, s);
      hide Meaning, MatchLen, StepText, StepLen;
      NeverShorter(db, corr, s[StepLen(s)..]);
    }
  }

  lemma StepNeverShorter(db: Db, corr: string, s: string)
    requires s != "" && forall t :: |t| <= 31 ==> |Meaning(db, corr, t)| >= |t|
    ensures |StepText(db, corr, s)| >= StepLen(s)
  {
    hide Meaning, MatchLen;
  }

  /** A token map in which one placeholder stands for something longer, and nothing else is known. */
  lemma OneKnown(corr: string, tok: string) returns (db: Db)
    requires GoodCorr(corr) && |tok| <= 31
    ensures |Meaning(db, corr, tok)| > |tok|
    ensures forall t :: |t| <= 31 ==> |Meaning(db, corr, t)| >= |t|
  {
    db := map[LookupKey(corr, tok) := ":" + tok + "!"];
    assert AfterColon(":" + tok + "!") == tok + "!";
    forall t | |t| <= 31 ensures |Meaning(db, corr, t)| >= |t| {
      if LookupKey(corr, t) == LookupKey(corr, tok) {
        assert (corr + ":tok:" + t)[|corr| + 5..] == t && (corr + ":tok:" + tok)[|corr| + 5..] == tok;
      }
    }
  }

  /** A text is restored to itself whatever the token map holds exactly when nothing in it looks like
      a placeholder. */
  lemma StaysExactly(corr: string, s: string)
    requires GoodCorr(corr)
    ensures (forall db :: Restore(db, corr, s) == s) <==> NoPlaceholder(s)
  {
    hide MatchLen, Lookup, Restore, Meaning;
    if NoPlaceholder(s) {
      forall db ensures Restore(db, corr, s) == s {
        assert Clean(db, corr, s);
        RestoreClean(db, corr, s);
      }
    } else {
      var i :| 0 <= i < |s| && MatchLen(s[i..]) > 0;
      var m := MatchLen(s[i..]);
      var gap, tok, rest := s[..i], s[i..][..m], s[i..][m..];
      MatchWithin(s[i..], m);
      var db := OneKnown(corr, tok);
      RestoreAcross(db, corr, gap, tok, rest);
      NeverShorter(db, corr, gap);
      NeverShorter(db, corr, rest);
      assert s == gap + tok + rest;
      assert |Restore(db, corr, s)| > |s|;
    }
  }

  /** Labels with digits or placeholders in them can be misread: the placeholder of A_0001 is restored
      to what TOK_A_0001 stands for, with the rest of it behind. */
  lemma DigitLabelMisread(db: Db, corr: string, n: nat)
    requires n <= INT_MAX
    ensures GoodLabel("A_0001") && Token("A_0001", n) == "TOK_A_0001" + ("_" + Padded(n))
    ensures Restore(db, corr, Token("A_0001", n)) ==
      Meaning(db, corr, "TOK_A_0001") + Restore(db, corr, "_" + Padded(n))
  {
    TokenShape("A_0001", n);
    var tok, rest := "TOK_A_0001", "_" + Padded(n);
    assert Shape(tok, 10);
    ShapeIsMatch(tok, 10);
    assert Token("A_0001", n) == tok + rest;
    hide Token, Padded, MatchLen;
    TokenStep(db, corr, tok, rest);
  }
}
