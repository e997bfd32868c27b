/** spacy_tokenize: split on white space, detach leading and trailing punctuation. */
module Tokenizer {
  import opened CText

  const MAX_TOKENS: nat := 512
  /** Room for the text of one token, without its NUL. */
  const MAX_CORE: nat := 127

  /** A token: its text and its byte offset. The source also stores the length of text. */
  datatype Tok = Tok(text: string, start: nat) {
    function End(): nat {
      start + |text|
    }
  }

  // ---- chunks ----

  function SpaceEnd(text: string, i: nat): (j: nat)
    requires i <= |text|
    ensures i <= j <= |text|
    ensures forall k :: i <= k < j ==> IsSpace(text[k])
    ensures j < |text| ==> !IsSpace(text[j])
    decreases |text| - i
  {
    if i < |text| && IsSpace(text[i]) then SpaceEnd(text, i + 1) else i
  }

  function ChunkEnd(text: string, i: nat): (j: nat)
    requires i <= |text|
    ensures i <= j <= |text|
    ensures forall k :: i <= k < j ==> !IsSpace(text[k])
    ensures j < |text| ==> IsSpace(text[j])
    decreases |text| - i
  {
    if i < |text| && !IsSpace(text[i]) then ChunkEnd(text, i + 1) else i
  }

  function LeadingPunct(chunk: string): (n: nat)
    ensures n <= |chunk|
  {
    if chunk == "" || !IsPunct(chunk[0]) then 0 else 1 + LeadingPunct(chunk[1..])
  }

  function TrailingPunct(s: string): (n: nat)
    ensures n <= |s|
  {
    if s == "" || !IsPunct(s[|s| - 1]) then 0 else 1 + TrailingPunct(s[..|s| - 1])
  }

  function ToLower(s: string): (t: string)
    ensures |t| == |s|
  {
    seq(|s|, i requires 0 <= i < |s| => if IsUpper(s[i]) then ((s[i] as int) + 32) as char else s[i])
  }

  const ABBREVS: seq<string> := [
    "mr", "mrs", "ms", "dr", "prof", "sr", "jr", "st", "vs", "dept", "corp", "inc", "ltd", "co",
    "gov", "gen", "sgt", "cpl", "pvt", "rep", "sen", "rev", "hon", "est", "approx", "appt",
    "ave", "blvd", "rd", "ln", "ct"
  ]

  predicate IsAbbrev(s: string) {
    0 < |s| < 16 && ToLower(s) in ABBREVS
  }

  /** How many trailing punctuation characters are detached, after lp leading ones. A single
      dot stays attached to a known abbreviation. */
  function Detached(chunk: string, lp: nat): (rp: nat)
    requires lp <= |chunk|
    ensures lp + rp <= |chunk|
  {
    if lp == |chunk| then 0
    else
      var rp := TrailingPunct(chunk[lp..]);
      if rp == 1 && chunk[|chunk| - 1] == '.' && IsAbbrev(chunk[lp..|chunk| - 1]) then 0 else rp
  }

  function Singles(text: string, at: nat, n: nat): (ts: seq<Tok>)
    requires at + n <= |text|
    ensures |ts| == n
  {
    seq(n, i requires 0 <= i < n => Tok([text[at + i]], at + i))
  }

  function Core(text: string, a: nat, b: nat): seq<Tok>
    requires a <= b <= |text|
  {
    if a == b then [] else [Tok(Take(text[a..b], MAX_CORE), a)]
  }

  function ChunkTokens(text: string, a: nat, b: nat): seq<Tok>
    requires a <= b <= |text|
  {
    var lp := LeadingPunct(text[a..b]);
    var rp := Detached(text[a..b], lp);
    Singles(text, a, lp) + Core(text, a + lp, b - rp) + Singles(text, b - rp, rp)
  }

  /** Every token of text from offset i on, without the limit on their number. */
  function AllTokens(text: string, i: nat): seq<Tok>
    requires i <= |text|
    decreases |text| - i
  {
    var a := SpaceEnd(text, i);
    if a == |text| then []
    else
      var b := ChunkEnd(text, a);
      ChunkTokens(text, a, b) + AllTokens(text, b)
  }

  // ---- the procedure ----

  /** One-character tokens for text[at..at + count], as far as there is room. */
  method EmitSingles(text: string, at: nat, count: nat, toks: array<Tok>, n0: nat, maxToks: nat) returns (n: nat)
    requires at + count <= |text| && n0 <= maxToks <= toks.Length
    modifies toks
    ensures n0 <= n <= maxToks
    ensures toks[..n] == Take(old(toks[..n0]) + Singles(text, at, count), maxToks)
    ensures toks[n..] == old(toks[n..])
  {
    hide Singles, Take;
    ghost var before := toks[..];
    SinglesNone(text, at);
    n := n0;
    var k := 0;
    while k < count && n < maxToks
      invariant 0 <= k <= count && n == n0 + k <= maxToks
      invariant toks[..n] == before[..n0] + Singles(text, at, k)
      invariant toks[n..] == before[n..]
    {
      toks[n] := Tok([text[at + k]], at + k);
      SinglesGrow(text, at, k);
      assert toks[..n + 1] == toks[..n] + [toks[n]];
      n := n + 1;
      k := k + 1;
    }
    SinglesFit(text, at, count, k, before[..n0], maxToks);
  }

  lemma SinglesNone(text: string, at: nat)
    requires at <= |text|
    ensures Singles(text, at, 0) == []
  {
  }

  lemma SinglesGrow(text: string, at: nat, k: nat)
    requires at + k < |text|
    ensures Singles(text, at, k + 1) == Singles(text, at, k) + [Tok([text[at + k]], at + k)]
  {
  }

  lemma SinglesFit(text: string, at: nat, count: nat, k: nat, done: seq<Tok>, n: nat)
    requires at + count <= |text| && k <= count && |done| + k <= n && (k == count || |done| + k == n)
    ensures Take(done + Singles(text, at, count), n) == done + Singles(text, at, k)
  {
  }

  method EmitCore(text: string, a: nat, b: nat, toks: array<Tok>, n0: nat, maxToks: nat) returns (n: nat)
    requires a <= b <= |text| && n0 <= maxToks <= toks.Length
    modifies toks
    ensures n0 <= n <= maxToks
    ensures toks[..n] == Take(old(toks[..n0]) + Core(text, a, b), maxToks)
    ensures toks[n..] == old(toks[n..])
  {
    n := n0;
    if b - a > 0 && n < maxToks {
      toks[n] := Tok(Take(text[a..b], MAX_CORE), a);
      n := n + 1;
    }
  }

  /** The tokens of one white-space delimited chunk, as far as there is room. */
  method EmitChunk(text: string, start: nat, end: nat, toks: array<Tok>, n0: nat, maxToks: nat) returns (n: nat)
    requires start <= end <= |text| && n0 <= maxToks <= toks.Length
    modifies toks
    ensures n0 <= n <= maxToks
    ensures toks[..n] == Take(old(toks[..n0]) + ChunkTokens(text, start, end), maxToks)
    ensures toks[n..] == old(toks[n..])
  {
    hide LeadingPunct, Detached, Singles, Core;
    var lp, rp := Strip(text[start..end]);
    n := EmitParts(text, start, start + lp, end - rp, end, toks, n0, maxToks);
  }

  /** Leading punctuation text[a..m], core text[m..r], trailing punctuation text[r..b]. */
  method EmitParts(text: string, a: nat, m: nat, r: nat, b: nat, toks: array<Tok>, n0: nat, maxToks: nat)
    returns (n: nat)
    requires a <= m <= r <= b <= |text| && n0 <= maxToks <= toks.Length
    modifies toks
    ensures n0 <= n <= maxToks
    ensures toks[..n] == Take(old(toks[..n0]) +
              (Singles(text, a, m - a) + Core(text, m, r) + Singles(text, r, b - r)), maxToks)
    ensures toks[n..] == old(toks[n..])
  {
    hide Singles, Core;
    ghost var done := toks[..n0];
    n := EmitSingles(text, a, m - a, toks, n0, maxToks);
    ghost var n1 := n;
    assert toks[n..] == old(toks[..])[n..];
    n := EmitCore(text, m, r, toks, n, maxToks);
    assert toks[n..] == old(toks[..])[n..];
    n := EmitSingles(text, r, b - r, toks, n, maxToks);
    assert toks[n..] == old(toks[..])[n..];
    TakeThree(done, Singles(text, a, m - a), Core(text, m, r), Singles(text, r, b - r), maxToks);
  }

  /** spacy_tokenize: the first maxToks tokens of text. */
  method SpacyTokenize(text: string, toks: array<Tok>, maxToks: nat) returns (n: nat)
    requires IsCString(text) && maxToks <= toks.Length
    modifies toks
    ensures n <= maxToks && toks[..n] == Take(AllTokens(text, 0), maxToks)
    ensures toks[n..] == old(toks[n..])
  {
    hide ChunkTokens;
    n := 0;
    var i := 0;
    var tlen := |text|;
    assert toks[..0] + AllTokens(text, 0) == AllTokens(text, 0);
    while i < tlen && n < maxToks
      invariant 0 <= i <= tlen && 0 <= n <= maxToks
      invariant Take(toks[..n] + AllTokens(text, i), maxToks) == Take(AllTokens(text, 0), maxToks)
      invariant toks[n..] == old(toks[n..])
      decreases tlen - i
    {
      ghost var i0, done := i, toks[..n];
      while i < tlen && IsSpace(text[i])
        invariant i0 <= i <= tlen
        invariant SpaceEnd(text, i) == SpaceEnd(text, i0)
      {
        i := i + 1;
      }
      if i >= tlen {
        break;
      }
      var start := i;
      while i < tlen && !IsSpace(text[i])
        invariant start <= i <= tlen
        invariant ChunkEnd(text, i) == ChunkEnd(text, start)
      {
        i := i + 1;
      }
      var end := i;
      n := EmitChunk(text, start, end, toks, n, maxToks);
      assert AllTokens(text, i0) == ChunkTokens(text, start, end) + AllTokens(text, end);
      TakeMore(done, ChunkTokens(text, start, end), AllTokens(text, end), maxToks);
    }
    TakeDone(toks[..n], AllTokens(text, i), maxToks);
  }

  lemma TakeDone<T>(a: seq<T>, b: seq<T>, n: nat)
    requires |a| <= n && (b == [] || |a| == n)
    ensures Take(a + b, n) == a
  {
  }

  /** The two punctuation scans of one chunk. */
  method Strip(chunk: string) returns (lp: nat, rp: nat)
    ensures lp == LeadingPunct(chunk) && rp == Detached(chunk, lp)
  {
    lp := 0;
    while lp < |chunk| && IsPunct(chunk[lp])
      invariant 0 <= lp <= |chunk|
      invariant LeadingPunct(chunk) == lp + LeadingPunct(chunk[lp..])
    {
      lp := lp + 1;
    }
    rp := 0;
    if lp < |chunk| {
      ghost var core := chunk[lp..];
      assert core[..|core|] == core;
      while rp < |chunk| - lp && IsPunct(chunk[|chunk| - 1 - rp])
        invariant 0 <= rp <= |core|
        invariant TrailingPunct(core) == rp + TrailingPunct(core[..|core| - rp])
      {
        assert core[..|core| - rp][..|core| - rp - 1] == core[..|core| - rp - 1];
        rp := rp + 1;
      }
      assert rp == TrailingPunct(core);
      if rp == 1 && chunk[|chunk| - 1] == '.' && IsAbbrev(chunk[lp..|chunk| - 1]) {
        rp := 0;
      }
    }
  }

  lemma TakeThree<T>(a: seq<T>, b: seq<T>, c: seq<T>, d: seq<T>, n: nat)
    ensures Take(Take(Take(a + b, n) + c, n) + d, n) == Take(a + (b + c + d), n)
  {
    TakeMore(a, b, c, n);
    TakeMore(a, b + c, d, n);
  }

  lemma TakeMore<T>(a: seq<T>, b: seq<T>, c: seq<T>, n: nat)
    ensures Take(Take(a + b, n) + c, n) == Take(a + (b + c), n)
  {
    assert a + b + c == a + (b + c);
    if |a + b| > n {
      assert (a + b + c)[..n] == (a + b)[..n];
    }
  }

  // ---- order and text ----

  /** ts are tokens of text[lo..hi]: nonempty, in increasing order without overlap, each
      with the text found at its offset. */
  ghost predicate Ordered(text: string, ts: seq<Tok>, lo: nat, hi: nat) {
    && lo <= hi <= |text|
    && (forall i :: 0 <= i < |ts| ==>
          && ts[i].text != ""
          && lo <= ts[i].start && ts[i].End() <= hi
          && ts[i].text == text[ts[i].start..ts[i].End()])
    && (forall i, j :: 0 <= i < j < |ts| ==> ts[i].End() <= ts[j].start)
  }

  lemma OrderedJoin(text: string, xs: seq<Tok>, ys: seq<Tok>, lo: nat, mid: nat, hi: nat)
    requires Ordered(text, xs, lo, mid) && Ordered(text, ys, mid, hi)
    ensures Ordered(text, xs + ys, lo, hi)
  {
  }

  lemma SinglesOrdered(text: string, at: nat, n: nat)
    requires at + n <= |text|
    ensures Ordered(text, Singles(text, at, n), at, at + n)
  {
  }

  lemma CoreOrdered(text: string, a: nat, b: nat)
    requires a <= b <= |text|
    ensures Ordered(text, Core(text, a, b), a, b)
  {
  }

  lemma OrderedThree(text: string, a: nat, m: nat, r: nat, b: nat)
    requires a <= m <= r <= b <= |text|
    ensures Ordered(text, Singles(text, a, m - a) + Core(text, m, r) + Singles(text, r, b - r), a, b)
  {
    SinglesOrdered(text, a, m - a);
    CoreOrdered(text, m, r);
    SinglesOrdered(text, r, b - r);
    var xs, ys, zs := Singles(text, a, m - a), Core(text, m, r), Singles(text, r, b - r);
    hide Ordered, Singles, Core;
    OrderedJoin(text, xs, ys, a, m, r);
    OrderedJoin(text, xs + ys, zs, a, r, b);
  }

  lemma ChunkOrdered(text: string, a: nat, b: nat)
    requires a <= b <= |text|
    ensures Ordered(text, ChunkTokens(text, a, b), a, b)
  {
    hide LeadingPunct, Detached, Ordered, Singles, Core;
    var lp := LeadingPunct(text[a..b]);
    var rp := Detached(text[a..b], lp);
    OrderedThree(text, a, a + lp, b - rp, b);
  }

  /** The tokens of a text come in increasing order, do not overlap, and carry its own bytes. */
  lemma {:induction false} TokensOrdered(text: string, i: nat)
    requires i <= |text|
    ensures Ordered(text, AllTokens(text, i), i, |text|)
    decreases |text| - i
  {
    hide ChunkTokens, Ordered;
    var a := SpaceEnd(text, i);
    if a < |text| {
      var b := ChunkEnd(text, a);
      ChunkOrdered(text, a, b);
      TokensOrdered(text, b);
      OrderedJoin(text, ChunkTokens(text, a, b), AllTokens(text, b), a, b, |text|);
      OrderedFrom(text, AllTokens(text, i), i, a, |text|);
    } else {
      OrderedEmpty(text, i);
    }
  }

  lemma OrderedFrom(text: string, ts: seq<Tok>, lo: nat, lo': nat, hi: nat)
    requires lo <= lo' && Ordered(text, ts, lo', hi)
    ensures Ordered(text, ts, lo, hi)
  {
  }

  lemma OrderedEmpty(text: string, lo: nat)
    requires lo <= |text|
    ensures Ordered(text, [], lo, |text|)
  {
  }

  // ---- what is detached ----

  predicate AllPunct(text: string, i: nat, j: nat)
    requires i <= j <= |text|
  {
    forall k :: i <= k < j ==> IsPunct(text[k])
  }

  /** m and q bound what is left of a chunk between the runs of punctuation at its ends; a chunk of
      punctuation alone is all leading. */
  predicate CoreBounds(text: string, a: nat, b: nat, m: nat, q: nat) {
    && a <= m <= q <= b <= |text| && AllPunct(text, a, m) && AllPunct(text, q, b)
    && (if m == b then q == b else m < q && !IsPunct(text[m]) && !IsPunct(text[q - 1]))
  }

  lemma {:induction false} LeadingIs(chunk: string, k: nat)
    requires k <= |chunk| && AllPunct(chunk, 0, k) && (k < |chunk| ==> !IsPunct(chunk[k]))
    ensures LeadingPunct(chunk) == k
  {
    if k > 0 { LeadingIs(chunk[1..], k - 1); }
  }

  lemma {:induction false} TrailingIs(s: string, k: nat)
    requires k <= |s| && AllPunct(s, k, |s|) && (k > 0 ==> !IsPunct(s[k - 1]))
    ensures TrailingPunct(s) == |s| - k
  {
    if k < |s| { TrailingIs(s[..|s| - 1], k); }
  }

  lemma {:induction false} LeadingRun(chunk: string)
    ensures var k := LeadingPunct(chunk); AllPunct(chunk, 0, k) && (k < |chunk| ==> !IsPunct(chunk[k]))
  {
    if chunk != "" && IsPunct(chunk[0]) {
      LeadingRun(chunk[1..]);
      forall k | 0 <= k < LeadingPunct(chunk) ensures IsPunct(chunk[k]) {
        if k > 0 { assert chunk[k] == chunk[1..][k - 1]; }
      }
    }
  }

  lemma {:induction false} TrailingRun(s: string)
    ensures var k := |s| - TrailingPunct(s); AllPunct(s, k, |s|) && (k > 0 ==> !IsPunct(s[k - 1]))
  {
    if s != "" && IsPunct(s[|s| - 1]) { TrailingRun(s[..|s| - 1]); }
  }

  /** Every chunk has such bounds. */
  lemma BoundsExist(text: string, a: nat, b: nat) returns (m: nat, q: nat)
    requires a <= b <= |text|
    ensures CoreBounds(text, a, b, m, q)
  {
    var chunk := text[a..b];
    LeadingRun(chunk);
    m := a + LeadingPunct(chunk);
    var core := text[m..b];
    TrailingRun(core);
    q := if m == b then b else b - TrailingPunct(core);
    hide LeadingPunct, TrailingPunct, IsPunct;
    assert forall k :: a <= k < b ==> text[k] == chunk[k - a];
    assert forall k :: m <= k < b ==> text[k] == core[k - m];
  }

  /** Where the core of a chunk ends: a single dot behind a known abbreviation belongs to it. */
  predicate DotStays(text: string, b: nat, m: nat, q: nat)
    requires m <= q <= b <= |text|
  {
    q + 1 == b && text[q] == '.' && IsAbbrev(text[m..q])
  }

  /** The offset at which the core of a chunk with these bounds ends. */
  function CoreStop(text: string, b: nat, m: nat, q: nat): nat
    requires m <= q <= b <= |text|
  {
    if DotStays(text, b, m, q) then b else q
  }

  lemma BoundsSay(text: string, a: nat, b: nat, m: nat, q: nat)
    requires CoreBounds(text, a, b, m, q)
    ensures a <= m <= q <= b <= |text| && (m == b ==> q == b) && (m < b ==> m < q)
    ensures var chunk := text[a..b]; AllPunct(chunk, 0, m - a) && (m < b ==> !IsPunct(chunk[m - a]))
    ensures var core := text[m..b]; AllPunct(core, q - m, b - m) && (m < q ==> !IsPunct(core[q - m - 1]))
  {
    hide IsPunct;
  }

  lemma SliceOfSlice(text: string, a: nat, b: nat, m: nat, q: nat)
    requires a <= m <= q <= b <= |text|
    ensures text[a..b][m - a..q - a] == text[m..q]
  {
    var x, y := text[a..b][m - a..q - a], text[m..q];
    assert |x| == |y| && forall k :: 0 <= k < |x| ==> x[k] == y[k];
  }

  lemma DetachedUnfolds(chunk: string, lp: nat)
    requires lp <= |chunk|
    ensures Detached(chunk, lp) ==
      if lp == |chunk| then 0
      else if TrailingPunct(chunk[lp..]) == 1 && chunk[|chunk| - 1] == '.' && IsAbbrev(chunk[lp..|chunk| - 1]) then 0
      else TrailingPunct(chunk[lp..])
  {
    hide TrailingPunct, IsAbbrev;
  }

  lemma {:induction false} DetachedIs(text: string, a: nat, b: nat, m: nat, q: nat)
    requires CoreBounds(text, a, b, m, q)
    ensures a <= m <= q <= b <= |text|
    ensures LeadingPunct(text[a..b]) == m - a
    ensures Detached(text[a..b], m - a) == b - CoreStop(text, b, m, q)
  {
    hide LeadingPunct, TrailingPunct, Detached, IsAbbrev, IsPunct, CoreBounds, AllPunct;
    BoundsSay(text, a, b, m, q);
    var chunk := text[a..b];
    LeadingIs(chunk, m - a);
    assert chunk[m - a..] == text[m..b];
    TrailingIs(text[m..b], q - m);
    DetachedUnfolds(chunk, m - a);
    assert m < b ==> chunk[|chunk| - 1] == text[b - 1];
    SliceOfSlice(text, a, b, m, q);
  }

  lemma ChunkSplits(text: string, a: nat, b: nat, m: nat, q: nat)
    requires CoreBounds(text, a, b, m, q)
    ensures a <= m <= CoreStop(text, b, m, q) <= b <= |text|
    ensures
      var r := CoreStop(text, b, m, q);
      ChunkTokens(text, a, b) == Singles(text, a, m - a) + Core(text, m, r) + Singles(text, r, b - r)
  {
    hide LeadingPunct, Detached, CoreBounds, DotStays, Singles, Core;
    DetachedIs(text, a, b, m, q);
  }

  /** The punctuation at the ends of a chunk is detached, one token a byte; what is between, with the dot
      of an abbreviation, is one token; and a chunk has no other tokens. */
  lemma {:induction false} ChunkExactly(text: string, a: nat, b: nat, m: nat, q: nat, t: Tok)
    requires CoreBounds(text, a, b, m, q)
    ensures
      var r := if q + 1 == b && text[q] == '.' && IsAbbrev(text[m..q]) then b else q;
      t in ChunkTokens(text, a, b) <==>
      || (a <= t.start < m && t.text == [text[t.start]])
      || (m < r && t.start == m && t.text == (if r - m <= 127 then text[m..r] else text[m..m + 127]))
      || (r <= t.start < b && t.text == [text[t.start]])
  {
    hide LeadingPunct, Detached, ChunkTokens, Singles, Core, IsAbbrev, IsPunct, AllPunct;
    ChunkSplits(text, a, b, m, q);
    var r := CoreStop(text, b, m, q);
    hide CoreBounds;
    InThree(Singles(text, a, m - a), Core(text, m, r), Singles(text, r, b - r), t);
    SinglesHold(text, a, m - a, t);
    SinglesHold(text, r, b - r, t);
    CoreHolds(text, m, r, t);
  }

  lemma InThree(xs: seq<Tok>, ys: seq<Tok>, zs: seq<Tok>, t: Tok)
    ensures t in xs + ys + zs <==> t in xs || t in ys || t in zs
  {
  }

  lemma SinglesHold(text: string, at: nat, n: nat, t: Tok)
    requires at + n <= |text|
    ensures t in Singles(text, at, n) <==> at <= t.start < at + n && t.text == [text[t.start]]
  {
    if at <= t.start < at + n && t.text == [text[t.start]] {
      assert Singles(text, at, n)[t.start - at] == t;
    }
  }

  lemma CoreHolds(text: string, m: nat, r: nat, t: Tok)
    requires m <= r <= |text|
    ensures t in Core(text, m, r) <==>
      m < r && t.start == m && t.text == (if r - m <= 127 then text[m..r] else text[m..m + 127])
  {
    assert r - m > 127 ==> text[m..r][..127] == text[m..m + 127];
  }

  /** Which abbreviations keep their dot, whatever the case of their letters. */
  lemma AbbrevsKeepDots()
    ensures IsAbbrev("Dr") && IsAbbrev("DR") && IsAbbrev("approx") && !IsAbbrev("Smith") && !IsAbbrev("")
  {
    assert ToLower("Dr") == "dr" == ABBREVS[3] && ToLower("DR") == "dr" && ToLower("approx") == "approx" == ABBREVS[24];
    assert ToLower("Smith")[4] == 'h' && |ToLower("Smith")| == 5;
    assert forall k :: 0 <= k < |ABBREVS| && |ABBREVS[k]| == 5 ==> false;
  }

  // ---- coverage ----

  ghost predicate Covered(ts: seq<Tok>, p: nat) {
    exists i :: 0 <= i < |ts| && ts[i].start <= p < ts[i].End()
  }

  /** Length of what is left of the chunk text[a..b] between the detached punctuation. */
  function CoreLen(text: string, a: nat, b: nat): nat
    requires a <= b <= |text|
  {
    var lp := LeadingPunct(text[a..b]);
    b - a - lp - Detached(text[a..b], lp)
  }

  /** No chunk from offset i on has a core longer than the token text buffer. */
  predicate CoresFit(text: string, i: nat)
    requires i <= |text|
    decreases |text| - i
  {
    var a := SpaceEnd(text, i);
    if a == |text| then true
    else
      var b := ChunkEnd(text, a);
      CoreLen(text, a, b) <= MAX_CORE && CoresFit(text, b)
  }

  lemma CoveredJoin(xs: seq<Tok>, ys: seq<Tok>, p: nat)
    ensures Covered(xs + ys, p) <==> Covered(xs, p) || Covered(ys, p)
  {
    if Covered(xs, p) {
      var i :| 0 <= i < |xs| && xs[i].start <= p < xs[i].End();
      assert (xs + ys)[i] == xs[i];
    }
    if Covered(ys, p) {
      var i :| 0 <= i < |ys| && ys[i].start <= p < ys[i].End();
      assert (xs + ys)[|xs| + i] == ys[i];
    }
  }

  lemma SinglesCover(text: string, at: nat, n: nat, p: nat)
    requires at + n <= |text|
    ensures Covered(Singles(text, at, n), p) <==> at <= p < at + n
  {
    if at <= p < at + n {
      assert Singles(text, at, n)[p - at].start == p;
    }
  }

  lemma PartsCover(text: string, a: nat, m: nat, r: nat, b: nat, p: nat)
    requires a <= m <= r <= b <= |text|
    ensures Covered(Singles(text, a, m - a) + Core(text, m, r) + Singles(text, r, b - r), p)
      <==> a <= p < b && !(m + MAX_CORE <= p < r)
  {
    hide Singles, Core, Covered;
    var xs, ys, zs := Singles(text, a, m - a), Core(text, m, r), Singles(text, r, b - r);
    SinglesCover(text, a, m - a, p);
    CoreCovers(text, m, r, p);
    SinglesCover(text, r, b - r, p);
    CoveredJoin(xs, ys, p);
    CoveredJoin(xs + ys, zs, p);
  }

  /** Where the core of a chunk starts. */
  function CoreStart(text: string, a: nat, b: nat): nat
    requires a <= b <= |text|
  {
    a + LeadingPunct(text[a..b])
  }

  /** A chunk's tokens cover all of it but what its core has too much. */
  lemma ChunkCovers(text: string, a: nat, b: nat, p: nat)
    requires a <= b <= |text|
    ensures
      var m := CoreStart(text, a, b);
      Covered(ChunkTokens(text, a, b), p) <==> a <= p < b && !(m + MAX_CORE <= p < m + CoreLen(text, a, b))
  {
    hide LeadingPunct, Detached, Singles, Core, Covered;
    var lp := LeadingPunct(text[a..b]);
    var rp := Detached(text[a..b], lp);
    PartsCover(text, a, a + lp, b - rp, b, p);
  }

  lemma CoreCovers(text: string, a: nat, b: nat, p: nat)
    requires a <= b <= |text|
    ensures Covered(Core(text, a, b), p) <==> a <= p < b && p < a + MAX_CORE
  {
    var ys := Core(text, a, b);
    if ys != [] {
      assert |ys| == 1 && ys[0].start == a;
      assert ys[0].start <= p < ys[0].End() ==> Covered(ys, p);
    }
  }

  /** Without the limit on the number of tokens: every non-space byte lies in a token exactly
      when no core is cut. */
  lemma {:induction false} AllCovered(text: string, i: nat)
    requires i <= |text|
    ensures CoresFit(text, i) <==>
      (forall p :: i <= p < |text| && !IsSpace(text[p]) ==> Covered(AllTokens(text, i), p))
    decreases |text| - i
  {
    var a := SpaceEnd(text, i);
    if a < |text| {
      var b := ChunkEnd(text, a);
      var xs, ys := ChunkTokens(text, a, b), AllTokens(text, b);
      AllCovered(text, b);
      TokensOrdered(text, b);
      hide ChunkTokens, CoreLen, LeadingPunct;
      forall p ensures Covered(xs + ys, p) <==> Covered(xs, p) || Covered(ys, p) {
        CoveredJoin(xs, ys, p);
      }
      assert forall p :: p < b ==> !Covered(ys, p);
      if CoreLen(text, a, b) <= MAX_CORE {
        forall p ensures Covered(xs, p) <==> a <= p < b {
          ChunkCovers(text, a, b, p);
        }
      } else {
        var p := CutByte(text, a, b);
        assert i <= p < |text| && !IsSpace(text[p]) && !Covered(AllTokens(text, i), p);
      }
    }
  }

  lemma CoreInside(text: string, a: nat, b: nat)
    requires a <= b <= |text|
    ensures a <= CoreStart(text, a, b) && CoreStart(text, a, b) + CoreLen(text, a, b) <= b
  {
    hide LeadingPunct, Detached;
  }

  /** In a chunk whose core is too long, the first byte past the token buffer is in no token. */
  lemma CutByte(text: string, a: nat, b: nat) returns (p: nat)
    requires a <= b <= |text| && CoreLen(text, a, b) > MAX_CORE
    ensures a <= p < b && !Covered(ChunkTokens(text, a, b), p)
  {
    p := CoreStart(text, a, b) + MAX_CORE;
    CoreInside(text, a, b);
    ChunkCovers(text, a, b, p);
  }

  lemma {:induction false} TokensStartNonSpace(text: string, i: nat, k: nat)
    requires i <= |text| && k < |AllTokens(text, i)|
    ensures AllTokens(text, i)[k].start < |text| && !IsSpace(text[AllTokens(text, i)[k].start])
    decreases |text| - i
  {
    hide ChunkTokens;
    var a := SpaceEnd(text, i);
    var b := ChunkEnd(text, a);
    var xs := ChunkTokens(text, a, b);
    ChunkOrdered(text, a, b);
    if k < |xs| {
      assert a <= xs[k].start < b;
    } else {
      TokensStartNonSpace(text, b, k - |xs|);
    }
  }

  /** Every non-space byte of text lies in exactly one of the tokens kept, if and only if
      neither the token limit nor the 127-byte core limit is hit. */
  lemma CoverageExactly(text: string, maxToks: nat)
    ensures
      (forall p :: 0 <= p < |text| && !IsSpace(text[p]) ==> InExactlyOne(Take(AllTokens(text, 0), maxToks), p))
      <==> |AllTokens(text, 0)| <= maxToks && CoresFit(text, 0)
  {
    var ts := AllTokens(text, 0);
    var kept := Take(ts, maxToks);
    TokensOrdered(text, 0);
    AllCovered(text, 0);
    hide AllTokens, CoresFit;
    forall p ensures Covered(kept, p) <==> InExactlyOne(kept, p) {
      ExactlyOne(text, kept, p);
    }
    if |ts| > maxToks {
      var p := ts[maxToks].start;
      TokensStartNonSpace(text, 0, maxToks);
      assert !Covered(kept, p);
    }
  }

  ghost predicate InExactlyOne(ts: seq<Tok>, p: nat) {
    exists i :: 0 <= i < |ts| && ts[i].start <= p < ts[i].End()
             && forall j :: 0 <= j < |ts| && ts[j].start <= p < ts[j].End() ==> j == i
  }

  lemma ExactlyOne(text: string, ts: seq<Tok>, p: nat)
    requires Ordered(text, ts, 0, |text|)
    ensures Covered(ts, p) <==> InExactlyOne(ts, p)
  {
    if Covered(ts, p) {
      var i :| 0 <= i < |ts| && ts[i].start <= p < ts[i].End();
      assert forall j :: 0 <= j < |ts| && ts[j].start <= p < ts[j].End() ==> j == i;
    }
  }
}
