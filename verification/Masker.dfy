/** mask_string: replace every decoded entity of a text by its placeholder. */
module Masker {
  import opened CText
  import opened Options
  import opened TokenMap
  import opened Scanner
  import Tokenizer
  import Decoder

  /** An entity by byte offsets. */
  datatype Patch = Patch(start: nat, end: nat, lbl: string)

  const MAX_ENTITY: nat := 512

  /** What the loaded model computes for the tokens of a text. */
  type Model = string -> Decoder.Network

  // ---- which stretches are entities ----

  function Tokens(src: string): seq<Tokenizer.Tok> {
    Take(Tokenizer.AllTokens(src, 0), Tokenizer.MAX_TOKENS)
  }

  function PatchOf(ts: seq<Tokenizer.Tok>, names: seq<string>, c: Decoder.Cut): Patch
    requires c.start < c.end <= |ts| && |names| == Decoder.N_MOVES
  {
    Patch(ts[c.start].start, ts[c.end - 1].End(), Decoder.LabelOf(names, c))
  }

  function PatchList(ts: seq<Tokenizer.Tok>, names: seq<string>, cuts: seq<Decoder.Cut>): (ps: seq<Patch>)
    requires Decoder.Sorted(cuts, |ts|) && |names| == Decoder.N_MOVES
    ensures |ps| == |cuts|
  {
    seq(|cuts|, i requires 0 <= i < |cuts| => PatchOf(ts, names, cuts[i]))
  }

  function Patches(model: Model, names: seq<string>, src: string): seq<Patch>
    requires |names| == Decoder.N_MOVES
  {
    var ts := Tokens(src);
    Decoder.CutsSorted(model(src), |ts|);
    PatchList(ts, names, Decoder.Cuts(model(src), |ts|))
  }

  /** Nonempty stretches of src, in order, without overlap. */
  ghost predicate ValidPatches(src: string, ps: seq<Patch>) {
    && (forall i :: 0 <= i < |ps| ==> ps[i].start < ps[i].end <= |src|)
    && (forall i, j :: 0 <= i < j < |ps| ==> ps[i].end <= ps[j].start)
  }

  /** Whatever the model says, tokenizer and decoder hand over sorted disjoint stretches. */
  lemma PatchesValid(model: Model, names: seq<string>, src: string)
    requires |names| == Decoder.N_MOVES
    ensures ValidPatches(src, Patches(model, names, src))
  {
    var ts := Tokens(src);
    Decoder.CutsSorted(model(src), |ts|);
    KeptOrdered(src);
    hide Tokens, Decoder.Cuts, PatchList, Decoder.Sorted, Tokenizer.Ordered, ValidPatches;
    ListValid(src, ts, names, Decoder.Cuts(model(src), |ts|));
  }

  lemma KeptOrdered(src: string)
    ensures Tokenizer.Ordered(src, Tokens(src), 0, |src|)
  {
    Tokenizer.TokensOrdered(src, 0);
  }

  lemma ListValid(src: string, ts: seq<Tokenizer.Tok>, names: seq<string>, cuts: seq<Decoder.Cut>)
    requires Tokenizer.Ordered(src, ts, 0, |src|) && Decoder.Sorted(cuts, |ts|) && |names| == Decoder.N_MOVES
    ensures ValidPatches(src, PatchList(ts, names, cuts))
  {
    var ps := PatchList(ts, names, cuts);
    hide Tokenizer.Ordered, Decoder.LabelOf;
    forall i | 0 <= i < |ps| ensures ps[i].start < ps[i].end <= |src| {
      StretchOf(src, ts, cuts[i].start, cuts[i].end);
    }
    forall i, j | 0 <= i < j < |ps| ensures ps[i].end <= ps[j].start {
      InOrder(src, ts, cuts[i].end - 1, cuts[j].start);
    }
  }

  /** The stretch from the first to the last token of a span. */
  lemma StretchOf(src: string, ts: seq<Tokenizer.Tok>, a: nat, b: nat)
    requires Tokenizer.Ordered(src, ts, 0, |src|) && a < b <= |ts|
    ensures ts[a].start < ts[b - 1].End() <= |src|
  {
    assert a < b - 1 ==> ts[a].End() <= ts[b - 1].start;
    assert ts[a].text != "" && ts[b - 1].text != "";
  }

  lemma InOrder(src: string, ts: seq<Tokenizer.Tok>, a: nat, b: nat)
    requires Tokenizer.Ordered(src, ts, 0, |src|) && a < b < |ts|
    ensures ts[a].End() <= ts[b].start
  {
  }

  // ---- masking ----

  function Slice(src: string, a: nat, b: nat): string {
    if a < b <= |src| then src[a..b] else ""
  }

  /** The entity text handed to the token map: the 512-byte buffer stays empty if it is too small. */
  function Entity(src: string, p: Patch): string {
    var s := Slice(src, p.start, p.end);
    if |s| < MAX_ENTITY then s else ""
  }

  /** Append a piece unless the buffer is too small for it. */
  function Place(out: string, piece: string, max: nat): string {
    if |out| + |piece| < max - 1 then out + piece else out
  }

  /** The loop over the entities, from byte last on, with a buffer of max bytes. */
  function MaskFrom(db: Db, corr: string, src: string, ps: seq<Patch>, last: nat, out: string, max: nat): (Db, string)
    decreases |ps|
  {
    if ps == [] then (db, Place(out, Slice(src, last, |src|), max))
    else
      var out1 := Place(out, Slice(src, last, ps[0].start), max);
      var (db1, tok) := GetOrCreate(db, corr, Entity(src, ps[0]), ps[0].lbl);
      MaskFrom(db1, corr, src, ps[1..], ps[0].end, Place(out1, tok, max), max)
  }

  function MaskInto(db: Db, corr: string, src: string, ps: seq<Patch>, max: nat): (Db, string)
    requires max >= 1
  {
    if ps == [] then (db, Take(src, max - 1)) else MaskFrom(db, corr, src, ps, 0, "", max)
  }

  /** strncpy of the unchanged text. */
  method CopyUnchanged(src: string, dst: array<char>, dstMax: nat) returns (n: nat)
    requires 1 <= dstMax <= dst.Length
    modifies dst
    ensures n < dst.Length && dst[n] == NUL && dst[..n] == Take(src, dstMax - 1)
  {
    var s := Take(src, dstMax - 1);
    CopyAt(dst, 0, s);
    forall k | |s| <= k < dstMax {
      dst[k] := NUL;
    }
    n := |s|;
  }

  /** memcpy of a piece at the end of what is written, guarded by the room left. */
  method PlaceAt(dst: array<char>, dpos: nat, piece: string, dstMax: nat) returns (n: nat)
    requires dpos < dstMax <= dst.Length
    modifies dst
    ensures n < dstMax && dst[..n] == Place(old(dst[..dpos]), piece, dstMax)
  {
    n := dpos;
    if |piece| > 0 && dpos + |piece| < dstMax - 1 {
      CopyAt(dst, dpos, piece);
      n := dpos + |piece|;
    }
  }

  /** The loop of mask_string over the decoded spans, and the tail. */
  method MaskSpans(store: TokenStore, src: string, toks: array<Tokenizer.Tok>, spans: array<Decoder.Span>, ns: nat,
                   dst: array<char>, dstMax: nat, corr: string, ghost ps: seq<Patch>) returns (n: nat)
    requires 1 <= dstMax <= dst.Length && ns == |ps| <= spans.Length
    requires forall k :: 0 <= k < ns ==> SpanIsPatch(toks[..], spans[k], ps[k])
    modifies store, dst
    ensures n < dst.Length && dst[n] == NUL
    ensures (store.db, dst[..n]) == MaskFrom(old(store.db), corr, src, ps, 0, "", dstMax)
  {
    hide GetOrCreate, Place, Slice;
    var dpos, lastEnd, i := 0, 0, 0;
    assert ps[0..] == ps && dst[..0] == "";
    while i < ns
      invariant 0 <= i <= ns && 0 <= dpos < dstMax
      invariant MaskFrom(store.db, corr, src, ps[i..], lastEnd, dst[..dpos], dstMax)
             == MaskFrom(old(store.db), corr, src, ps, 0, "", dstMax)
    {
      assert SpanIsPatch(toks[..], spans[i], ps[i]);
      var charStart := toks[spans[i].start].start;
      var charEnd := toks[spans[i].end - 1].End();
      dpos := PlaceAt(dst, dpos, Slice(src, lastEnd, charStart), dstMax);
      var ent := Slice(src, charStart, charEnd);
      if |ent| >= MAX_ENTITY {
        ent := "";
      }
      var tok := store.GetOrCreateTok(corr, ent, spans[i].lbl);
      dpos := PlaceAt(dst, dpos, tok, dstMax);
      lastEnd := charEnd;
      assert ps[i..][1..] == ps[i + 1..];
      i := i + 1;
    }
    dpos := PlaceAt(dst, dpos, Slice(src, lastEnd, |src|), dstMax);
    dst[dpos] := NUL;
    n := dpos;
  }

  /** mask_string: tokenize, decode, rewrite. The result is dst[..n], NUL-terminated. */
  method MaskString(store: TokenStore, model: Model, names: seq<string>, src: string,
                    dst: array<char>, dstMax: nat, corr: string) returns (n: nat)
    requires |names| == Decoder.N_MOVES && IsCString(src) && 1 <= dstMax <= dst.Length
    modifies store, dst
    ensures n < dst.Length && dst[n] == NUL
    ensures (store.db, dst[..n]) == MaskInto(old(store.db), corr, src, Patches(model, names, src), dstMax)
  {
    hide MaskFrom, Decoder.LabelOf, Decoder.Cuts, Decoder.Named, Tokenizer.AllTokens;
    var toks := new Tokenizer.Tok[Tokenizer.MAX_TOKENS](_ => Tokenizer.Tok("", 0));
    var nt := Tokenizer.SpacyTokenize(src, toks, Tokenizer.MAX_TOKENS);
    if nt <= 0 {
      NoTokensNoPatches(model, names, src);
      n := CopyUnchanged(src, dst, dstMax);
      return;
    }
    var spans := new Decoder.Span[Decoder.MAX_SPANS](_ => Decoder.Span(0, 0, ""));
    var ns := Decoder.NerDecodeSpans(model(src), names, nt, spans);
    assert toks[..nt] == Tokens(src);
    SpansArePatches(model, names, src, spans[..ns]);
    if ns == 0 {
      n := CopyUnchanged(src, dst, dstMax);
      return;
    }
    ghost var ps := Patches(model, names, src);
    forall k | 0 <= k < ns ensures SpanIsPatch(toks[..], spans[k], ps[k]) {
      assert SpanIsPatch(Tokens(src), spans[..ns][k], ps[k]);
    }
    n := MaskSpans(store, src, toks, spans, ns, dst, dstMax, corr, ps);
  }

  lemma NoTokensNoPatches(model: Model, names: seq<string>, src: string)
    requires |names| == Decoder.N_MOVES && Tokens(src) == []
    ensures Patches(model, names, src) == []
  {
    Decoder.CutsSorted(model(src), 0);
  }

  ghost predicate SpanIsPatch(ts: seq<Tokenizer.Tok>, s: Decoder.Span, p: Patch) {
    s.start < s.end <= |ts| && p == Patch(ts[s.start].start, ts[s.end - 1].End(), s.lbl)
  }

  lemma SpansArePatches(model: Model, names: seq<string>, src: string, spans: seq<Decoder.Span>)
    requires |names| == Decoder.N_MOVES
    requires spans == Decoder.Named(names, Decoder.Cuts(model(src), |Tokens(src)|))
    ensures |spans| == |Patches(model, names, src)|
    ensures forall k :: 0 <= k < |spans| ==> SpanIsPatch(Tokens(src), spans[k], Patches(model, names, src)[k])
  {
    Decoder.CutsSorted(model(src), |Tokens(src)|);
    hide Decoder.Cuts, Tokens, Decoder.LabelOf;
    NamedAreListed(Tokens(src), names, Decoder.Cuts(model(src), |Tokens(src)|));
  }

  lemma NamedAreListed(ts: seq<Tokenizer.Tok>, names: seq<string>, cuts: seq<Decoder.Cut>)
    requires Decoder.Sorted(cuts, |ts|) && |names| == Decoder.N_MOVES
    ensures forall k :: 0 <= k < |cuts| ==>
      SpanIsPatch(ts, Decoder.Named(names, cuts)[k], PatchList(ts, names, cuts)[k])
  {
    hide Decoder.LabelOf;
  }

  // ---- with room enough ----

  /** The masked text with all the room it needs, and the token map after it. */
  function Masked(db: Db, corr: string, src: string, ps: seq<Patch>, last: nat): (Db, string)
    decreases |ps|
  {
    if ps == [] then (db, Slice(src, last, |src|))
    else
      var (db1, tok) := GetOrCreate(db, corr, Entity(src, ps[0]), ps[0].lbl);
      var (db2, rest) := Masked(db1, corr, src, ps[1..], ps[0].end);
      (db2, Slice(src, last, ps[0].start) + tok + rest)
  }

  lemma {:induction false} MaskFits(db: Db, corr: string, src: string, ps: seq<Patch>, last: nat, out: string, max: nat)
    requires |out| + |Masked(db, corr, src, ps, last).1| < max - 1
    ensures
      MaskFrom(db, corr, src, ps, last, out, max)
        == (Masked(db, corr, src, ps, last).0, out + Masked(db, corr, src, ps, last).1)
    decreases |ps|
  {
    hide GetOrCreate, Slice;
    if ps != [] {
      var gap := Slice(src, last, ps[0].start);
      var (db1, tok) := GetOrCreate(db, corr, Entity(src, ps[0]), ps[0].lbl);
      MaskFits(db1, corr, src, ps[1..], ps[0].end, out + gap + tok, max);
      var rest := Masked(db1, corr, src, ps[1..], ps[0].end).1;
      assert out + gap + tok + rest == out + (gap + tok + rest);
    }
  }

  // ---- round trip ----

  /** An entity whose placeholder can be looked up and scanned: what the entity buffer holds of it
      is one of the texts the forward keys tell apart, and its label is upper case. */
  ghost predicate Maskable(texts: iset<string>, src: string, p: Patch) {
    Entity(src, p) in texts && p.lbl != "" && AllUpper(p.lbl) && |p.lbl| <= 15
  }

  ghost predicate AllMaskable(texts: iset<string>, src: string, ps: seq<Patch>) {
    forall i :: 0 <= i < |ps| ==> Maskable(texts, src, ps[i])
  }

  /** Every entity is kept whole in the entity buffer. */
  predicate AllShort(ps: seq<Patch>) {
    forall i :: 0 <= i < |ps| ==> ps[i].end - ps[i].start < MAX_ENTITY
  }

  /** Entities the pair of programs can bring back. */
  ghost predicate AllRestorable(texts: iset<string>, src: string, ps: seq<Patch>) {
    AllMaskable(texts, src, ps) && AllShort(ps)
  }

  /** Placeholders handed out so far, with those this masking adds. */
  ghost function IssuesAfter(db: Db, corr: string, issued: seq<Issue>, src: string, ps: seq<Patch>): seq<Issue>
    decreases |ps|
  {
    if ps == [] then issued
    else
      var ent := Entity(src, ps[0]);
      var db1 := GetOrCreate(db, corr, ent, ps[0].lbl).0;
      IssuesAfter(db1, corr,
        if Hit(db, corr, ent).Some? then issued else issued + [Issue(ent, ps[0].lbl)], src, ps[1..])
  }

  /** Every label issued can be scanned. */
  ghost predicate ScannableLabels(issued: seq<Issue>) {
    forall i :: 0 <= i < |issued| ==> issued[i].lbl != "" && AllUpper(issued[i].lbl)
  }

  /** What restoring gives: the entities as their buffer held them, and what becomes of the text
      between them. */
  function Returned(db: Db, corr: string, src: string, ps: seq<Patch>, last: nat): string
    decreases |ps|
  {
    if ps == [] then Restore(db, corr, Slice(src, last, |src|))
    else
      Restore(db, corr, Slice(src, last, ps[0].start)) + Entity(src, ps[0])
        + Returned(db, corr, src, ps[1..], ps[0].end)
  }

  /** The token map holds exactly the placeholders issued, answers texts by their forward keys, and
      all placeholders can be scanned; the keys tell apart the texts issued and the others given. */
  ghost predicate Good(db: Db, corr: string, issued: seq<Issue>, texts: iset<string>) {
    && GoodCorr(corr) && Issued(db, corr, issued) && ForwardSound(db, corr, issued) && ScannableLabels(issued)
    && KeysTell(corr, texts) && TextsIn(issued, texts)
  }

  /** The entities of src can all be masked, and there are numbers left for them. */
  ghost predicate Ready(texts: iset<string>, issued: seq<Issue>, src: string, ps: seq<Patch>) {
    ValidPatches(src, ps) && AllMaskable(texts, src, ps) && |issued| + |ps| <= 10000
  }

  lemma HitAnswered(db: Db, corr: string, texts: iset<string>, issued: seq<Issue>, text: string)
    requires Good(db, corr, issued, texts) && text in texts && |issued| <= 10000 && Hit(db, corr, text).Some?
    ensures
      var tok := Hit(db, corr, text).value;
      IssuedFor(issued, tok, text) && Scannable(tok) && |tok| <= 30
  {
    hide Token, Lookup, Counter, ForwardKey, Scannable, Hit;
    var tok := Hit(db, corr, text).value;
    assert IssuedLike(issued, corr, tok, text);
    hide Good, Issued, ForwardSound, KeysTell, TextsIn, IssuedLike;
    assert KeysTell(corr, texts) && TextsIn(issued, texts) && ScannableLabels(issued) && Issued(db, corr, issued);
    LikeIsFor(issued, corr, texts, tok, text);
    var i :| 0 <= i < |issued| && tok == Token(issued[i].lbl, i) && issued[i].text == text;
    ScannableExactly(issued[i].lbl, i);
    TokenShape(issued[i].lbl, i);
  }

  lemma MissAnswered(db: Db, corr: string, texts: iset<string>, issued: seq<Issue>, text: string, lbl: string)
    requires Good(db, corr, issued, texts) && |issued| < 10000
    requires text in texts && |text| < 512 && lbl != "" && AllUpper(lbl) && |lbl| <= 15
    ensures
      var (db', tok) := Allocate(db, corr, text, lbl);
      var issued' := issued + [Issue(text, lbl)];
      && Good(db', corr, issued', texts) && IssuedFor(issued', tok, text) && Scannable(tok) && |tok| <= 30
  {
    hide Token, Lookup, Counter, ForwardKey, Scannable, Allocate, ForwardSound;
    assert GoodLabel(lbl);
    AllocateKeeps(db, corr, issued, text, lbl);
    AllocateKeepsForward(db, corr, issued, text, lbl);
    var issued' := issued + [Issue(text, lbl)];
    assert issued'[|issued|] == Issue(text, lbl);
    ScannableExactly(lbl, |issued|);
    TokenShape(lbl, |issued|);
    hide Issued;
  }

  /** One entity: the map keeps its invariant, and the answer is a scannable placeholder
      issued for exactly this text. */
  lemma EntityAnswered(
    db: Db, corr: string, texts: iset<string>, issued: seq<Issue>, src: string,
    ps: seq<Patch>) returns (issued': seq<Issue>)
    requires Good(db, corr, issued, texts) && Ready(texts, issued, src, ps) && ps != []
    ensures
      var ent := Entity(src, ps[0]);
      && issued' == (if Hit(db, corr, ent).Some? then issued else issued + [Issue(ent, ps[0].lbl)])
      && var (db', tok) := GetOrCreate(db, corr, ent, ps[0].lbl);
      && Good(db', corr, issued', texts) && Ready(texts, issued', src, ps[1..])
      && IssuedFor(issued', tok, ent) && Scannable(tok) && |tok| <= 30
  {
    var p := ps[0];
    var ent := Entity(src, p);
    FirstReady(texts, issued, src, ps);
    hide Slice, Hit, Allocate, Good, IssuedFor, Scannable, Entity, AllMaskable, ValidPatches, AllUpper;
    if Hit(db, corr, ent).Some? {
      issued' := issued;
      HitAnswered(db, corr, texts, issued, ent);
    } else {
      issued' := issued + [Issue(ent, p.lbl)];
      MissAnswered(db, corr, texts, issued, ent, p.lbl);
    }
  }

  lemma FirstReady(texts: iset<string>, issued: seq<Issue>, src: string, ps: seq<Patch>)
    requires Ready(texts, issued, src, ps) && ps != []
    ensures
      var ent := Entity(src, ps[0]);
      && |ent| < MAX_ENTITY && ent in texts
      && ps[0].lbl != "" && AllUpper(ps[0].lbl) && |ps[0].lbl| <= 15
      && ValidPatches(src, ps[1..]) && AllMaskable(texts, src, ps[1..])
      && |issued| + |ps| <= 10000
  {
    assert Maskable(texts, src, ps[0]);
  }

  /** Restoring a masked text with any later state of the token map gives back what the entity buffer
      held of every entity, around whatever restoring makes of the text between the entities. */
  lemma {:induction false} MaskThenRestore(
    db: Db, corr: string, texts: iset<string>, issued: seq<Issue>, src: string, ps: seq<Patch>, last: nat,
    later: Db, issuedLater: seq<Issue>)
    requires Good(db, corr, issued, texts) && Ready(texts, issued, src, ps)
    requires Issued(later, corr, issuedLater) && IssuesAfter(db, corr, issued, src, ps) <= issuedLater
    ensures Restore(later, corr, Masked(db, corr, src, ps, last).1) == Returned(later, corr, src, ps, last)
    decreases |ps|
  {
    hide GetOrCreate, Slice, Restore, Issued, Scannable, IssuedFor, Hit, Entity, Good, Ready, Meaning;
    if ps != [] {
      var issued1 := EntityAnswered(db, corr, texts, issued, src, ps);
      var ent := Entity(src, ps[0]);
      var (db1, tok) := GetOrCreate(db, corr, ent, ps[0].lbl);
      MaskThenRestore(db1, corr, texts, issued1, src, ps[1..], ps[0].end, later, issuedLater);
      IssuesGrow(db1, corr, issued1, src, ps[1..]);
      LaterMeaning(later, corr, issued1, issuedLater, tok, ent);
      RestoreAcross(later, corr, Slice(src, last, ps[0].start), tok, Masked(db1, corr, src, ps[1..], ps[0].end).1);
    }
  }

  lemma {:induction false} IssuesGrow(db: Db, corr: string, issued: seq<Issue>, src: string, ps: seq<Patch>)
    ensures issued <= IssuesAfter(db, corr, issued, src, ps)
    ensures |IssuesAfter(db, corr, issued, src, ps)| <= |issued| + |ps|
    decreases |ps|
  {
    hide GetOrCreate, Hit;
    if ps != [] {
      var ent := Entity(src, ps[0]);
      var db1 := GetOrCreate(db, corr, ent, ps[0].lbl).0;
      var issued1 := if Hit(db, corr, ent).Some? then issued else issued + [Issue(ent, ps[0].lbl)];
      IssuesGrow(db1, corr, issued1, src, ps[1..]);
    }
  }

  lemma LaterMeaning(later: Db, corr: string, issued: seq<Issue>, issuedLater: seq<Issue>, tok: string, text: string)
    requires Issued(later, corr, issuedLater) && issued <= issuedLater && IssuedFor(issued, tok, text)
    ensures Meaning(later, corr, tok) == text
  {
    hide Token, Lookup;
    var i :| 0 <= i < |issued| && tok == Token(issued[i].lbl, i) && issued[i].text == text;
    assert issuedLater[i] == issued[i];
  }

  /** A text without issued placeholders comes back unchanged from its parts exactly when none of
      its entities is too long for the entity buffer; otherwise it comes back shorter. */
  lemma {:induction false} ReturnedExactly(later: Db, corr: string, src: string, ps: seq<Patch>, last: nat)
    requires ValidPatches(src, ps) && Clean(later, corr, src)
    requires last <= |src| && (ps != [] ==> last <= ps[0].start)
    ensures AllShort(ps) ==> Returned(later, corr, src, ps, last) == src[last..]
    ensures !AllShort(ps) ==> |Returned(later, corr, src, ps, last)| < |src| - last
    decreases |ps|
  {
    hide Restore, Clean, Slice, Entity;
    if ps == [] {
      GapWhole(later, corr, src, last, |src|);
    } else {
      var p, rest := ps[0], ps[1..];
      assert p.start < p.end <= |src| && (|ps| > 1 ==> p.end <= ps[1].start);
      assert ValidPatches(src, rest);
      ShortHead(ps);
      hide ValidPatches, AllShort;
      GapWhole(later, corr, src, last, p.start);
      EntityIs(src, p);
      ReturnedExactly(later, corr, src, rest, p.end);
      assert src[last..p.start] + src[p.start..p.end] + src[p.end..] == src[last..];
    }
  }

  lemma ShortHead(ps: seq<Patch>)
    requires ps != []
    ensures AllShort(ps) <==> ps[0].end - ps[0].start < MAX_ENTITY && AllShort(ps[1..])
  {
    if AllShort(ps[1..]) && ps[0].end - ps[0].start < MAX_ENTITY {
      forall i | 0 <= i < |ps| ensures ps[i].end - ps[i].start < MAX_ENTITY {
        if i > 0 { assert ps[i] == ps[1..][i - 1]; }
      }
    }
  }

  lemma EntityIs(src: string, p: Patch)
    requires p.start < p.end <= |src|
    ensures Entity(src, p) == if p.end - p.start < MAX_ENTITY then src[p.start..p.end] else ""
  {
  }

  lemma GapWhole(later: Db, corr: string, src: string, a: nat, b: nat)
    requires Clean(later, corr, src) && a <= b <= |src|
    ensures Restore(later, corr, Slice(src, a, b)) == src[a..b]
  {
    hide Clean, Restore;
    CleanSlice(later, corr, src, a, b);
    RestoreClean(later, corr, src[a..b]);
  }

  /** The masking keeps the invariant of the token map. */
  lemma {:induction false} MaskKeeps(
    db: Db, corr: string, texts: iset<string>, issued: seq<Issue>, src: string, ps: seq<Patch>, last: nat)
    requires Good(db, corr, issued, texts) && Ready(texts, issued, src, ps)
    ensures Good(Masked(db, corr, src, ps, last).0, corr, IssuesAfter(db, corr, issued, src, ps), texts)
    decreases |ps|
  {
    hide GetOrCreate, Slice, Scannable, IssuedFor, Hit, Entity, Good, Ready;
    if ps != [] {
      var issued1 := EntityAnswered(db, corr, texts, issued, src, ps);
      var ent := Entity(src, ps[0]);
      MaskKeeps(GetOrCreate(db, corr, ent, ps[0].lbl).0, corr, texts, issued1, src, ps[1..], ps[0].end);
    }
  }

  /** Masking lengthens a text by at most 29 bytes an entity. */
  lemma {:induction false} MaskedLength(
    db: Db, corr: string, texts: iset<string>, issued: seq<Issue>, src: string, ps: seq<Patch>, last: nat)
    requires Good(db, corr, issued, texts) && Ready(texts, issued, src, ps)
    requires last <= |src| && (ps != [] ==> last <= ps[0].start)
    ensures |Masked(db, corr, src, ps, last).1| <= |src| - last + 29 * |ps|
    decreases |ps|
  {
    if ps != [] {
      assert ps[0].start < ps[0].end <= |src| && (|ps| > 1 ==> ps[0].end <= ps[1].start);
    }
    SliceLength(src, last, if ps == [] then |src| else ps[0].start);
    hide GetOrCreate, Scannable, IssuedFor, Hit, Entity, Good, Ready, Slice;
    if ps != [] {
      var issued1 := EntityAnswered(db, corr, texts, issued, src, ps);
      var ent := Entity(src, ps[0]);
      MaskedLength(GetOrCreate(db, corr, ent, ps[0].lbl).0, corr, texts, issued1, src, ps[1..], ps[0].end);
    }
  }

  lemma SliceLength(src: string, a: nat, b: nat)
    requires a <= b <= |src|
    ensures |Slice(src, a, b)| == b - a
  {
  }

  lemma ScannableIsCString(tok: string)
    requires Scannable(tok)
    ensures IsCString(tok)
  {
    forall k | 0 <= k < |tok| ensures tok[k] != NUL {
      assert 4 <= k < |tok| - 5 ==> IsUpper(tok[k]);
      assert |tok| - 4 <= k ==> IsDigit(tok[k]);
    }
  }

  /** The masked text is a C string again. */
  lemma {:induction false} MaskedIsCString(
    db: Db, corr: string, texts: iset<string>, issued: seq<Issue>, src: string, ps: seq<Patch>, last: nat)
    requires Good(db, corr, issued, texts) && Ready(texts, issued, src, ps) && IsCString(src)
    ensures IsCString(Masked(db, corr, src, ps, last).1)
    decreases |ps|
  {
    if ps != [] {
      hide GetOrCreate, Scannable, IssuedFor, Hit, Entity, Good, Ready, Slice, IsCString;
      var issued1 := EntityAnswered(db, corr, texts, issued, src, ps);
      var ent := Entity(src, ps[0]);
      var (db1, tok) := GetOrCreate(db, corr, ent, ps[0].lbl);
      ScannableIsCString(tok);
      MaskedIsCString(db1, corr, texts, issued1, src, ps[1..], ps[0].end);
      SliceIsCString(src, last, ps[0].start);
      JoinIsCString(Slice(src, last, ps[0].start), tok, Masked(db1, corr, src, ps[1..], ps[0].end).1);
    } else {
      SliceIsCString(src, last, |src|);
    }
  }

  lemma SliceIsCString(src: string, a: nat, b: nat)
    requires IsCString(src)
    ensures IsCString(Slice(src, a, b))
  {
  }

  lemma JoinIsCString(a: string, b: string, c: string)
    requires IsCString(a) && IsCString(b) && IsCString(c)
    ensures IsCString(a + b + c)
  {
  }
}
