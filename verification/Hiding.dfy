/** What leaves in place of a text: which of its bytes mask_string replaces and which it lets through,
    and the same for a whole message. */
module Hiding {
  import opened CText
  import opened Options
  import opened TokenMap
  import opened Scanner
  import opened Masker
  import opened RoundTrip
  import opened Walk
  import Decoder
  import TokenRuns
  import Tokenizer

  /** A stretch of bytes, its end not included. */
  datatype Stretch = Stretch(from: nat, upto: nat)

  /** From the first byte of each span's first token to the last byte of its last. */
  function Stretches(ts: seq<Tokenizer.Tok>, cuts: seq<Decoder.Cut>): (xs: seq<Stretch>)
    requires Decoder.Sorted(cuts, |ts|)
    ensures |xs| == |cuts|
  {
    seq(|cuts|, k requires 0 <= k < |cuts| =>
      Stretch(ts[cuts[k].start].start, ts[cuts[k].end - 1].start + |ts[cuts[k].end - 1].text|))
  }

  predicate Within(x: Stretch, p: nat) {
    x.from <= p < x.upto
  }

  predicate Hides(xs: seq<Stretch>, p: nat) {
    exists k :: 0 <= k < |xs| && Within(xs[k], p)
  }

  /** The decoder's spans over the tokens of src, as byte stretches. */
  function Entities(model: Model, src: string): seq<Stretch> {
    Decoder.CutsSorted(model(src), |Tokens(src)|);
    Stretches(Tokens(src), Decoder.Cuts(model(src), |Tokens(src)|))
  }

  // ---- one patch a span, from its first token to its last ----

  ghost predicate Match(xs: seq<Stretch>, ps: seq<Patch>) {
    |xs| == |ps| && forall k :: 0 <= k < |ps| ==> xs[k] == Stretch(ps[k].start, ps[k].end)
  }

  lemma EndsOf(ts: seq<Tokenizer.Tok>, names: seq<string>, c: Decoder.Cut)
    requires c.start < c.end <= |ts| && |names| == Decoder.N_MOVES
    ensures var p := PatchOf(ts, names, c);
      p.start == ts[c.start].start && p.end == ts[c.end - 1].start + |ts[c.end - 1].text|
  {
    hide Decoder.LabelOf;
  }

  lemma EntitiesMatch(model: Model, names: seq<string>, src: string)
    requires |names| == Decoder.N_MOVES
    ensures Match(Entities(model, src), Patches(model, names, src))
    ensures |Entities(model, src)| == |Decoder.Cuts(model(src), |Tokens(src)|)|
  {
    Decoder.CutsSorted(model(src), |Tokens(src)|);
    hide Decoder.Cuts, Tokens, Decoder.LabelOf;
  }

  /** There is one stretch to replace for every span, in order, with the span's label; a byte is in it
      exactly when it is at or behind the start of the span's first token and before the end of its
      last. */
  lemma {:induction false} PatchesAreSpans(model: Model, names: seq<string>, src: string)
    requires |names| == Decoder.N_MOVES
    ensures var ts := Tokens(src);
      var cuts, ps := Decoder.Cuts(model(src), |ts|), Patches(model, names, src);
      && Decoder.Sorted(cuts, |ts|) && |ps| == |cuts|
      && (forall k :: 0 <= k < |cuts| ==> ps[k].lbl == Decoder.Named(names, cuts)[k].lbl)
      && (forall k, p: nat :: 0 <= k < |cuts| ==>
            (Within(Stretch(ps[k].start, ps[k].end), p) <==>
               ts[cuts[k].start].start <= p < ts[cuts[k].end - 1].start + |ts[cuts[k].end - 1].text|))
  {
    Decoder.CutsSorted(model(src), |Tokens(src)|);
    hide Decoder.Cuts, Tokens, Decoder.LabelOf;
  }

  /** So every token of a span lies inside the span's stretch, and a token of no span meets none. */
  lemma {:induction false} TokensHidden(model: Model, names: seq<string>, src: string, k: nat, t: nat)
    requires |names| == Decoder.N_MOVES
    requires k < |Decoder.Cuts(model(src), |Tokens(src)|)| && t < |Tokens(src)|
    ensures var ts := Tokens(src);
      var c, ps := Decoder.Cuts(model(src), |ts|)[k], Patches(model, names, src);
      && k < |ps|
      && (c.start <= t < c.end ==> ps[k].start <= ts[t].start && ts[t].End() <= ps[k].end)
      && (t < c.start ==> ts[t].End() <= ps[k].start) && (c.end <= t ==> ps[k].end <= ts[t].start)
  {
    hide *;
    SpanStretch(model, names, src, k);
    KeptOrdered(src);
    var ts := Tokens(src);
    SpanAndToken(src, ts, Decoder.Cuts(model(src), |ts|)[k], t);
  }

  lemma {:induction false} SpanStretch(model: Model, names: seq<string>, src: string, k: nat)
    requires |names| == Decoder.N_MOVES && k < |Decoder.Cuts(model(src), |Tokens(src)|)|
    ensures var ts := Tokens(src);
      var c, ps := Decoder.Cuts(model(src), |ts|)[k], Patches(model, names, src);
      && c.start < c.end <= |ts| && k < |ps|
      && ps[k].start == ts[c.start].start && ps[k].end == ts[c.end - 1].End()
  {
    var ts := Tokens(src);
    var cuts := Decoder.Cuts(model(src), |ts|);
    Decoder.CutsSorted(model(src), |ts|);
    EndsOf(ts, names, cuts[k]);
    hide Decoder.Cuts, Tokens, PatchOf;
  }

  lemma {:induction false} SpanAndToken(src: string, ts: seq<Tokenizer.Tok>, c: Decoder.Cut, t: nat)
    requires Tokenizer.Ordered(src, ts, 0, |src|) && c.start < c.end <= |ts| && t < |ts|
    ensures c.start <= t < c.end ==> ts[c.start].start <= ts[t].start && ts[t].End() <= ts[c.end - 1].End()
    ensures (t < c.start ==> ts[t].End() <= ts[c.start].start) && (c.end <= t ==> ts[c.end - 1].End() <= ts[t].start)
  {
    hide Tokenizer.Ordered;
    StretchOf(src, ts, t, t + 1);
    if c.start < t { InOrder(src, ts, c.start, t); }
    if t < c.start { InOrder(src, ts, t, c.start); }
    if t < c.end - 1 { InOrder(src, ts, t, c.end - 1); }
    if c.end - 1 < t { InOrder(src, ts, c.end - 1, t); }
  }

  // ---- byte by byte ----

  /** The placeholders that stand at byte p: those of the stretches that start there. */
  function StandAt(xs: seq<Stretch>, toks: seq<string>, p: nat): string
    requires |xs| == |toks|
  {
    if xs == [] then "" else (if xs[0].from == p then toks[0] else "") + StandAt(xs[1..], toks[1..], p)
  }

  /** src from byte p on with every byte of the stretches left out, and each stretch's placeholder where
      the stretch starts. */
  function Blanked(src: string, xs: seq<Stretch>, toks: seq<string>, p: nat): string
    requires |xs| == |toks| && p <= |src|
    decreases |src| - p
  {
    if p == |src| then ""
    else StandAt(xs, toks, p) + (if Hides(xs, p) then "" else [src[p]]) + Blanked(src, xs, toks, p + 1)
  }

  ghost predicate InLine(xs: seq<Stretch>, n: nat) {
    && (forall k :: 0 <= k < |xs| ==> xs[k].from < xs[k].upto <= n)
    && (forall k, l :: 0 <= k < l < |xs| ==> xs[k].upto <= xs[l].from)
  }

  lemma {:induction false} NothingStands(xs: seq<Stretch>, toks: seq<string>, p: nat)
    requires |xs| == |toks| && forall k :: 0 <= k < |xs| ==> xs[k].from != p
    ensures StandAt(xs, toks, p) == ""
  {
    if xs != [] { NothingStands(xs[1..], toks[1..], p); }
  }

  lemma {:induction false} OneByte(src: string, xs: seq<Stretch>, toks: seq<string>, p: nat)
    requires |xs| == |toks| && p < |src|
    ensures Blanked(src, xs, toks, p) ==
      StandAt(xs, toks, p) + (if Hides(xs, p) then "" else [src[p]]) + Blanked(src, xs, toks, p + 1)
  {
    hide StandAt, Hides;
  }

  lemma {:induction false} NoByte(src: string, xs: seq<Stretch>, toks: seq<string>)
    requires |xs| == |toks|
    ensures Blanked(src, xs, toks, |src|) == ""
  {
  }

  lemma {:induction false} Outside(xs: seq<Stretch>, p: nat)
    requires forall k :: 0 <= k < |xs| ==> !(xs[k].from <= p < xs[k].upto)
    ensures !Hides(xs, p)
  {
  }

  /** Bytes before every stretch are let through. */
  lemma {:induction false} LetThrough(src: string, xs: seq<Stretch>, toks: seq<string>, p: nat, q: nat)
    requires |xs| == |toks| && p <= q <= |src| && forall k :: 0 <= k < |xs| ==> q <= xs[k].from
    ensures Blanked(src, xs, toks, p) == src[p..q] + Blanked(src, xs, toks, q)
    decreases q - p
  {
    hide *;
    if p < q {
      NothingStands(xs, toks, p);
      Outside(xs, p);
      OneByte(src, xs, toks, p);
      LetThrough(src, xs, toks, p + 1, q);
      ByteAndMore(src, p, q, Blanked(src, xs, toks, q));
    } else {
      assert src[p..q] + Blanked(src, xs, toks, q) == Blanked(src, xs, toks, q);
    }
  }

  lemma {:induction false} ByteAndMore(src: string, p: nat, q: nat, rest: string)
    requires p < q <= |src|
    ensures "" + [src[p]] + (src[p + 1..q] + rest) == src[p..q] + rest
  {
  }

  /** Bytes inside the first stretch are left out. */
  lemma {:induction false} LeftOut(src: string, xs: seq<Stretch>, toks: seq<string>, p: nat)
    requires |xs| == |toks| && xs != [] && InLine(xs, |src|) && xs[0].from < p <= xs[0].upto
    ensures Blanked(src, xs, toks, p) == Blanked(src, xs, toks, xs[0].upto)
    decreases xs[0].upto - p
  {
    hide *;
    FromFirst(src, xs);
    if p < xs[0].upto {
      InFirst(xs, p);
      NothingStands(xs, toks, p);
      OneByte(src, xs, toks, p);
      LeftOut(src, xs, toks, p + 1);
      assert "" + "" + Blanked(src, xs, toks, p + 1) == Blanked(src, xs, toks, p + 1);
    }
  }

  lemma {:induction false} InFirst(xs: seq<Stretch>, p: nat)
    requires xs != [] && xs[0].from <= p < xs[0].upto
    ensures Hides(xs, p)
  {
    assert Within(xs[0], p);
  }

  lemma {:induction false} FromFirst(src: string, xs: seq<Stretch>)
    requires InLine(xs, |src|) && xs != []
    ensures xs[0].from < xs[0].upto <= |src| && InLine(xs[1..], |src|)
    ensures forall k :: 1 <= k < |xs| ==> xs[0].upto <= xs[k].from
  {
  }

  /** Behind the first stretch only the others matter. */
  lemma {:induction false} BehindFirst(src: string, xs: seq<Stretch>, toks: seq<string>, p: nat)
    requires |xs| == |toks| && xs != [] && InLine(xs, |src|) && xs[0].upto <= p <= |src|
    ensures Blanked(src, xs, toks, p) == Blanked(src, xs[1..], toks[1..], p)
    decreases |src| - p
  {
    if p < |src| {
      OthersStand(src, xs, toks, p);
      hide *;
      BehindFirst(src, xs, toks, p + 1);
      OneByte(src, xs, toks, p);
      OneByte(src, xs[1..], toks[1..], p);
    } else {
      NoByte(src, xs, toks);
      NoByte(src, xs[1..], toks[1..]);
    }
  }

  lemma {:induction false} OthersStand(src: string, xs: seq<Stretch>, toks: seq<string>, p: nat)
    requires |xs| == |toks| && xs != [] && InLine(xs, |src|) && xs[0].upto <= p
    ensures StandAt(xs, toks, p) == StandAt(xs[1..], toks[1..], p) && (Hides(xs, p) <==> Hides(xs[1..], p))
  {
    FromFirst(src, xs);
    assert "" + StandAt(xs[1..], toks[1..], p) == StandAt(xs[1..], toks[1..], p);
    hide InLine;
    if Hides(xs, p) {
      var k :| 0 <= k < |xs| && Within(xs[k], p);
      assert xs[1..][k - 1] == xs[k];
    }
    if Hides(xs[1..], p) {
      var k :| 0 <= k < |xs[1..]| && Within(xs[1..][k], p);
      assert xs[k + 1] == xs[1..][k];
    }
  }

  /** At the start of the first stretch stands its placeholder and no other. */
  lemma {:induction false} FirstStands(src: string, xs: seq<Stretch>, toks: seq<string>)
    requires |xs| == |toks| && xs != [] && InLine(xs, |src|)
    ensures xs[0].from < |src|
    ensures Blanked(src, xs, toks, xs[0].from) == toks[0] + Blanked(src, xs, toks, xs[0].from + 1)
  {
    hide *;
    FromFirst(src, xs);
    FirstOpens(xs, toks, |src|);
    InFirst(xs, xs[0].from);
    OneByte(src, xs, toks, xs[0].from);
    assert toks[0] + "" == toks[0];
  }

  lemma {:induction false} FirstOpens(xs: seq<Stretch>, toks: seq<string>, n: nat)
    requires |xs| == |toks| && xs != [] && InLine(xs, n)
    ensures StandAt(xs, toks, xs[0].from) == toks[0]
  {
    assert forall k :: 0 <= k < |xs[1..]| ==> xs[1..][k].from == xs[k + 1].from > xs[0].from;
    NothingStands(xs[1..], toks[1..], xs[0].from);
    assert toks[0] + "" == toks[0];
  }

  /** The first stretch and what is before it, taken off. */
  lemma {:induction false} FirstOff(src: string, xs: seq<Stretch>, toks: seq<string>, last: nat)
    requires |xs| == |toks| && xs != [] && InLine(xs, |src|) && last <= xs[0].from
    ensures xs[0].from <= xs[0].upto <= |src|
    ensures Blanked(src, xs, toks, last) ==
      src[last..xs[0].from] + toks[0] + Blanked(src, xs[1..], toks[1..], xs[0].upto)
  {
    hide *;
    FromFirst(src, xs);
    var x := xs[0];
    LetThrough(src, xs, toks, last, x.from);
    FirstStands(src, xs, toks);
    LeftOut(src, xs, toks, x.from + 1);
    BehindFirst(src, xs, toks, x.upto);
    var rest := Blanked(src, xs[1..], toks[1..], x.upto);
    assert src[last..x.from] + (toks[0] + rest) == src[last..x.from] + toks[0] + rest;
  }

  lemma {:induction false} AssembledFirst(src: string, ps: seq<Patch>, xs: seq<Stretch>, toks: seq<string>, last: nat)
    requires ValidPatches(src, ps) && Match(xs, ps) && |toks| == |ps| && ps != [] && last <= ps[0].start
    ensures last <= xs[0].from <= xs[0].upto <= |src| && xs[0].upto == ps[0].end && InLine(xs, |src|)
    ensures ValidPatches(src, ps[1..]) && Match(xs[1..], ps[1..])
    ensures |ps| > 1 ==> xs[0].upto <= ps[1].start
    ensures Assembled(src, ps, toks, last) ==
      src[last..xs[0].from] + toks[0] + Assembled(src, ps[1..], toks[1..], ps[0].end)
  {
    assert xs[0] == Stretch(ps[0].start, ps[0].end);
    assert Slice(src, last, ps[0].start) == src[last..ps[0].start];
    assert Assembled(src, ps, toks, last) ==
      Slice(src, last, ps[0].start) + toks[0] + Assembled(src, ps[1..], toks[1..], ps[0].end);
    hide Assembled, Slice;
  }

  /** Putting placeholders in place of entities, piece by piece, comes to the same byte by byte. */
  lemma {:induction false} PiecesAreBytes(src: string, ps: seq<Patch>, xs: seq<Stretch>, toks: seq<string>, last: nat)
    requires ValidPatches(src, ps) && Match(xs, ps) && |xs| == |ps| == |toks|
    requires last <= |src| && (ps != [] ==> last <= ps[0].start)
    ensures Assembled(src, ps, toks, last) == Blanked(src, xs, toks, last)
    decreases |ps|
  {
    if ps == [] {
      assert Assembled(src, ps, toks, last) == Slice(src, last, |src|) == src[last..|src|];
      NoByte(src, xs, toks);
      hide *;
      LetThrough(src, xs, toks, last, |src|);
      assert src[last..|src|] + "" == src[last..|src|];
    } else {
      AssembledFirst(src, ps, xs, toks, last);
      hide *;
      FirstOff(src, xs, toks, last);
      PiecesAreBytes(src, ps[1..], xs[1..], toks[1..], ps[0].end);
    }
  }

  // ---- masking ----

  /** The answers the token map gives for the entities, in order. */
  function Answers(db: Db, corr: string, src: string, ps: seq<Patch>): (toks: seq<string>)
    ensures |toks| == |ps|
    decreases |ps|
  {
    if ps == [] then []
    else
      var (db1, tok) := GetOrCreate(db, corr, Entity(src, ps[0]), ps[0].lbl);
      [tok] + Answers(db1, corr, src, ps[1..])
  }

  lemma AnswerShort(db: Db, corr: string, text: string, lbl: string)
    ensures |GetOrCreate(db, corr, text, lbl).1| <= 31
  {
    hide ForwardKey, CountKey, ReverseKey, ReverseValue, Counter, Padded, Decimal;
  }

  lemma {:induction false} AnswersShort(db: Db, corr: string, src: string, ps: seq<Patch>, k: nat)
    requires k < |ps|
    ensures |Answers(db, corr, src, ps)[k]| <= 31
    decreases |ps|
  {
    var (db1, tok) := GetOrCreate(db, corr, Entity(src, ps[0]), ps[0].lbl);
    AnswerShort(db, corr, Entity(src, ps[0]), ps[0].lbl);
    if k > 0 { AnswersShort(db1, corr, src, ps[1..], k - 1); }
  }

  lemma {:induction false} MaskedAssembles(db: Db, corr: string, src: string, ps: seq<Patch>, last: nat)
    ensures Masked(db, corr, src, ps, last).1 == Assembled(src, ps, Answers(db, corr, src, ps), last)
    decreases |ps|
  {
    hide GetOrCreate, Slice, Entity;
    if ps != [] {
      var (db1, tok) := GetOrCreate(db, corr, Entity(src, ps[0]), ps[0].lbl);
      MaskedAssembles(db1, corr, src, ps[1..], ps[0].end);
      var later := Answers(db1, corr, src, ps[1..]);
      assert ([tok] + later)[0] == tok && ([tok] + later)[1..] == later;
    }
  }

  lemma {:induction false} AssembledLength(src: string, ps: seq<Patch>, toks: seq<string>, last: nat)
    requires |toks| == |ps| && (forall k :: 0 <= k < |toks| ==> |toks[k]| <= 31)
    requires ValidPatches(src, ps) && last <= |src| && (ps != [] ==> last <= ps[0].start)
    ensures |Assembled(src, ps, toks, last)| <= |src| - last + 30 * |ps|
    decreases |ps|
  {
    if ps != [] {
      assert ps[0].start < ps[0].end <= |src| && (|ps| > 1 ==> ps[0].end <= ps[1].start);
      AssembledLength(src, ps[1..], toks[1..], ps[0].end);
    }
  }

  /** Masking with room for the result, byte by byte. */
  lemma {:induction false} MaskBlanks(db: Db, corr: string, model: Model, names: seq<string>, src: string, max: nat)
    requires |names| == Decoder.N_MOVES && |src| + 1 < max
    requires |Masked(db, corr, src, Patches(model, names, src), 0).1| + 1 < max
    ensures var toks := Answers(db, corr, src, Patches(model, names, src));
      && |toks| == |Entities(model, src)|
      && MaskInto(db, corr, src, Patches(model, names, src), max).1 == Blanked(src, Entities(model, src), toks, 0)
  {
    var ps, xs := Patches(model, names, src), Entities(model, src);
    var toks := Answers(db, corr, src, ps);
    PatchesValid(model, names, src);
    EntitiesMatch(model, names, src);
    hide *;
    MatchLength(xs, ps);
    MaskedAssembles(db, corr, src, ps, 0);
    MaskIntoIs(db, corr, src, ps, max);
    PiecesAreBytes(src, ps, xs, toks, 0);
  }

  /** Whatever the token map holds, the network says and the labels are, with room for it the masked
      text is the bytes outside all spans, with at most 31 bytes from the token map where each span
      starts: nothing else of the text leaves. */
  lemma {:induction false} MaskHides(
    db: Db, corr: string, model: Model, names: seq<string>, src: string, max: nat)
    returns (toks: seq<string>)
    requires |names| == Decoder.N_MOVES && |src| + 30 * |Entities(model, src)| + 1 < max
    ensures |toks| == |Entities(model, src)| && forall k :: 0 <= k < |toks| ==> |toks[k]| <= 31
    ensures MaskInto(db, corr, src, Patches(model, names, src), max).1 == Blanked(src, Entities(model, src), toks, 0)
  {
    hide *;
    var ps, xs := Patches(model, names, src), Entities(model, src);
    toks := Answers(db, corr, src, ps);
    PatchesValid(model, names, src);
    EntitiesMatch(model, names, src);
    MatchLength(xs, ps);
    forall k | 0 <= k < |toks| ensures |toks[k]| <= 31 { AnswersShort(db, corr, src, ps, k); }
    FirstPatch(src, ps);
    AssembledLength(src, ps, toks, 0);
    MaskedAssembles(db, corr, src, ps, 0);
    MaskBlanks(db, corr, model, names, src, max);
  }

  lemma {:induction false} FirstPatch(src: string, ps: seq<Patch>)
    requires ValidPatches(src, ps)
    ensures ps != [] ==> 0 <= ps[0].start < ps[0].end <= |src|
  {
  }

  lemma MatchLength(xs: seq<Stretch>, ps: seq<Patch>)
    requires Match(xs, ps)
    ensures |xs| == |ps|
  {
  }

  lemma {:induction false} AnswersScan(
    db: Db, corr: string, texts: iset<string>, issued: seq<Issue>, src: string, ps: seq<Patch>, k: nat,
    later: Db, issuedLater: seq<Issue>)
    requires Good(db, corr, issued, texts) && Ready(texts, issued, src, ps) && k < |ps|
    requires Issued(later, corr, issuedLater) && IssuesAfter(db, corr, issued, src, ps) <= issuedLater
    ensures var tok := Answers(db, corr, src, ps)[k];
      Scannable(tok) && Meaning(later, corr, tok) == Entity(src, ps[k])
    decreases |ps|
  {
    hide GetOrCreate, Slice, Issued, Scannable, IssuedFor, Hit, Entity, Good, Ready, Meaning;
    var issued1 := EntityAnswered(db, corr, texts, issued, src, ps);
    var db1 := GetOrCreate(db, corr, Entity(src, ps[0]), ps[0].lbl).0;
    if k == 0 {
      IssuesGrow(db1, corr, issued1, src, ps[1..]);
      LaterMeaning(later, corr, issued1, issuedLater, GetOrCreate(db, corr, Entity(src, ps[0]), ps[0].lbl).1,
                   Entity(src, ps[0]));
    } else {
      AnswersScan(db1, corr, texts, issued1, src, ps[1..], k - 1, later, issuedLater);
    }
  }

  /** Under the conditions of the round trip those are recognisable placeholders, one for each span, and
      each stands, in every later map, for the bytes of its span as the entity buffer held them. */
  lemma {:induction false} PlaceholdersStand(
    db: Db, corr: string, texts: iset<string>, issued: seq<Issue>, model: Model, names: seq<string>, src: string,
    max: nat, later: Db, issuedLater: seq<Issue>)
    returns (toks: seq<string>)
    requires |names| == Decoder.N_MOVES && CanMask(texts, issued, model, names, src, max)
    requires Good(db, corr, issued, texts)
    requires Issued(later, corr, issuedLater) && IssuedBy(db, corr, issued, model, names, src) <= issuedLater
    ensures var xs := Entities(model, src);
      && |toks| == |xs|
      && MaskInto(db, corr, src, Patches(model, names, src), max).1 == Blanked(src, xs, toks, 0)
      && forall k :: 0 <= k < |xs| ==>
        && xs[k].from < xs[k].upto <= |src| && Scannable(toks[k])
        && Meaning(later, corr, toks[k]) ==
             if xs[k].upto - xs[k].from < 512 then src[xs[k].from..xs[k].upto] else ""
  {
    hide *;
    var ps, xs := Patches(model, names, src), Entities(model, src);
    toks := Answers(db, corr, src, ps);
    ReadyStretches(texts, issued, model, names, src, max);
    MaskedLength(db, corr, texts, issued, src, ps, 0);
    MaskBlanks(db, corr, model, names, src, max);
    forall k | 0 <= k < |xs|
      ensures xs[k].from < xs[k].upto <= |src| && Scannable(toks[k])
      ensures Meaning(later, corr, toks[k]) ==
        if xs[k].upto - xs[k].from < 512 then src[xs[k].from..xs[k].upto] else ""
    {
      IssuedByIs(db, corr, issued, model, names, src);
      AnswersScan(db, corr, texts, issued, src, ps, k, later, issuedLater);
      EntityHeld(src, ps[k]);
    }
  }

  lemma EntityHeld(src: string, p: Patch)
    requires p.start < p.end <= |src|
    ensures Entity(src, p) == if p.end - p.start < 512 then src[p.start..p.end] else ""
  {
  }

  lemma IssuedByIs(db: Db, corr: string, issued: seq<Issue>, model: Model, names: seq<string>, src: string)
    requires |names| == Decoder.N_MOVES
    ensures IssuedBy(db, corr, issued, model, names, src) ==
      IssuesAfter(db, corr, issued, src, Patches(model, names, src))
  {
  }

  lemma ReadyStretches(
    texts: iset<string>, issued: seq<Issue>, model: Model, names: seq<string>, src: string, max: nat)
    requires |names| == Decoder.N_MOVES && CanMask(texts, issued, model, names, src, max)
    ensures var ps, xs := Patches(model, names, src), Entities(model, src);
      && Ready(texts, issued, src, ps) && |xs| == |ps| && |src| + 29 * |ps| + 1 < max
      && forall k :: 0 <= k < |xs| ==>
        xs[k] == Stretch(ps[k].start, ps[k].end) && ps[k].start < ps[k].end <= |src|
  {
    PatchesValid(model, names, src);
    EntitiesMatch(model, names, src);
    hide Patches, Entities, AllMaskable;
  }

  // ---- one placeholder a text ----

  ghost predicate Labelled(ps: seq<Patch>) {
    forall k :: 0 <= k < |ps| ==> GoodLabel(ps[k].lbl)
  }

  /** The token map between two entities of a text. */
  ghost predicate Sound(db: Db, corr: string, issued: seq<Issue>) {
    GoodCorr(corr) && Issued(db, corr, issued) && ForwardSound(db, corr, issued)
  }

  /** One call of get_or_create_tok settles the answer for its text and keeps those of others. */
  lemma {:induction false} OneCall(db: Db, corr: string, issued: seq<Issue>, text: string, lbl: string)
    requires Sound(db, corr, issued) && GoodLabel(lbl) && |text| < 512 && |issued| < INT_MAX
    ensures
      var (db', tok) := GetOrCreate(db, corr, text, lbl);
      var issued' := if Hit(db, corr, text).Some? then issued else issued + [Issue(text, lbl)];
      && Sound(db', corr, issued') && Hit(db', corr, text) == Some(tok) && IssuedLike(issued', corr, tok, text)
      && forall t :: Hit(db, corr, t).Some? ==> Hit(db', corr, t) == Hit(db, corr, t)
  {
    hide Issued, Allocate, Hit, Counter, IssuedLike, GoodLabel, GoodCorr;
    TokenRuns.IssuedCounts(db, corr, issued);
    if Hit(db, corr, text).None? {
      AllocateKeeps(db, corr, issued, text, lbl);
      AllocateKeepsForward(db, corr, issued, text, lbl);
      AllocateReads(db, corr, text, lbl);
      var db' := Allocate(db, corr, text, lbl).0;
      forall t | Hit(db, corr, t).Some? ensures Hit(db', corr, t) == Hit(db, corr, t) {
        if ForwardKey(corr, t) == ForwardKey(corr, text) { SameKeySameHit(db, corr, t, text); }
      }
    }
  }

  lemma {:induction false} AnswersFirst(db: Db, corr: string, issued: seq<Issue>, src: string, ps: seq<Patch>)
    requires ps != []
    ensures
      var ent := Entity(src, ps[0]);
      var (db1, tok) := GetOrCreate(db, corr, ent, ps[0].lbl);
      var issued1 := if Hit(db, corr, ent).Some? then issued else issued + [Issue(ent, ps[0].lbl)];
      && |ent| < 512 && Answers(db, corr, src, ps)[0] == tok
      && Answers(db, corr, src, ps)[1..] == Answers(db1, corr, src, ps[1..])
      && IssuesAfter(db, corr, issued, src, ps) == IssuesAfter(db1, corr, issued1, src, ps[1..])
      && |issued1| <= |issued| + 1
  {
    hide GetOrCreate, Hit, Slice;
  }

  /** The token map behind the first entity, and what it answers for that one and for a text answered
      before. */
  lemma {:induction false} Turn(db: Db, corr: string, issued: seq<Issue>, src: string, ps: seq<Patch>, text: string)
    returns (db1: Db, issued1: seq<Issue>)
    requires Sound(db, corr, issued) && Labelled(ps) && |issued| + |ps| <= INT_MAX && ps != []
    ensures Sound(db1, corr, issued1) && Labelled(ps[1..]) && |issued1| + |ps[1..]| <= INT_MAX
    ensures IssuesAfter(db, corr, issued, src, ps) == IssuesAfter(db1, corr, issued1, src, ps[1..])
    ensures Answers(db, corr, src, ps)[1..] == Answers(db1, corr, src, ps[1..])
    ensures Hit(db1, corr, Entity(src, ps[0])) == Some(Answers(db, corr, src, ps)[0])
    ensures IssuedLike(issued1, corr, Answers(db, corr, src, ps)[0], Entity(src, ps[0]))
    ensures Hit(db, corr, text).Some? ==> Hit(db1, corr, text) == Hit(db, corr, text)
  {
    assert GoodLabel(ps[0].lbl) && Labelled(ps[1..]);
    hide *;
    var ent := Entity(src, ps[0]);
    AnswersFirst(db, corr, issued, src, ps);
    OneCall(db, corr, issued, ent, ps[0].lbl);
    db1 := GetOrCreate(db, corr, ent, ps[0].lbl).0;
    issued1 := if Hit(db, corr, ent).Some? then issued else issued + [Issue(ent, ps[0].lbl)];
  }

  /** A text already answered gets the same answer again. */
  lemma {:induction false} Answered(
    db: Db, corr: string, issued: seq<Issue>, src: string, ps: seq<Patch>, k: nat, text: string)
    requires Sound(db, corr, issued) && Labelled(ps) && |issued| + |ps| <= INT_MAX && k < |ps|
    requires Hit(db, corr, text).Some? && ForwardKey(corr, Entity(src, ps[k])) == ForwardKey(corr, text)
    ensures Answers(db, corr, src, ps)[k] == Hit(db, corr, text).value
    decreases |ps|
  {
    hide *;
    var db1, issued1 := Turn(db, corr, issued, src, ps, text);
    if k == 0 {
      SameKeySameHit(db1, corr, Entity(src, ps[0]), text);
    } else {
      Answered(db1, corr, issued1, src, ps[1..], k - 1, text);
      Shifted(ps, Answers(db, corr, src, ps), k);
    }
  }

  lemma {:induction false} Shifted<T>(ps: seq<T>, toks: seq<string>, k: nat)
    requires 0 < k < |ps| == |toks|
    ensures ps[1..][k - 1] == ps[k] && toks[1..][k - 1] == toks[k]
  {
  }

  /** Every answer is a placeholder issued, by the end, for a text of the same forward key. */
  lemma {:induction false} AnswersIssued(
    db: Db, corr: string, issued: seq<Issue>, src: string, ps: seq<Patch>, k: nat)
    requires Sound(db, corr, issued) && Labelled(ps) && |issued| + |ps| <= INT_MAX && k < |ps|
    ensures IssuedLike(IssuesAfter(db, corr, issued, src, ps), corr, Answers(db, corr, src, ps)[k], Entity(src, ps[k]))
    decreases |ps|
  {
    hide *;
    var db1, issued1 := Turn(db, corr, issued, src, ps, "");
    if k == 0 {
      IssuesGrow(db1, corr, issued1, src, ps[1..]);
      LikeLater(issued1, IssuesAfter(db, corr, issued, src, ps), corr, Answers(db, corr, src, ps)[0],
                Entity(src, ps[0]));
    } else {
      AnswersIssued(db1, corr, issued1, src, ps[1..], k - 1);
      Shifted(ps, Answers(db, corr, src, ps), k);
    }
  }

  lemma {:induction false} EndsSound(db: Db, corr: string, issued: seq<Issue>, src: string, ps: seq<Patch>)
    returns (later: Db)
    requires Sound(db, corr, issued) && Labelled(ps) && |issued| + |ps| <= INT_MAX
    ensures Sound(later, corr, IssuesAfter(db, corr, issued, src, ps))
    decreases |ps|
  {
    if ps == [] {
      later := db;
      hide Sound;
    } else {
      hide *;
      var db1, issued1 := Turn(db, corr, issued, src, ps, "");
      later := EndsSound(db1, corr, issued1, src, ps[1..]);
    }
  }

  /** An issued placeholder belongs to one issue, so to one forward key. */
  lemma {:induction false} OneKey(db: Db, corr: string, issued: seq<Issue>, tok: string, s: string, t: string)
    requires Issued(db, corr, issued) && IssuedLike(issued, corr, tok, s) && IssuedLike(issued, corr, tok, t)
    ensures ForwardKey(corr, s) == ForwardKey(corr, t)
  {
    hide Token, ForwardKey, Lookup, Counter, IssuedToken;
    var i :| 0 <= i < |issued| && tok == Token(issued[i].lbl, i)
      && ForwardKey(corr, issued[i].text) == ForwardKey(corr, s);
    var j :| 0 <= j < |issued| && tok == Token(issued[j].lbl, j)
      && ForwardKey(corr, issued[j].text) == ForwardKey(corr, t);
    TokenInjective(issued[i].lbl, i, issued[j].lbl, j);
  }

  lemma SoundIs(db: Db, corr: string, issued: seq<Issue>)
    requires Sound(db, corr, issued)
    ensures GoodCorr(corr) && Issued(db, corr, issued)
  {
    hide GoodCorr, Issued, ForwardSound;
  }

  lemma {:induction false} SameTwice(
    db: Db, corr: string, issued: seq<Issue>, src: string, ps: seq<Patch>, i: nat, j: nat)
    requires Sound(db, corr, issued) && Labelled(ps) && |issued| + |ps| <= INT_MAX && i < j < |ps|
    requires ForwardKey(corr, Entity(src, ps[i])) == ForwardKey(corr, Entity(src, ps[j]))
    ensures Answers(db, corr, src, ps)[i] == Answers(db, corr, src, ps)[j]
    decreases |ps|
  {
    hide *;
    var db1, issued1 := Turn(db, corr, issued, src, ps, "");
    Shifted(ps, Answers(db, corr, src, ps), j);
    if i == 0 {
      Answered(db1, corr, issued1, src, ps[1..], j - 1, Entity(src, ps[0]));
    } else {
      Shifted(ps, Answers(db, corr, src, ps), i);
      SameTwice(db1, corr, issued1, src, ps[1..], i - 1, j - 1);
    }
  }

  lemma {:induction false} SameMeansKey(
    db: Db, corr: string, issued: seq<Issue>, src: string, ps: seq<Patch>, i: nat, j: nat)
    requires Sound(db, corr, issued) && Labelled(ps) && |issued| + |ps| <= INT_MAX && i < j < |ps|
    requires Answers(db, corr, src, ps)[i] == Answers(db, corr, src, ps)[j]
    ensures ForwardKey(corr, Entity(src, ps[i])) == ForwardKey(corr, Entity(src, ps[j]))
  {
    hide *;
    AnswersIssued(db, corr, issued, src, ps, i);
    AnswersIssued(db, corr, issued, src, ps, j);
    var later := EndsSound(db, corr, issued, src, ps);
    SoundIs(later, corr, IssuesAfter(db, corr, issued, src, ps));
    OneKey(later, corr, IssuesAfter(db, corr, issued, src, ps), Answers(db, corr, src, ps)[i],
           Entity(src, ps[i]), Entity(src, ps[j]));
  }

  /** Two entities of one text get the same placeholder if and only if what the entity buffer holds of
      them agrees on the bytes the forward key keeps, whatever labels the network gave them. */
  lemma {:induction false} SamePlaceholderExactly(
    db: Db, corr: string, issued: seq<Issue>, src: string, ps: seq<Patch>, i: nat, j: nat)
    requires Sound(db, corr, issued) && Labelled(ps) && |issued| + |ps| <= INT_MAX && i < j < |ps|
    ensures |corr| <= 505
    ensures Answers(db, corr, src, ps)[i] == Answers(db, corr, src, ps)[j] <==>
      Take(Entity(src, ps[i]), 505 - |corr|) == Take(Entity(src, ps[j]), 505 - |corr|)
  {
    SoundIs(db, corr, issued);
    assert |corr| <= 505;
    hide *;
    SameForwardKey(corr, Entity(src, ps[i]), Entity(src, ps[j]));
    if ForwardKey(corr, Entity(src, ps[i])) == ForwardKey(corr, Entity(src, ps[j])) {
      SameTwice(db, corr, issued, src, ps, i, j);
    }
    if Answers(db, corr, src, ps)[i] == Answers(db, corr, src, ps)[j] {
      SameMeansKey(db, corr, issued, src, ps, i, j);
    }
  }

  // ---- words longer than a token ----

  /** What stands between the last token of a span and the next token is in no stretch. */
  lemma {:induction false} BehindSpan(model: Model, src: string, k: nat, p: nat)
    requires k < |Decoder.Cuts(model(src), |Tokens(src)|)|
    requires var ts, e := Tokens(src), Decoder.Cuts(model(src), |Tokens(src)|)[k].end;
      0 < e <= |ts| && ts[e - 1].End() <= p && (e < |ts| ==> p < ts[e].start)
    ensures !Hides(Entities(model, src), p)
  {
    hide *;
    var xs := Entities(model, src);
    forall l | 0 <= l < |xs| ensures !(xs[l].from <= p < xs[l].upto) {
      StretchApart(model, src, k, l, p);
    }
    Outside(xs, p);
  }

  lemma {:induction false} StretchApart(model: Model, src: string, k: nat, l: nat, p: nat)
    requires k < |Decoder.Cuts(model(src), |Tokens(src)|)| && l < |Entities(model, src)|
    requires var ts, e := Tokens(src), Decoder.Cuts(model(src), |Tokens(src)|)[k].end;
      0 < e <= |ts| && ts[e - 1].End() <= p && (e < |ts| ==> p < ts[e].start)
    ensures !(Entities(model, src)[l].from <= p < Entities(model, src)[l].upto)
  {
    hide *;
    var ts := Tokens(src);
    var cuts := Decoder.Cuts(model(src), |ts|);
    KeptOrdered(src);
    Decoder.CutsSorted(model(src), |ts|);
    EntityAt(model, src, l);
    SortedPair(cuts, |ts|, k, l);
    NotIn(src, ts, cuts[l], cuts[k].end, p);
  }

  lemma {:induction false} EntityAt(model: Model, src: string, l: nat)
    requires l < |Entities(model, src)|
    ensures var ts, cuts, x := Tokens(src), Decoder.Cuts(model(src), |Tokens(src)|), Entities(model, src)[l];
      && l < |cuts| && cuts[l].start < cuts[l].end <= |ts|
      && x.from == ts[cuts[l].start].start && x.upto == ts[cuts[l].end - 1].End()
  {
    EntitiesAre(model, src);
    hide *;
    var ts := Tokens(src);
    StretchAt(ts, Decoder.Cuts(model(src), |ts|), l);
  }

  lemma EntitiesAre(model: Model, src: string)
    ensures var ts, cuts := Tokens(src), Decoder.Cuts(model(src), |Tokens(src)|);
      && Decoder.Sorted(cuts, |ts|) && Entities(model, src) == Stretches(ts, cuts)
      && |Entities(model, src)| == |cuts|
  {
    hide Decoder.Cuts, Tokens, Decoder.Sorted;
    Decoder.CutsSorted(model(src), |Tokens(src)|);
  }

  lemma {:induction false} StretchAt(ts: seq<Tokenizer.Tok>, cuts: seq<Decoder.Cut>, l: nat)
    requires Decoder.Sorted(cuts, |ts|) && l < |cuts|
    ensures cuts[l].start < cuts[l].end <= |ts|
    ensures var x := Stretches(ts, cuts)[l];
      x.from == ts[cuts[l].start].start && x.upto == ts[cuts[l].end - 1].End()
  {
  }

  lemma {:induction false} SortedPair(cuts: seq<Decoder.Cut>, n: nat, k: nat, l: nat)
    requires Decoder.Sorted(cuts, n) && k < |cuts| && l < |cuts|
    ensures cuts[l].start < cuts[l].end <= n && (cuts[l].end <= cuts[k].end || cuts[k].end <= cuts[l].start)
  {
  }

  lemma {:induction false} NotIn(src: string, ts: seq<Tokenizer.Tok>, c: Decoder.Cut, e: nat, p: nat)
    requires Tokenizer.Ordered(src, ts, 0, |src|) && c.start < c.end <= |ts| && 0 < e <= |ts|
    requires ts[e - 1].End() <= p && (e < |ts| ==> p < ts[e].start) && (c.end <= e || e <= c.start)
    ensures !(ts[c.start].start <= p < ts[c.end - 1].End())
  {
    hide Tokenizer.Ordered;
    StretchOf(src, ts, e - 1, e);
    if c.end < e { InOrder(src, ts, c.end - 1, e - 1); }
    if e < c.start {
      StretchOf(src, ts, e, e + 1);
      InOrder(src, ts, e, c.start);
    }
  }

  /** Bytes of a word: neither white space nor punctuation. */
  predicate IsWord(src: string) {
    src != "" && forall k :: 0 <= k < |src| ==> !IsSpace(src[k]) && !IsPunct(src[k])
  }

  lemma {:induction false} WordToken(src: string)
    requires IsWord(src)
    ensures Tokens(src) == [Tokenizer.Tok(src[..if |src| < 127 then |src| else 127], 0)]
  {
    assert Tokenizer.SpaceEnd(src, 0) == 0 && Tokenizer.ChunkEnd(src, 0) == |src|;
    assert src[0..|src|] == src && Tokenizer.LeadingPunct(src) == 0 && Tokenizer.TrailingPunct(src[0..]) == 0;
    assert Tokenizer.Detached(src, 0) == 0;
    WordChunk(src);
    assert Tokenizer.AllTokens(src, |src|) == [];
    assert Tokenizer.AllTokens(src, 0) == Tokenizer.ChunkTokens(src, 0, |src|) + [];
    assert src[..|src|] == src;
  }

  lemma {:induction false} WordChunk(src: string)
    requires src != "" && Tokenizer.LeadingPunct(src) == 0 && Tokenizer.Detached(src, 0) == 0
    ensures Tokenizer.ChunkTokens(src, 0, |src|) == [Tokenizer.Tok(src[..if |src| < 127 then |src| else 127], 0)]
  {
    assert src[0..|src|] == src && src[..|src|] == src;
    hide Tokenizer.LeadingPunct, Tokenizer.Detached;
    Tokenizer.SinglesNone(src, 0);
    Tokenizer.SinglesNone(src, |src|);
  }

  /** A word is one token, of at most 127 bytes: if the network calls it an entity, the rest of a longer one
      leaves as it is, behind the placeholder. */
  lemma {:induction false} LongWordLeaves(
    db: Db, corr: string, model: Model, names: seq<string>, src: string, max: nat)
    returns (tok: string)
    requires |names| == Decoder.N_MOVES && IsWord(src) && Entities(model, src) != [] && |src| + 31 < max
    ensures |tok| <= 31
    ensures MaskInto(db, corr, src, Patches(model, names, src), max).1 ==
      tok + if |src| <= 127 then "" else src[127..]
  {
    WordToken(src);
    var n: nat := if |src| < 127 then |src| else 127;
    OneEntity(model, src, n);
    var xs := Entities(model, src);
    hide *;
    var toks := MaskHides(db, corr, model, names, src, max);
    tok := toks[0];
    assert xs == [Stretch(0, n)] && toks == [tok];
    OneBlanked(src, tok, n);
  }

  lemma {:induction false} OneEntity(model: Model, src: string, n: nat)
    requires Entities(model, src) != [] && |Tokens(src)| == 1 && Tokens(src)[0].start == 0 && |Tokens(src)[0].text| == n
    ensures Entities(model, src) == [Stretch(0, n)]
  {
    EntitiesAre(model, src);
    var ts, xs := Tokens(src), Entities(model, src);
    var cuts := Decoder.Cuts(model(src), |ts|);
    TwoCuts(cuts, |ts|);
    hide *;
    StretchAt(ts, cuts, 0);
    EntityAt(model, src, 0);
    assert ts[0].End() == n by { EndIs(ts[0]); }
    assert xs == [xs[0]];
  }

  lemma EndIs(t: Tokenizer.Tok)
    ensures t.End() == t.start + |t.text|
  {
  }

  lemma TwoCuts(cuts: seq<Decoder.Cut>, n: nat)
    requires Decoder.Sorted(cuts, n)
    ensures |cuts| > 1 ==> n >= 2
  {
    assert |cuts| > 1 ==> cuts[0].end <= cuts[1].start < cuts[1].end <= n;
  }

  lemma {:induction false} OneBlanked(src: string, tok: string, n: nat)
    requires 0 < n <= |src|
    ensures Blanked(src, [Stretch(0, n)], [tok], 0) == tok + src[n..]
  {
    var xs, toks := [Stretch(0, n)], [tok];
    assert InLine(xs, |src|) && xs[1..] == [] && toks[1..] == [];
    hide *;
    FirstOff(src, xs, toks, 0);
    LetThrough(src, [], [], n, |src|);
    NoByte(src, [], []);
    assert src[0..0] + tok == tok && src[n..|src|] + "" == src[n..];
  }

  // ---- messages ----

  /** What the masking walk writes for the tags it has read: a string becomes its masked text, with the
      token map as the strings before it left it; a binary or extension value becomes nil; every other
      tag stays as it is. So nothing of any string leaves but the bytes outside its spans. */
  lemma {:induction false} MessageHides(
    model: Model, names: seq<string>, corr: string, k: nat, db: Db, tags: seq<Tag>, p: nat)
    returns (toks: seq<string>)
    requires |names| == Decoder.N_MOVES
    requires p < |WalkTags(MaskFn(model, names, corr), k, db, tags).out|
    ensures var r := WalkTags(MaskFn(model, names, corr), k, db, tags);
      && p < |r.out| <= |tags| && r.rest == tags[|r.out|..]
      && match tags[p]
         case Str(s) =>
           var src := Buffered(s);
           && r.out[p].Str?
           && (|src| + 30 * |Entities(model, src)| + 1 < MAX_MASKED ==>
                 && |toks| == |Entities(model, src)| && (forall i :: 0 <= i < |toks| ==> |toks[i]| <= 31)
                 && r.out[p].s == Blanked(src, Entities(model, src), toks, 0))
         case Raw => r.out[p] == Nil
         case t => r.out[p] == t
  {
    var fn := MaskFn(model, names, corr);
    TagByTag(fn, k, db, tags);
    toks := [];
    if tags[p].Str? {
      var src, was := Buffered(tags[p].s), StoreAt(fn, db, tags, p);
      MaskFnIs(model, names, corr, was, src);
      hide *;
      if |src| + 30 * |Entities(model, src)| + 1 < MAX_MASKED {
        toks := MaskHides(was, corr, model, names, src, MAX_MASKED);
      }
    }
    hide *;
  }

  lemma MaskFnIs(model: Model, names: seq<string>, corr: string, db: Db, src: string)
    requires |names| == Decoder.N_MOVES
    ensures MaskFn(model, names, corr)(db, src) == MaskInto(db, corr, src, Patches(model, names, src), MAX_MASKED)
  {
    hide MaskInto, Patches;
  }
}
