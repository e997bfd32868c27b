/** Masking one string and restoring it later, through the fixed-size buffers. */
module RoundTrip {
  import opened CText
  import opened Options
  import opened TokenMap
  import opened Scanner
  import opened Masker
  import TokenRuns
  import Decoder

  /** What a caller can check before masking src: its entities can be masked, there are numbers left
      for them, and the masked text is sure to fit a buffer of max bytes. */
  ghost predicate CanMask(
    texts: iset<string>, issued: seq<Issue>, model: Model, names: seq<string>, src: string, max: nat)
    requires |names| == Decoder.N_MOVES
  {
    && AllMaskable(texts, src, Patches(model, names, src))
    && |issued| + |Patches(model, names, src)| <= 10000
    && |src| + 29 * |Patches(model, names, src)| + 1 < max
  }

  ghost function IssuedBy(
    db: Db, corr: string, issued: seq<Issue>, model: Model, names: seq<string>, src: string): seq<Issue>
    requires |names| == Decoder.N_MOVES
  {
    IssuesAfter(db, corr, issued, src, Patches(model, names, src))
  }

  /** The same for any sorted disjoint entities, however they were found. */
  lemma IdentityFor(
    db: Db, corr: string, texts: iset<string>, issued: seq<Issue>, src: string, ps: seq<Patch>, max: nat,
    later: Db, issuedLater: seq<Issue>)
    requires Good(db, corr, issued, texts) && Ready(texts, issued, src, ps) && |src| + 29 * |ps| + 1 < max
    requires Issued(later, corr, issuedLater) && IssuesAfter(db, corr, issued, src, ps) <= issuedLater
    requires Clean(later, corr, src)
    ensures RestoreInto(later, corr, MaskInto(db, corr, src, ps, max).1, "", max) == src <==> AllShort(ps)
  {
    MaskedLength(db, corr, texts, issued, src, ps, 0);
    MaskIntoIs(db, corr, src, ps, max);
    assert src[0..] == src && ValidPatches(src, ps);
    hide *;
    MaskThenRestore(db, corr, texts, issued, src, ps, 0, later, issuedLater);
    ReturnedExactly(later, corr, src, ps, 0);
    var back := Returned(later, corr, src, ps, 0);
    RestoreFits(later, corr, Masked(db, corr, src, ps, 0).1, "", max);
    assert "" + back == back;
  }

  lemma MaskIntoIs(db: Db, corr: string, src: string, ps: seq<Patch>, max: nat)
    requires |src| + 1 < max && |Masked(db, corr, src, ps, 0).1| + 1 < max
    ensures MaskInto(db, corr, src, ps, max) == Masked(db, corr, src, ps, 0)
  {
    hide GetOrCreate, MaskFrom;
    if ps != [] {
      MaskFits(db, corr, src, ps, 0, "", max);
      hide Masked;
      assert "" + Masked(db, corr, src, ps, 0).1 == Masked(db, corr, src, ps, 0).1;
    } else {
      assert Slice(src, 0, |src|) == src;
    }
  }

  /** Tokenize, decode, mask; let the token map grow in any way; restore: the original text,
      for every text, model and map, as long as no placeholder known by then occurs in it, if and
      only if every entity is shorter than the 512 bytes of the entity buffer. */
  lemma MaskRestoreIdentity(
    db: Db, corr: string, texts: iset<string>, issued: seq<Issue>, model: Model, names: seq<string>,
    src: string, max: nat,
    later: Db, issuedLater: seq<Issue>)
    requires |names| == Decoder.N_MOVES && CanMask(texts, issued, model, names, src, max)
    requires Good(db, corr, issued, texts)
    requires Issued(later, corr, issuedLater)
    requires IssuedBy(db, corr, issued, model, names, src) <= issuedLater
    requires Clean(later, corr, src)
    ensures
      var ps := Patches(model, names, src);
      RestoreInto(later, corr, MaskInto(db, corr, src, ps, max).1, "", max) == src <==> AllShort(ps)
  {
    PatchesValid(model, names, src);
    hide Patches, Good, Issued, IssuesAfter, AllMaskable, AllShort, Clean, RestoreInto, MaskInto;
    IdentityFor(db, corr, texts, issued, src, Patches(model, names, src), max, later, issuedLater);
  }

  lemma NothingIssued(db: Db, corr: string, issued: seq<Issue>, src: string, max: nat)
    requires |src| + 1 < max
    ensures IssuesAfter(db, corr, issued, src, []) == issued
    ensures MaskInto(db, corr, src, [], max) == (db, src)
  {
  }

  /** The map may grow by any interleaved run of mask processes, for this correlation and others. */
  lemma RestoresAfterAnyRun(
    db: Db, corr: string, texts: iset<string>, issued: seq<Issue>, model: Model, names: seq<string>,
    src: string, max: nat,
    steps: seq<TokenRuns.Step>)
    requires |names| == Decoder.N_MOVES && CanMask(texts, issued, model, names, src, max)
    requires Good(db, corr, issued, texts)
    requires
      var (db', _) := MaskInto(db, corr, src, Patches(model, names, src), max);
      var s := TokenRuns.System(db', map[], IssuedBy(db, corr, issued, model, names, src), []);
      TokenRuns.Runs(corr, s, steps) && Clean(TokenRuns.After(corr, s, steps).db, corr, src)
    ensures
      var (db', masked) := MaskInto(db, corr, src, Patches(model, names, src), max);
      var s := TokenRuns.System(db', map[], IssuedBy(db, corr, issued, model, names, src), []);
      var restored := RestoreInto(TokenRuns.After(corr, s, steps).db, corr, masked, "", max);
      restored == src <==> AllShort(Patches(model, names, src))
  {
    var (db', _) := MaskInto(db, corr, src, Patches(model, names, src), max);
    var issued' := IssuedBy(db, corr, issued, model, names, src);
    var s := TokenRuns.System(db', map[], issued', []);
    hide Patches, MaskInto, IssuedBy, Clean, RestoreInto, CanMask, TokenRuns.Runs, TokenRuns.After, Issued;
    MaskKeepsGood(db, corr, texts, issued, model, names, src, max);
    GoodIs(db', corr, texts, issued');
    assert TokenRuns.Inv(corr, s);
    TokenRuns.EveryRun(corr, s, steps);
    var end := TokenRuns.After(corr, s, steps);
    MaskRestoreIdentity(db, corr, texts, issued, model, names, src, max, end.db, end.issued);
  }

  lemma GoodIs(db: Db, corr: string, texts: iset<string>, issued: seq<Issue>)
    requires Good(db, corr, issued, texts)
    ensures GoodCorr(corr) && Issued(db, corr, issued)
  {
  }

  lemma MaskKeepsGood(
    db: Db, corr: string, texts: iset<string>, issued: seq<Issue>, model: Model, names: seq<string>,
    src: string, max: nat)
    requires |names| == Decoder.N_MOVES && CanMask(texts, issued, model, names, src, max)
    requires Good(db, corr, issued, texts)
    ensures
      var issued' := IssuedBy(db, corr, issued, model, names, src);
      Good(MaskInto(db, corr, src, Patches(model, names, src), max).0, corr, issued', texts)
  {
    var ps := Patches(model, names, src);
    PatchesValid(model, names, src);
    hide Patches, Good, IssuesAfter, AllMaskable, MaskFrom, Masked;
    MaskKeeps(db, corr, texts, issued, src, ps, 0);
    if ps == [] {
      NothingIssued(db, corr, issued, src, max);
    } else {
      MaskedLength(db, corr, texts, issued, src, ps, 0);
      MaskFits(db, corr, src, ps, 0, "", max);
    }
  }

  /** The masked text is a C string that fits its buffer. */
  lemma MaskedFitsBuffer(
    db: Db, corr: string, texts: iset<string>, issued: seq<Issue>, model: Model, names: seq<string>,
    src: string, max: nat)
    requires |names| == Decoder.N_MOVES && CanMask(texts, issued, model, names, src, max)
    requires Good(db, corr, issued, texts)
    requires IsCString(src)
    ensures
      var masked := MaskInto(db, corr, src, Patches(model, names, src), max).1;
      IsCString(masked) && |masked| + 1 < max
  {
    var ps := Patches(model, names, src);
    PatchesValid(model, names, src);
    hide Patches, Good, AllMaskable, MaskInto, Masked, IsCString;
    MaskedLength(db, corr, texts, issued, src, ps, 0);
    MaskIntoIs(db, corr, src, ps, max);
    MaskedIsCString(db, corr, texts, issued, src, ps, 0);
  }

  // ---- from an empty map ----

  /** Texts masked one after another for one correlation. */
  function MaskAll(
    db: Db, corr: string, model: Model, names: seq<string>, srcs: seq<string>, max: nat): (Db, seq<string>)
    requires |names| == Decoder.N_MOVES && max >= 1
    decreases |srcs|
  {
    if srcs == [] then (db, []) else
      var (db1, masked) := MaskInto(db, corr, srcs[0], Patches(model, names, srcs[0]), max);
      var (db2, later) := MaskAll(db1, corr, model, names, srcs[1..], max);
      (db2, [masked] + later)
  }

  function EntityCount(model: Model, names: seq<string>, srcs: seq<string>): nat
    requires |names| == Decoder.N_MOVES
    decreases |srcs|
  {
    if srcs == [] then 0 else |Patches(model, names, srcs[0])| + EntityCount(model, names, srcs[1..])
  }

  /** What can be checked of a text without any token map. */
  ghost predicate TextOk(texts: iset<string>, model: Model, names: seq<string>, src: string, max: nat)
    requires |names| == Decoder.N_MOVES
  {
    && AllRestorable(texts, src, Patches(model, names, src)) && NoPlaceholder(src)
    && |src| + 29 * |Patches(model, names, src)| + 1 < max
  }

  /** The map after masking all texts holds exactly what was issued, and every text restores. */
  lemma {:induction false} AllRestore(
    db: Db, corr: string, texts: iset<string>, issued: seq<Issue>, model: Model, names: seq<string>,
    srcs: seq<string>, max: nat)
    returns (issuedEnd: seq<Issue>)
    requires |names| == Decoder.N_MOVES && max >= 1 && Good(db, corr, issued, texts)
    requires |issued| + EntityCount(model, names, srcs) <= 10000
    requires forall k :: 0 <= k < |srcs| ==> TextOk(texts, model, names, srcs[k], max)
    ensures
      var (end, masked) := MaskAll(db, corr, model, names, srcs, max);
      && Issued(end, corr, issuedEnd) && issued <= issuedEnd && |masked| == |srcs|
      && forall k :: 0 <= k < |srcs| ==> RestoreInto(end, corr, masked[k], "", max) == srcs[k]
    decreases |srcs|
  {
    hide Good, Issued, Patches, MaskInto, RestoreInto, AllMaskable, AllShort, NoPlaceholder, IssuesAfter;
    if srcs == [] {
      GoodIs(db, corr, texts, issued);
      issuedEnd := issued;
    } else {
      var src, rest := srcs[0], srcs[1..];
      assert TextOk(texts, model, names, src, max);
      var (db1, masked) := MaskInto(db, corr, src, Patches(model, names, src), max);
      var issued1 := IssuedBy(db, corr, issued, model, names, src);
      IssuesGrow(db, corr, issued, src, Patches(model, names, src));
      MaskKeepsGood(db, corr, texts, issued, model, names, src, max);
      issuedEnd := AllRestore(db1, corr, texts, issued1, model, names, rest, max);
      var (end, later) := MaskAll(db1, corr, model, names, rest, max);
      NoneIsClean(end, corr, src);
      MaskRestoreIdentity(db, corr, texts, issued, model, names, src, max, end, issuedEnd);
      assert MaskAll(db, corr, model, names, srcs, max) == (end, [masked] + later);
      forall k | 0 <= k < |srcs| ensures RestoreInto(end, corr, ([masked] + later)[k], "", max) == srcs[k] {
        if k > 0 { assert srcs[k] == rest[k - 1]; }
      }
    }
  }

  lemma NoneIsClean(db: Db, corr: string, s: string)
    requires NoPlaceholder(s)
    ensures Clean(db, corr, s)
  {
    hide MatchLen, Lookup;
  }

  lemma EmptyGood(corr: string, texts: iset<string>)
    requires GoodCorr(corr) && KeysTell(corr, texts)
    ensures Good(map[], corr, [], texts)
  {
    EmptyStore(corr);
  }

  /** Start from an empty token map and mask any texts for one correlation, one after another: every
      one of them, restored with the map all of them left behind, is the original text, as long as no
      two different entities agree on the bytes the forward key keeps. */
  lemma ConversationRestores(
    corr: string, texts: iset<string>, model: Model, names: seq<string>, srcs: seq<string>, max: nat)
    requires |names| == Decoder.N_MOVES && max >= 1 && GoodCorr(corr) && EntityCount(model, names, srcs) <= 10000
    requires KeysTell(corr, texts)
    requires forall k :: 0 <= k < |srcs| ==> TextOk(texts, model, names, srcs[k], max)
    ensures
      var (end, masked) := MaskAll(map[], corr, model, names, srcs, max);
      |masked| == |srcs| && forall k :: 0 <= k < |srcs| ==> RestoreInto(end, corr, masked[k], "", max) == srcs[k]
  {
    EmptyGood(corr, texts);
    hide *;
    var issuedEnd := AllRestore(map[], corr, texts, [], model, names, srcs, max);
  }

  // ---- masking in the middle of a run ----

  /** src with the given placeholders in place of its entities. */
  function Assembled(src: string, ps: seq<Patch>, toks: seq<string>, last: nat): string
    requires |toks| == |ps|
    decreases |ps|
  {
    if ps == [] then Slice(src, last, |src|)
    else Slice(src, last, ps[0].start) + toks[0] + Assembled(src, ps[1..], toks[1..], ps[0].end)
  }

  /** toks[i] is scanned and stands for the i-th entity. */
  ghost predicate StandsFor(db: Db, corr: string, src: string, ps: seq<Patch>, toks: seq<string>) {
    && |toks| == |ps|
    && forall i :: 0 <= i < |ps| ==>
         Scannable(toks[i]) && Lookup(db, corr, toks[i]) == Some(Entity(src, ps[i]))
  }

  lemma {:induction false} AssembledRestores(
    db: Db, corr: string, src: string, ps: seq<Patch>, toks: seq<string>, last: nat)
    requires StandsFor(db, corr, src, ps, toks)
    ensures Restore(db, corr, Assembled(src, ps, toks, last)) == Returned(db, corr, src, ps, last)
    decreases |ps|
  {
    hide Restore, Slice, Entity, Lookup, Scannable;
    if ps != [] {
      assert Meaning(db, corr, toks[0]) == Entity(src, ps[0]);
      AssembledRestores(db, corr, src, ps[1..], toks[1..], ps[0].end);
      RestoreAcross(db, corr, Slice(src, last, ps[0].start), toks[0], Assembled(src, ps[1..], toks[1..], ps[0].end));
    }
  }

  /** A text whose placeholders were answered one by one in any interleaved run, between the
      transactions of other processes, restores in the state the run ends in, if and only if its
      entities are short enough for the entity buffer: the answers may come from lost races, from other
      processes' allocations, in any order. No other text asked about may have an entity's forward key. */
  lemma InterleavedMaskRestores(
    corr: string, steps: seq<TokenRuns.Step>, src: string, ps: seq<Patch>, answers: seq<nat>)
    requires GoodCorr(corr) && TokenRuns.Runs(corr, TokenRuns.Start, steps)
    requires
      var s := TokenRuns.After(corr, TokenRuns.Start, steps);
      && ScannableLabels(s.issued) && |s.issued| <= 10000
      && |answers| == |ps|
      && (forall i :: 0 <= i < |ps| ==>
            && answers[i] < |s.replies| && s.replies[answers[i]].text == Entity(src, ps[i])
            && TokenRuns.OwnKey(corr, s.replies, answers[i]))
      && ValidPatches(src, ps) && Clean(s.db, corr, src)
    ensures
      var s := TokenRuns.After(corr, TokenRuns.Start, steps);
      var toks := seq(|ps|, i requires 0 <= i < |ps| => s.replies[answers[i]].tok);
      Restore(s.db, corr, Assembled(src, ps, toks, 0)) == src <==> AllShort(ps)
  {
    var s := TokenRuns.After(corr, TokenRuns.Start, steps);
    var toks := seq(|ps|, i requires 0 <= i < |ps| => s.replies[answers[i]].tok);
    AnswersScan(corr, steps);
    forall i | 0 <= i < |ps|
      ensures Scannable(toks[i]) && Lookup(s.db, corr, toks[i]) == Some(Entity(src, ps[i]))
    {
      var _ := TokenRuns.EveryAnswerRestores(corr, steps, answers[i]);
    }
    hide TokenRuns.Runs, TokenRuns.After, Scannable, Lookup, Slice, Entity, Clean, Restore;
    AssembledRestores(s.db, corr, src, ps, toks, 0);
    ReturnedExactly(s.db, corr, src, ps, 0);
    assert src[0..] == src;
  }

  lemma AnswersScan(corr: string, steps: seq<TokenRuns.Step>)
    requires GoodCorr(corr) && TokenRuns.Runs(corr, TokenRuns.Start, steps)
    requires
      var s := TokenRuns.After(corr, TokenRuns.Start, steps);
      ScannableLabels(s.issued) && |s.issued| <= 10000
    ensures
      var s := TokenRuns.After(corr, TokenRuns.Start, steps);
      forall i :: 0 <= i < |s.replies| ==> Scannable(s.replies[i].tok)
  {
    TokenRuns.StartSound(corr);
    TokenRuns.EveryRun(corr, TokenRuns.Start, steps);
    TokenRuns.AnswersStay(corr, TokenRuns.Start, steps);
    var s := TokenRuns.After(corr, TokenRuns.Start, steps);
    hide IssuedLike, ScannableLabels, Issued, Scannable, ForwardSound, TokenRuns.AllAnswered;
    hide TokenRuns.Runs, TokenRuns.After;
    forall i | 0 <= i < |s.replies| ensures Scannable(s.replies[i].tok) {
      IssuedScans(s.db, corr, s.issued, s.replies[i].tok, s.replies[i].text);
    }
  }

  lemma IssuedScans(db: Db, corr: string, issued: seq<Issue>, tok: string, text: string)
    requires Issued(db, corr, issued) && ScannableLabels(issued) && |issued| <= 10000
    requires IssuedLike(issued, corr, tok, text)
    ensures Scannable(tok)
  {
    hide Token, Lookup, Counter, Scannable, ForwardKey;
    var j :| 0 <= j < |issued| && tok == Token(issued[j].lbl, j)
      && ForwardKey(corr, issued[j].text) == ForwardKey(corr, text);
    ScannableExactly(issued[j].lbl, j);
  }

  // ---- where the round trip breaks ----

  /** The model's label WORK_OF_ART has underscores: whatever its number, and whatever the token map
      holds, its placeholder stays in the restored text in place of the entity. */
  lemma UnderscoreLabelStays(db: Db, corr: string, gap: string, n: nat, rest: string)
    requires n <= INT_MAX && Clean(db, corr, gap) && Clean(db, corr, rest)
    ensures Restore(db, corr, gap + Token("WORK_OF_ART", n) + rest) == gap + Token("WORK_OF_ART", n) + rest
  {
    assert !IsUpper("WORK_OF_ART"[4]);
    OtherLabelStays(db, corr, gap, "WORK_OF_ART", n, rest);
  }

  /** An entity of 512 bytes or more is masked as the empty text: whatever the other entities are, the
      text comes back shorter than it was. */
  lemma LongEntityLost(
    db: Db, corr: string, texts: iset<string>, issued: seq<Issue>, src: string, ps: seq<Patch>, i: nat,
    later: Db, issuedLater: seq<Issue>)
    requires Good(db, corr, issued, texts) && Ready(texts, issued, src, ps)
    requires Issued(later, corr, issuedLater) && IssuesAfter(db, corr, issued, src, ps) <= issuedLater
    requires Clean(later, corr, src) && i < |ps| && ps[i].end - ps[i].start >= MAX_ENTITY
    ensures Entity(src, ps[i]) == ""
    ensures |Restore(later, corr, Masked(db, corr, src, ps, 0).1)| < |src|
  {
    assert ValidPatches(src, ps) && !AllShort(ps);
    EntityIs(src, ps[i]);
    hide *;
    MaskThenRestore(db, corr, texts, issued, src, ps, 0, later, issuedLater);
    ReturnedExactly(later, corr, src, ps, 0);
  }

  /** A text that holds an issued placeholder is left alone by masking that finds nothing in it, and
      comes back from restoring unchanged exactly when the placeholder stands for itself. */
  lemma IssuedTokenInSource(db: Db, corr: string, gap: string, tok: string, rest: string, text: string, max: nat)
    requires Scannable(tok) && Lookup(db, corr, tok) == Some(text)
    requires Clean(db, corr, gap) && Clean(db, corr, rest) && |gap + tok + rest| < max
    ensures MaskInto(db, corr, gap + tok + rest, [], max) == (db, gap + tok + rest)
    ensures Restore(db, corr, gap + tok + rest) == gap + text + rest
    ensures Restore(db, corr, gap + tok + rest) == gap + tok + rest <==> text == tok
  {
    assert Meaning(db, corr, tok) == text;
    hide Restore, Clean, Lookup, Scannable, Meaning;
    RestoreAcross(db, corr, gap, tok, rest);
    RestoreClean(db, corr, gap);
    RestoreClean(db, corr, rest);
    Middle(gap, text, tok, rest);
  }

  lemma Middle(a: string, b: string, c: string, d: string)
    ensures a + b + d == a + c + d <==> b == c
  {
    if a + b + d == a + c + d {
      assert |b| == |c|;
      forall k | 0 <= k < |b| ensures b[k] == c[k] {
        assert (a + b + d)[|a| + k] == b[k] && (a + c + d)[|a| + k] == c[k];
      }
    }
  }
}
