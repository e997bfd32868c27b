/** What a buffer too small for it holds of a masked or restored text: whole pieces only. */
module Pieces {
  import opened CText
  import opened Options
  import opened TokenMap
  import opened Scanner
  import opened Masker
  import opened RoundTrip
  import opened Hiding
  import Decoder

  /** The pieces kept, one behind the other. */
  function Kept(pieces: seq<string>, keep: seq<bool>): string
    requires |pieces| == |keep|
  {
    if pieces == [] then "" else (if keep[0] then pieces[0] else "") + Kept(pieces[1..], keep[1..])
  }

  /** How much of a buffer the first k pieces take up, behind o bytes. */
  function Before(pieces: seq<string>, keep: seq<bool>, k: nat, o: nat): nat
    requires |pieces| == |keep| && k <= |pieces|
  {
    o + |Kept(pieces[..k], keep[..k])|
  }

  lemma {:induction false} BeforeNext(pieces: seq<string>, keep: seq<bool>, k: nat, o: nat)
    requires |pieces| == |keep| && 0 < k <= |pieces|
    ensures Before(pieces, keep, k, o) ==
      Before(pieces[1..], keep[1..], k - 1, o + if keep[0] then |pieces[0]| else 0)
  {
    assert pieces[..k][1..] == pieces[1..][..k - 1] && keep[..k][1..] == keep[1..][..k - 1];
    assert pieces[..k][0] == pieces[0] && keep[..k][0] == keep[0];
  }

  lemma {:induction false} BeforeFirst(pieces: seq<string>, keep: seq<bool>, o: nat)
    requires |pieces| == |keep|
    ensures Before(pieces, keep, 0, o) == o
  {
  }

  // ---- masking ----

  /** The pieces of a masked text: the bytes before each stretch and its placeholder, and the bytes behind
      the last one. */
  function MaskedPieces(src: string, xs: seq<Stretch>, toks: seq<string>, last: nat): (ps: seq<string>)
    requires |xs| == |toks| && InLine(xs, |src|) && last <= |src| && (xs != [] ==> last <= xs[0].from)
    ensures |ps| == 2 * |xs| + 1
    decreases |xs|
  {
    if xs == [] then [src[last..]]
    else
      FromFirst(src, xs);
      [src[last..xs[0].from], toks[0]] + MaskedPieces(src, xs[1..], toks[1..], xs[0].upto)
  }

  /** A piece is kept if and only if it ends before the last byte but one of what the buffer has left. */
  ghost predicate KeptWhole(pieces: seq<string>, keep: seq<bool>, o: nat, max: nat)
    requires |pieces| == |keep|
  {
    forall k :: 0 <= k < |pieces| ==> (keep[k] <==> Before(pieces, keep, k, o) + |pieces[k]| + 1 < max)
  }

  /** Appending pieces one after the other, each if the buffer is not too small for it. */
  function Poured(pieces: seq<string>, out: string, max: nat): string
    decreases |pieces|
  {
    if pieces == [] then out else Poured(pieces[1..], Place(out, pieces[0], max), max)
  }

  lemma {:induction false} PouredKeeps(pieces: seq<string>, out: string, max: nat) returns (keep: seq<bool>)
    ensures |keep| == |pieces| && Poured(pieces, out, max) == out + Kept(pieces, keep)
    ensures KeptWhole(pieces, keep, |out|, max)
    decreases |pieces|
  {
    if pieces == [] {
      keep := [];
      assert out + "" == out;
    } else {
      var fits := |out| + |pieces[0]| + 1 < max;
      var out1 := if fits then out + pieces[0] else out;
      PouredFirst(pieces, out, max);
      hide *;
      var later := PouredKeeps(pieces[1..], out1, max);
      keep := [fits] + later;
      KeptFirst(pieces, fits, later, out);
      KeptWholeFirst(pieces, fits, later, |out|, max);
    }
  }

  lemma {:induction false} PouredFirst(pieces: seq<string>, out: string, max: nat)
    requires pieces != []
    ensures Poured(pieces, out, max) ==
      Poured(pieces[1..], if |out| + |pieces[0]| + 1 < max then out + pieces[0] else out, max)
  {
  }

  lemma {:induction false} KeptFirst(pieces: seq<string>, fits: bool, later: seq<bool>, out: string)
    requires pieces != [] && |later| == |pieces[1..]|
    ensures out + Kept(pieces, [fits] + later) == (if fits then out + pieces[0] else out) + Kept(pieces[1..], later)
  {
    assert ([fits] + later)[1..] == later;
    var rest := Kept(pieces[1..], later);
    assert "" + rest == rest;
    assert out + (pieces[0] + rest) == out + pieces[0] + rest;
  }

  lemma {:induction false} KeptWholeFirst(pieces: seq<string>, fits: bool, later: seq<bool>, o: nat, max: nat)
    requires pieces != [] && |later| == |pieces[1..]|
    requires fits <==> o + |pieces[0]| + 1 < max
    requires KeptWhole(pieces[1..], later, o + if fits then |pieces[0]| else 0, max)
    ensures KeptWhole(pieces, [fits] + later, o, max)
  {
    var keep := [fits] + later;
    assert keep[1..] == later;
    hide Before;
    forall k | 0 <= k < |pieces| ensures keep[k] <==> Before(pieces, keep, k, o) + |pieces[k]| + 1 < max {
      if k == 0 {
        BeforeFirst(pieces, keep, o);
      } else {
        BeforeNext(pieces, keep, k, o);
        assert pieces[k] == pieces[1..][k - 1] && keep[k] == later[k - 1];
      }
    }
  }

  lemma {:induction false} PouredTwo(a: string, b: string, rest: seq<string>, out: string, max: nat)
    ensures Poured([a, b] + rest, out, max) == Poured(rest, Place(Place(out, a, max), b, max), max)
  {
    hide Place;
    assert ([a, b] + rest)[1..] == [b] + rest && ([b] + rest)[1..] == rest;
    assert Poured([a, b] + rest, out, max) == Poured([b] + rest, Place(out, a, max), max);
  }

  /** The masking loop pours its pieces into the buffer, and numbers the entities whether they fit or not. */
  lemma {:induction false} MaskPours(
    db: Db, corr: string, src: string, ps: seq<Patch>, xs: seq<Stretch>, last: nat, out: string, max: nat)
    requires ValidPatches(src, ps) && Match(xs, ps) && |xs| == |ps| && InLine(xs, |src|)
    requires last <= |src| && (xs != [] ==> last <= xs[0].from)
    ensures MaskFrom(db, corr, src, ps, last, out, max).1 ==
      Poured(MaskedPieces(src, xs, Answers(db, corr, src, ps), last), out, max)
    ensures MaskFrom(db, corr, src, ps, last, out, max).0 == Masked(db, corr, src, ps, last).0
    decreases |ps|
  {
    if ps == [] {
      hide Place;
    } else {
      FirstOfEach(src, ps, xs, last);
      var (db1, tok) := GetOrCreate(db, corr, Entity(src, ps[0]), ps[0].lbl);
      var gap := src[last..ps[0].start];
      var out2 := Place(Place(out, gap, max), tok, max);
      MaskFirst(db, corr, src, ps, last, out, max);
      PiecesFirst(src, xs, [tok] + Answers(db1, corr, src, ps[1..]), last);
      hide *;
      MaskPours(db1, corr, src, ps[1..], xs[1..], ps[0].end, out2, max);
      PouredTwo(gap, tok, MaskedPieces(src, xs[1..], Answers(db1, corr, src, ps[1..]), ps[0].end), out, max);
    }
  }

  lemma {:induction false} FirstOfEach(src: string, ps: seq<Patch>, xs: seq<Stretch>, last: nat)
    requires ValidPatches(src, ps) && Match(xs, ps) && |xs| == |ps| && InLine(xs, |src|) && ps != []
    requires last <= xs[0].from
    ensures xs[0] == Stretch(ps[0].start, ps[0].end) && last <= ps[0].start < ps[0].end <= |src|
    ensures ValidPatches(src, ps[1..]) && Match(xs[1..], ps[1..]) && InLine(xs[1..], |src|)
    ensures |xs| > 1 ==> ps[0].end <= xs[1..][0].from
  {
  }

  lemma {:induction false} MaskFirst(
    db: Db, corr: string, src: string, ps: seq<Patch>, last: nat, out: string, max: nat)
    requires ps != [] && last <= ps[0].start <= |src|
    ensures
      var (db1, tok) := GetOrCreate(db, corr, Entity(src, ps[0]), ps[0].lbl);
      && MaskFrom(db, corr, src, ps, last, out, max) ==
           MaskFrom(db1, corr, src, ps[1..], ps[0].end,
             Place(Place(out, src[last..ps[0].start], max), tok, max), max)
      && Masked(db, corr, src, ps, last).0 == Masked(db1, corr, src, ps[1..], ps[0].end).0
      && Answers(db, corr, src, ps) == [tok] + Answers(db1, corr, src, ps[1..])
  {
    hide GetOrCreate, Place, Entity;
    assert Slice(src, last, ps[0].start) == src[last..ps[0].start];
    hide Slice;
  }

  lemma {:induction false} PiecesFirst(src: string, xs: seq<Stretch>, toks: seq<string>, last: nat)
    requires |xs| == |toks| && InLine(xs, |src|) && last <= |src| && xs != [] && last <= xs[0].from
    ensures InLine(xs[1..], |src|) && xs[0].from <= xs[0].upto <= |src| && (|xs| > 1 ==> xs[0].upto <= xs[1..][0].from)
    ensures MaskedPieces(src, xs, toks, last) ==
      [src[last..xs[0].from], toks[0]] + MaskedPieces(src, xs[1..], toks[1..], xs[0].upto)
  {
    FromFirst(src, xs);
  }

  /** In a buffer of any size a masked text is made of whole pieces, each kept if and only if it fits behind
      those kept before it: so no byte of an entity leaves for want of room either, and no placeholder is
      cut. The token map is the one masking with room gives. A text without entities is cut. */
  lemma {:induction false} MaskInAnyRoom(
    db: Db, corr: string, model: Model, names: seq<string>, src: string, max: nat)
    returns (toks: seq<string>, keep: seq<bool>)
    requires |names| == Decoder.N_MOVES && max >= 1
    ensures |toks| == |Entities(model, src)| && toks == Answers(db, corr, src, Patches(model, names, src))
    ensures InLine(Entities(model, src), |src|) && |keep| == 2 * |Entities(model, src)| + 1
    ensures
      var xs := Entities(model, src);
      var (db', out) := MaskInto(db, corr, src, Patches(model, names, src), max);
      && db' == Masked(db, corr, src, Patches(model, names, src), 0).0
      && if xs == [] then out == src[..if |src| < max then |src| else max - 1]
         else
           var pieces := MaskedPieces(src, xs, toks, 0);
           out == Kept(pieces, keep) && KeptWhole(pieces, keep, 0, max)
  {
    var ps, xs := Patches(model, names, src), Entities(model, src);
    toks := Answers(db, corr, src, ps);
    PatchesValid(model, names, src);
    EntitiesMatch(model, names, src);
    InLineMatch(src, ps, xs);
    hide *;
    if xs == [] {
      keep := [true];
      CutOnly(db, corr, src, max);
    } else {
      MaskPours(db, corr, src, ps, xs, 0, "", max);
      keep := PouredKeeps(MaskedPieces(src, xs, toks, 0), "", max);
      MaskLoop(db, corr, src, ps, max);
      assert "" + Kept(MaskedPieces(src, xs, toks, 0), keep) == Kept(MaskedPieces(src, xs, toks, 0), keep);
    }
  }

  lemma CutOnly(db: Db, corr: string, src: string, max: nat)
    requires max >= 1
    ensures MaskInto(db, corr, src, [], max) == (db, src[..if |src| < max then |src| else max - 1])
    ensures Masked(db, corr, src, [], 0).0 == db
  {
    assert src[..|src|] == src;
  }

  lemma InLineMatch(src: string, ps: seq<Patch>, xs: seq<Stretch>)
    requires ValidPatches(src, ps) && Match(xs, ps)
    ensures InLine(xs, |src|) && |xs| == |ps|
  {
  }

  lemma MaskLoop(db: Db, corr: string, src: string, ps: seq<Patch>, max: nat)
    requires ps != [] && max >= 1
    ensures MaskInto(db, corr, src, ps, max) == MaskFrom(db, corr, src, ps, 0, "", max)
  {
    hide MaskFrom;
  }

  // ---- restoring ----

  /** The steps of the scan: a placeholder, or one byte. */
  function Segments(s: string): (segs: seq<string>)
    decreases |s|
  {
    if s == "" then [] else [s[..StepLen(s)]] + Segments(s[StepLen(s)..])
  }

  /** What a step of the scan stands for. */
  function MeaningOf(db: Db, corr: string, seg: string): string {
    if |seg| == 1 then seg else Meaning(db, corr, seg)
  }

  function Meanings(db: Db, corr: string, segs: seq<string>): (ts: seq<string>)
    ensures |ts| == |segs|
  {
    if segs == [] then [] else [MeaningOf(db, corr, segs[0])] + Meanings(db, corr, segs[1..])
  }

  /** Of the steps taken, a known placeholder is restored if and only if its text ends before the last byte
      but one of the buffer; every other step is copied. Each is taken with a byte and the zero to spare. */
  ghost predicate RestoredWhole(db: Db, corr: string, segs: seq<string>, keep: seq<bool>, o: nat, max: nat)
    requires |segs| == |keep|
  {
    var ts := Meanings(db, corr, segs);
    forall k :: 0 <= k < |segs| ==>
      && Before(ts, keep, k, o) + 1 < max
      && (keep[k] <==>
            |segs[k]| > 1 && Lookup(db, corr, segs[k]).Some? ==> Before(ts, keep, k, o) + |ts[k]| + 1 < max)
  }

  lemma {:induction false} SegmentsFirst(s: string)
    requires s != ""
    ensures var m := StepLen(s);
      && 1 <= m <= |s| && (m == 1 <==> MatchLen(s) == 0) && (MatchLen(s) > 0 ==> MatchLen(s) == m)
      && Segments(s) == [s[..m]] + Segments(s[m..])
  {
    hide MatchLen;
    assert MatchLen(s) > 0 ==> Shape(s, MatchLen(s));
  }

  /** The steps of the scan are the text, cut. */
  lemma {:induction false} SegmentsWhole(s: string, keep: seq<bool>)
    requires |keep| == |Segments(s)| && forall k :: 0 <= k < |keep| ==> keep[k]
    ensures Kept(Segments(s), keep) == s
    decreases |s|
  {
    if s != "" {
      hide *;
      SegmentsFirst(s);
      var m := StepLen(s);
      var segs := Segments(s);
      assert segs[1..] == Segments(s[m..]) && segs[0] == s[..m];
      assert keep == [true] + keep[1..];
      SegmentsWhole(s[m..], keep[1..]);
      KeptFirst(segs, true, keep[1..], "");
      assert "" + Kept(segs, keep) == Kept(segs, keep) && "" + s[..m] + s[m..] == s;
    }
  }

  /** One turn of the scan. */
  lemma {:induction false} RestoreTurn(db: Db, corr: string, s: string, out: string, max: nat) returns (copied: bool)
    requires s != "" && |out| + 1 < max
    ensures
      var m := StepLen(s);
      var text := MeaningOf(db, corr, s[..m]);
      && 1 <= m <= |s| && |s[..m]| == m
      && (copied <==> (m > 1 && Lookup(db, corr, s[..m]).Some? ==> |out| + |text| + 1 < max))
      && RestoreInto(db, corr, s, out, max) ==
           RestoreInto(db, corr, s[m..], if copied then out + text else out, max)
  {
    SegmentsFirst(s);
    var m := StepLen(s);
    copied := m > 1 && Lookup(db, corr, s[..m]).Some? ==> |out| + |MeaningOf(db, corr, s[..m])| + 1 < max;
    hide MatchLen, Lookup, Segments, RestoreInto;
    IntoStep(db, corr, s, out, max);
    assert s[..1] == [s[0]];
  }

  lemma {:induction false} TurnAdds(
    db: Db, corr: string, seg: string, segs: seq<string>, copied: bool, later: seq<bool>, o: nat, max: nat)
    requires |later| == |segs| && o + 1 < max
    requires copied <==> (|seg| > 1 && Lookup(db, corr, seg).Some? ==> o + |MeaningOf(db, corr, seg)| + 1 < max)
    requires RestoredWhole(db, corr, segs, later, o + if copied then |MeaningOf(db, corr, seg)| else 0, max)
    ensures RestoredWhole(db, corr, [seg] + segs, [copied] + later, o, max)
  {
    var all, keep := [seg] + segs, [copied] + later;
    var ts, ts1 := Meanings(db, corr, all), Meanings(db, corr, segs);
    assert all[1..] == segs && keep[1..] == later;
    assert ts == [MeaningOf(db, corr, seg)] + ts1;
    assert ts[1..] == ts1;
    hide Before, Meanings, MeaningOf, Lookup;
    forall k | 0 <= k < |all|
      ensures Before(ts, keep, k, o) + 1 < max
      ensures keep[k] <==>
        (|all[k]| > 1 && Lookup(db, corr, all[k]).Some? ==> Before(ts, keep, k, o) + |ts[k]| + 1 < max)
    {
      if k == 0 {
        BeforeFirst(ts, keep, o);
      } else {
        BeforeNext(ts, keep, k, o);
        assert all[k] == segs[k - 1] && keep[k] == later[k - 1] && ts[k] == ts1[k - 1];
      }
    }
  }

  lemma {:induction false} NothingRestored(db: Db, corr: string, s: string, out: string, max: nat)
    requires s == "" || |out| + 1 >= max
    ensures RestoreInto(db, corr, s, out, max) == out + Kept(Meanings(db, corr, Segments(s)[..0]), [])
    ensures RestoredWhole(db, corr, Segments(s)[..0], [], |out|, max) && (s == "" ==> Segments(s) == [])
  {
    IntoEnds(db, corr, s, out, max);
    assert Segments(s)[..0] == [] && out + "" == out;
  }

  lemma {:induction false} OneMoreKept(
    db: Db, corr: string, out: string, seg: string, segs: seq<string>, copied: bool, later: seq<bool>)
    requires |later| == |segs|
    ensures out + Kept(Meanings(db, corr, [seg] + segs), [copied] + later) ==
      (if copied then out + MeaningOf(db, corr, seg) else out) + Kept(Meanings(db, corr, segs), later)
  {
    assert ([seg] + segs)[1..] == segs;
    hide MeaningOf;
    assert Meanings(db, corr, [seg] + segs) == [MeaningOf(db, corr, seg)] + Meanings(db, corr, segs);
    hide Meanings;
    KeptFirst([MeaningOf(db, corr, seg)] + Meanings(db, corr, segs), copied, later, out);
    assert ([MeaningOf(db, corr, seg)] + Meanings(db, corr, segs))[1..] == Meanings(db, corr, segs);
  }

  /** In a buffer of any size, what the scan writes is made of whole pieces: its first n steps, of which a known
      placeholder is restored if and only if its text fits, and every other one copied. It stops at
      the end of the text or with the buffer full but for the zero. */
  lemma {:induction false} RestoreInAnyRoom(db: Db, corr: string, s: string, out: string, max: nat)
    returns (n: nat, keep: seq<bool>)
    ensures n <= |Segments(s)| && |keep| == n
    ensures
      var segs := Segments(s)[..n];
      && RestoreInto(db, corr, s, out, max) == out + Kept(Meanings(db, corr, segs), keep)
      && RestoredWhole(db, corr, segs, keep, |out|, max)
    ensures n < |Segments(s)| ==> |RestoreInto(db, corr, s, out, max)| + 1 >= max
    decreases |s|
  {
    hide *;
    if s == "" || |out| + 1 >= max {
      n, keep := 0, [];
      NothingRestored(db, corr, s, out, max);
    } else {
      SegmentsFirst(s);
      var m := StepLen(s);
      var seg, rest := s[..m], s[m..];
      var copied := RestoreTurn(db, corr, s, out, max);
      var out1 := if copied then out + MeaningOf(db, corr, seg) else out;
      var n1, later := RestoreInAnyRoom(db, corr, rest, out1, max);
      n, keep := n1 + 1, [copied] + later;
      var segs := Segments(rest)[..n1];
      assert Segments(s)[..n] == [seg] + segs;
      TurnAdds(db, corr, seg, segs, copied, later, |out|, max);
      OneMoreKept(db, corr, out, seg, segs, copied, later);
    }
  }
}
