/** ner_decode_spans: the greedy BILUO machine that turns per-token scores into entity spans.
    Moves are numbered B 0..17, I 18..35, L 36..53, U 54..71, 72 (never scored), O 73. */
module Decoder {
  import opened CText

  const MAX_SPANS: nat := 512
  const N_MOVES: nat := 74
  const O_MOVE: nat := 73
  /** The score the search starts from. */
  const FLOOR: real := -100000000000000000000000000000000000000.0

  /** The 74 scores of one token, all above the search's starting point and comparable. */
  type Row = s: seq<real> | |s| == N_MOVES && forall c :: 0 <= c < N_MOVES ==> s[c] > FLOOR
    witness seq(N_MOVES, _ => 0.0)

  /** What the network computes from three rows of its table (row 0 is padding, row t + 1
      is token t): any function at all. */
  type Network = (nat, nat, nat) -> Row

  type LabelIndex = i: nat | i < 18

  datatype State = Outside | Inside(start: nat, idx: LabelIndex)

  /** A span as the machine sees it: tokens start..end, label number idx. */
  datatype Cut = Cut(start: nat, end: nat, idx: LabelIndex)

  /** A span as it is handed out. */
  datatype Span = Span(start: nat, end: nat, lbl: string)

  // ---- one step ----

  function Scores(net: Network, t: nat, st: State): Row {
    match st
    case Outside => net(t + 1, 0, 0)
    case Inside(start, _) => net(t + 1, start + 1, t)
  }

  /** First best move among lo..hi that beats the score so far. */
  function ArgMax(row: Row, lo: nat, hi: nat, best: int, score: real): (r: (int, real))
    requires lo <= hi <= N_MOVES
    decreases hi - lo
  {
    if lo == hi then (best, score)
    else if row[lo] > score then ArgMax(row, lo + 1, hi, lo, row[lo])
    else ArgMax(row, lo + 1, hi, best, score)
  }

  function Best(row: Row, st: State): int
  {
    match st
    case Outside =>
      var (b0, s0) := ArgMax(row, 0, 18, -1, FLOOR);
      var (b1, s1) := ArgMax(row, 54, 72, b0, s0);
      if row[O_MOVE] > s1 then O_MOVE else b1
    case Inside(_, idx) =>
      if row[18 + idx] > row[36 + idx] then 18 + idx else 36 + idx
  }

  /** Which moves the machine may make. */
  predicate Valid(st: State, m: int) {
    match st
    case Outside => 0 <= m < 18 || 54 <= m < 72 || m == O_MOVE
    case Inside(_, idx) => m == 18 + idx || m == 36 + idx
  }

  lemma {:induction false} ArgMaxIs(row: Row, lo: nat, hi: nat, best: int, score: real)
    requires lo <= hi <= N_MOVES
    ensures
      var (b, s) := ArgMax(row, lo, hi, best, score);
      && (forall c :: lo <= c < hi ==> row[c] <= s)
      && score <= s
      && (if b == best && s == score then true else lo <= b < hi && s == row[b] && s > score)
      && (lo <= b < hi && s > score ==> forall c :: lo <= c < b ==> row[c] < s)
      && ((b, s) == (best, score) || lo <= b < hi)
    decreases hi - lo
  {
    if lo < hi {
      if row[lo] > score {
        ArgMaxIs(row, lo + 1, hi, lo, row[lo]);
      } else {
        ArgMaxIs(row, lo + 1, hi, best, score);
      }
    }
  }

  /** The machine chooses a valid move of highest score; outside an entity the first such one,
      inside an entity it prefers to end it. */
  lemma BestIsMax(row: Row, st: State)
    ensures
      var m := Best(row, st);
      && Valid(st, m)
      && (forall c :: Valid(st, c) ==> row[c] <= row[m])
      && (st.Outside? ==> forall c :: Valid(st, c) && c < m ==> row[c] < row[m])
      && (st.Inside? && m == 18 + st.idx ==> row[36 + st.idx] < row[m])
  {
    if st.Outside? {
      ArgMaxIs(row, 0, 18, -1, FLOOR);
      var (b0, s0) := ArgMax(row, 0, 18, -1, FLOOR);
      ArgMaxIs(row, 54, 72, b0, s0);
      assert row[0] > FLOOR;
    }
  }

  function Next(t: nat, st: State, m: int): State
    requires 0 <= m < N_MOVES
  {
    if m < 18 then Inside(t, m % 18)
    else if m < 36 then st
    else Outside
  }

  /** The span a move ends, if any. */
  function Closed(t: nat, st: State, m: int): seq<Cut> {
    if 36 <= m < 54 && st.Inside? then [Cut(st.start, t + 1, st.idx)]
    else if 54 <= m < 72 then [Cut(t, t + 1, m - 54)]
    else []
  }

  // ---- the run over n tokens ----

  function StateAt(net: Network, n: nat): (st: State)
    ensures st.Inside? ==> st.start < n
    decreases n, 0
  {
    if n == 0 then Outside
    else
      BestIsMax(Scores(net, n - 1, StateAt(net, n - 1)), StateAt(net, n - 1));
      Next(n - 1, StateAt(net, n - 1), Move(net, n - 1))
  }

  /** The move made at token t. */
  function Move(net: Network, t: nat): int
    decreases t, 1
  {
    Best(Scores(net, t, StateAt(net, t)), StateAt(net, t))
  }

  function Cuts(net: Network, n: nat): seq<Cut> {
    if n == 0 then [] else Cuts(net, n - 1) + Closed(n - 1, StateAt(net, n - 1), Move(net, n - 1))
  }

  function Moves(net: Network, n: nat): (ms: seq<int>)
    ensures |ms| == n
  {
    if n == 0 then [] else Moves(net, n - 1) + [Move(net, n - 1)]
  }

  /** The name of the move that closed a span, without its "L-" or "U-", in a 16-byte field. */
  function LabelOf(names: seq<string>, cut: Cut): string
    requires |names| == N_MOVES
  {
    var name := names[if cut.end == cut.start + 1 then 54 + cut.idx else 36 + cut.idx];
    Take(if |name| < 2 then "" else name[2..], 15)
  }

  function Named(names: seq<string>, cuts: seq<Cut>): (spans: seq<Span>)
    requires |names| == N_MOVES
    ensures |spans| == |cuts|
  {
    seq(|cuts|, i requires 0 <= i < |cuts| => Span(cuts[i].start, cuts[i].end, LabelOf(names, cuts[i])))
  }

  // ---- the spans ----

  /** Nonempty, in bounds, strictly ordered, disjoint. */
  ghost predicate Sorted(cuts: seq<Cut>, n: nat) {
    && (forall i :: 0 <= i < |cuts| ==> cuts[i].start < cuts[i].end <= n)
    && (forall i, j :: 0 <= i < j < |cuts| ==> cuts[i].end <= cuts[j].start)
  }

  /** The decoded spans are sorted, end before an entity still open, and are at most n. */
  lemma {:induction false} CutsSorted(net: Network, n: nat)
    ensures Sorted(Cuts(net, n), n) && |Cuts(net, n)| <= n
    ensures StateAt(net, n).Inside? ==> Sorted(Cuts(net, n), StateAt(net, n).start)
    ensures StateAt(net, n).Inside? ==> |Cuts(net, n)| <= StateAt(net, n).start
  {
    RunStart(net);
    hide StateAt, Move, Cuts, Sorted, Valid, Next, Closed;
    if n > 0 {
      CutsSorted(net, n - 1);
      RunStep(net, n - 1);
      SortedStep(Cuts(net, n - 1), StateAt(net, n - 1), n - 1, Move(net, n - 1));
    }
  }

  lemma RunStart(net: Network)
    ensures StateAt(net, 0) == Outside && Cuts(net, 0) == [] && Moves(net, 0) == [] && Sorted([], 0)
  {
  }

  lemma SortedStep(cuts: seq<Cut>, st: State, t: nat, m: int)
    requires Valid(st, m) && Sorted(cuts, t) && |cuts| <= t
    requires st.Inside? ==> st.start < t && Sorted(cuts, st.start) && |cuts| <= st.start
    ensures Sorted(cuts + Closed(t, st, m), t + 1) && |cuts + Closed(t, st, m)| <= t + 1
    ensures
      var st' := Next(t, st, m);
      st'.Inside? ==>
        Sorted(cuts + Closed(t, st, m), st'.start) && |cuts + Closed(t, st, m)| <= st'.start
  {
  }

  // ---- re-encoding ----

  function Outs(k: nat): seq<int> {
    seq(k, _ => O_MOVE)
  }

  /** B I* L, or U for a single token. */
  function Block(c: Cut): seq<int>
    requires c.start < c.end
  {
    if c.end == c.start + 1 then [54 + c.idx]
    else [c.idx] + seq(c.end - c.start - 2, _ => 18 + c.idx) + [36 + c.idx]
  }

  /** BILUO tags of n tokens with these spans. */
  function Encode(cuts: seq<Cut>, n: nat): seq<int>
    requires Sorted(cuts, n)
  {
    if cuts == [] then Outs(n)
    else
      var c := cuts[|cuts| - 1];
      Encode(cuts[..|cuts| - 1], c.start) + Block(c) + Outs(n - c.end)
  }

  /** Tags of an entity begun at start and still open at token n. */
  function Open(start: nat, idx: LabelIndex, n: nat): seq<int>
    requires start < n
  {
    [idx as int] + seq(n - start - 1, _ => 18 + idx)
  }

  lemma EncodeMore(cuts: seq<Cut>, n: nat)
    requires Sorted(cuts, n)
    ensures Encode(cuts, n + 1) == Encode(cuts, n) + [O_MOVE]
  {
    if cuts != [] {
      var c := cuts[|cuts| - 1];
      assert Outs(n + 1 - c.end) == Outs(n - c.end) + [O_MOVE];
    }
  }

  lemma EncodeBlock(cuts: seq<Cut>, c: Cut)
    requires c.start < c.end && Sorted(cuts, c.start) && Sorted(cuts + [c], c.end)
    ensures Encode(cuts + [c], c.end) == Encode(cuts, c.start) + Block(c)
  {
    assert (cuts + [c])[..|cuts|] == cuts;
  }

  /** The moves ms over n tokens, ending in state st, are the tags of cuts, followed by those
      of the entity st has open. */
  ghost predicate Tagged(ms: seq<int>, cuts: seq<Cut>, st: State, n: nat) {
    && Sorted(cuts, n)
    && (st.Outside? ==> ms == Encode(cuts, n))
    && (st.Inside? ==>
          && st.start < n && Sorted(cuts, st.start)
          && ms == Encode(cuts, st.start) + Open(st.start, st.idx, n))
  }

  lemma TaggedStep(ms: seq<int>, cuts: seq<Cut>, st: State, t: nat, m: int)
    requires Tagged(ms, cuts, st, t) && Valid(st, m) && Sorted(cuts + Closed(t, st, m), t + 1)
    ensures Tagged(ms + [m], cuts + Closed(t, st, m), Next(t, st, m), t + 1)
  {
    hide Encode, Sorted, Tagged, Block;
    if st.Outside? {
      OutsideStep(ms, cuts, t, m);
    } else {
      InsideStep(ms, cuts, st, t, m);
    }
  }

  lemma OutsideStep(ms: seq<int>, cuts: seq<Cut>, t: nat, m: int)
    requires Tagged(ms, cuts, Outside, t) && Valid(Outside, m) && Sorted(cuts + Closed(t, Outside, m), t + 1)
    ensures Tagged(ms + [m], cuts + Closed(t, Outside, m), Next(t, Outside, m), t + 1)
  {
    hide Encode, Sorted, Block;
    if 54 <= m < 72 {
      var c := Cut(t, t + 1, m - 54);
      SingleBlock(c);
      EncodeBlock(cuts, c);
    } else {
      assert cuts + Closed(t, Outside, m) == cuts;
      if m < 18 {
        OpenFirst(t, m);
      } else {
        EncodeMore(cuts, t);
      }
    }
  }

  lemma InsideStep(ms: seq<int>, cuts: seq<Cut>, st: State, t: nat, m: int)
    requires st.Inside? && Tagged(ms, cuts, st, t) && Valid(st, m) && Sorted(cuts + Closed(t, st, m), t + 1)
    ensures Tagged(ms + [m], cuts + Closed(t, st, m), Next(t, st, m), t + 1)
  {
    hide Encode, Sorted, Block, Open;
    var start, idx := st.start, st.idx as int;
    Regroup(Encode(cuts, start), Open(start, idx, t), [m]);
    if m == 36 + idx {
      var c := Cut(start, t + 1, idx);
      LastBlock(c);
      EncodeBlock(cuts, c);
    } else {
      assert cuts + Closed(t, st, m) == cuts;
      OpenMore(start, idx, t);
    }
  }

  lemma SingleBlock(c: Cut)
    requires c.end == c.start + 1
    ensures Block(c) == [54 + c.idx]
  {
  }

  lemma LastBlock(c: Cut)
    requires c.start + 1 < c.end
    ensures Block(c) == Open(c.start, c.idx, c.end - 1) + [36 + c.idx]
  {
  }

  lemma OpenFirst(t: nat, idx: LabelIndex)
    ensures Open(t, idx, t + 1) == [idx as int]
  {
  }

  lemma OpenMore(start: nat, idx: LabelIndex, t: nat)
    requires start < t
    ensures Open(start, idx, t + 1) == Open(start, idx, t) + [18 + idx]
  {
  }

  /** Tagging the decoded spans gives back every move the machine made, up to an entity left
      open at the end, whose moves are B and then I throughout. */
  lemma {:induction false} ReencodeMoves(net: Network, n: nat)
    ensures Tagged(Moves(net, n), Cuts(net, n), StateAt(net, n), n)
  {
    CutsSorted(net, n);
    RunStart(net);
    NothingTagged();
    hide Tagged, Sorted, Valid, Next, Closed, Moves, Move, Cuts, StateAt;
    if n > 0 {
      ReencodeMoves(net, n - 1);
      RunStep(net, n - 1);
      TaggedStep(Moves(net, n - 1), Cuts(net, n - 1), StateAt(net, n - 1), n - 1, Move(net, n - 1));
    }
  }

  lemma NothingTagged()
    ensures Tagged([], [], Outside, 0)
  {
  }

  lemma RunStep(net: Network, t: nat)
    ensures Valid(StateAt(net, t), Move(net, t)) && 0 <= Move(net, t) < N_MOVES
    ensures StateAt(net, t + 1) == Next(t, StateAt(net, t), Move(net, t))
    ensures Cuts(net, t + 1) == Cuts(net, t) + Closed(t, StateAt(net, t), Move(net, t))
    ensures Moves(net, t + 1) == Moves(net, t) + [Move(net, t)]
  {
    BestIsMax(Scores(net, t, StateAt(net, t)), StateAt(net, t));
    hide Best, Scores;
  }

  lemma Regroup<T>(a: seq<T>, b: seq<T>, c: seq<T>)
    ensures a + b + c == a + (b + c)
  {
  }

  // ---- which scores decide ----

  /** Two networks look alike to the machine if they agree where it can look: for a token outside any
      entity with both other rows padded, and inside one with the rows of the entity's first token and
      of the token before. */
  ghost predicate AgreeWhereRead(net: Network, net': Network, n: nat) {
    && (forall t: nat :: t < n ==> AgreeOutside(net, net', t))
    && (forall s: nat, t: nat :: s < t < n ==> AgreeInside(net, net', s, t))
  }

  predicate AgreeOutside(net: Network, net': Network, t: nat) {
    net(t + 1, 0, 0) == net'(t + 1, 0, 0)
  }

  predicate AgreeInside(net: Network, net': Network, s: nat, t: nat) {
    net(t + 1, s + 1, t) == net'(t + 1, s + 1, t)
  }

  /** Nothing else of the network matters. */
  lemma {:induction false} RowsRead(net: Network, net': Network, n: nat)
    requires AgreeWhereRead(net, net', n)
    ensures Moves(net, n) == Moves(net', n) && Cuts(net, n) == Cuts(net', n) && StateAt(net, n) == StateAt(net', n)
  {
    hide Moves, Cuts, StateAt, Move, Next, Closed, AgreeOutside, AgreeInside;
    RunStart(net);
    RunStart(net');
    if n > 0 {
      RowsRead(net, net', n - 1);
      MoveReads(net, net', n - 1);
      RunStep(net, n - 1);
      RunStep(net', n - 1);
    }
  }

  lemma MoveReads(net: Network, net': Network, t: nat)
    requires AgreeWhereRead(net, net', t + 1) && StateAt(net, t) == StateAt(net', t)
    ensures Move(net, t) == Move(net', t)
  {
    var st := StateAt(net, t);
    assert AgreeOutside(net, net', t);
    assert st.Inside? ==> AgreeInside(net, net', st.start, t);
    hide StateAt, Best, AgreeWhereRead;
  }

  /** A move that opens an entity, is one by itself or stays outside, and is the first best of these. */
  ghost predicate FirstBest(row: Row, m: int) {
    && (0 <= m < 18 || 54 <= m < 72 || m == 73)
    && forall c :: 0 <= c < 18 || 54 <= c < 72 || c == 73 ==> row[c] <= row[m] && (c < m ==> row[c] < row[m])
  }

  /** Read with the entity's first token and the token before, t goes on with the entity from s. */
  predicate GoesOn(net: Network, s: nat, idx: LabelIndex, t: nat) {
    net(t + 1, s + 1, t)[18 + idx] > net(t + 1, s + 1, t)[36 + idx]
  }

  /** The scores bear a span out: its first token is read as outside any entity, and every later one
      with the first token and the one before it; all of them go on but the last. */
  ghost predicate BorneOut(net: Network, c: Cut) {
    && c.start < c.end
    && FirstBest(net(c.start + 1, 0, 0), if c.end == c.start + 1 then 54 + c.idx else c.idx as int)
    && (forall t: nat :: c.start < t < c.end ==> (GoesOn(net, c.start, c.idx, t) <==> t < c.end - 1))
  }

  /** So they do an entity begun and not yet ended. */
  ghost predicate OpenSoFar(net: Network, s: nat, idx: LabelIndex, n: nat) {
    && s < n && FirstBest(net(s + 1, 0, 0), idx as int)
    && forall t: nat :: s < t < n ==> GoesOn(net, s, idx, t)
  }

  ghost predicate InSome(cuts: seq<Cut>, t: nat) {
    exists k :: 0 <= k < |cuts| && cuts[k].start <= t < cuts[k].end
  }

  /** Every token before n in no span scores best as outside. */
  ghost predicate OthersOutside(net: Network, cuts: seq<Cut>, n: nat) {
    forall t: nat :: t < n && !InSome(cuts, t) ==> FirstBest(net(t + 1, 0, 0), 73)
  }

  ghost predicate AllBorneOut(net: Network, cuts: seq<Cut>, st: State, n: nat) {
    && (forall k :: 0 <= k < |cuts| ==> BorneOut(net, cuts[k]))
    && OthersOutside(net, cuts, if st.Inside? then st.start else n)
    && (st.Inside? ==> OpenSoFar(net, st.start, st.idx, n))
  }

  lemma InSomeMore(cuts: seq<Cut>, c: Cut, t: nat)
    ensures InSome(cuts + [c], t) <==> InSome(cuts, t) || c.start <= t < c.end
  {
    if InSome(cuts, t) {
      var k :| 0 <= k < |cuts| && cuts[k].start <= t < cuts[k].end;
      assert (cuts + [c])[k] == cuts[k];
    }
    assert (cuts + [c])[|cuts|] == c;
  }

  lemma OthersMore(net: Network, cuts: seq<Cut>, c: Cut)
    requires OthersOutside(net, cuts, c.start)
    ensures OthersOutside(net, cuts + [c], c.end)
  {
    hide FirstBest, InSome;
    forall t: nat | t < c.end && !InSome(cuts + [c], t) ensures FirstBest(net(t + 1, 0, 0), 73) {
      InSomeMore(cuts, c, t);
    }
  }

  /** The move m at token t is what the scores say. */
  ghost predicate Says(net: Network, st: State, t: nat, m: int) {
    match st
    case Outside => FirstBest(net(t + 1, 0, 0), m)
    case Inside(s, idx) => m == if GoesOn(net, s, idx, t) then 18 + idx else 36 + idx
  }

  lemma BorneOutOutside(net: Network, cuts: seq<Cut>, t: nat, m: int)
    requires AllBorneOut(net, cuts, Outside, t) && FirstBest(net(t + 1, 0, 0), m)
    ensures AllBorneOut(net, cuts + Closed(t, Outside, m), Next(t, Outside, m), t + 1)
  {
    assert 0 <= m < 18 || 54 <= m < 72 || m == 73;
    hide InSome, FirstBest, GoesOn;
    if 54 <= m < 72 {
      OthersMore(net, cuts, Cut(t, t + 1, m - 54));
      assert BorneOut(net, Cut(t, t + 1, m - 54));
    } else {
      assert cuts + [] == cuts;
    }
  }

  lemma BorneOutInside(net: Network, cuts: seq<Cut>, st: State, t: nat, m: int)
    requires st.Inside? && st.start < t && AllBorneOut(net, cuts, st, t) && Says(net, st, t, m)
    ensures AllBorneOut(net, cuts + Closed(t, st, m), Next(t, st, m), t + 1)
  {
    hide InSome, FirstBest, GoesOn, OthersOutside;
    if m == 36 + st.idx {
      OthersMore(net, cuts, Cut(st.start, t + 1, st.idx));
      assert BorneOut(net, Cut(st.start, t + 1, st.idx));
    } else {
      assert cuts + [] == cuts;
    }
  }

  lemma MoveIsSaid(net: Network, t: nat)
    ensures Says(net, StateAt(net, t), t, Move(net, t))
  {
    var st := StateAt(net, t);
    BestIsMax(Scores(net, t, st), st);
    hide StateAt, ArgMax;
  }

  /** What the spans rest on: every span is borne out by the scores of its own tokens, and every token
      in no span, before an entity still open, scores best as outside. */
  lemma {:induction false} SpansBorneOut(net: Network, n: nat)
    ensures AllBorneOut(net, Cuts(net, n), StateAt(net, n), n)
  {
    RunStart(net);
    hide Moves, Cuts, StateAt, Move, Next, Closed, FirstBest, GoesOn, BorneOut;
    if n > 0 {
      SpansBorneOut(net, n - 1);
      MoveIsSaid(net, n - 1);
      RunStep(net, n - 1);
      var st := StateAt(net, n - 1);
      hide AllBorneOut;
      if st.Outside? {
        BorneOutOutside(net, Cuts(net, n - 1), n - 1, Move(net, n - 1));
      } else {
        BorneOutInside(net, Cuts(net, n - 1), st, n - 1, Move(net, n - 1));
      }
    }
  }

  /** The names of the moves: four prefixes before each of 18 labels. */
  ghost predicate BiluoNames(names: seq<string>, labels: seq<string>) {
    && |names| == N_MOVES && |labels| == 18
    && forall i :: 0 <= i < 18 ==>
      && names[i] == "B-" + labels[i] && names[18 + i] == "I-" + labels[i]
      && names[36 + i] == "L-" + labels[i] && names[54 + i] == "U-" + labels[i]
  }

  /** A span is labelled by the label its first token was tagged with, cut to 15 bytes. */
  lemma LabelOfFirst(net: Network, n: nat, names: seq<string>, labels: seq<string>, k: nat)
    requires BiluoNames(names, labels) && k < |Cuts(net, n)|
    ensures var c := Cuts(net, n)[k];
      && c.start < n && (Moves(net, n)[c.start] == c.idx || Moves(net, n)[c.start] == 54 + c.idx)
      && Named(names, Cuts(net, n))[k] == Span(c.start, c.end, Take(labels[c.idx], 15))
  {
    ReencodeMoves(net, n);
    LabelIs(names, labels, Cuts(net, n)[k]);
    hide Moves, Cuts, StateAt, BiluoNames, LabelOf;
    TagOfFirst(Moves(net, n), Cuts(net, n), StateAt(net, n), n, k);
  }

  lemma LabelIs(names: seq<string>, labels: seq<string>, c: Cut)
    requires BiluoNames(names, labels)
    ensures LabelOf(names, c) == Take(labels[c.idx], 15)
  {
    var i := c.idx;
    assert names[36 + i] == "L-" + labels[i] && names[54 + i] == "U-" + labels[i];
    assert ("L-" + labels[i])[2..] == labels[i] && ("U-" + labels[i])[2..] == labels[i];
    hide BiluoNames;
  }

  lemma TagOfFirst(ms: seq<int>, cuts: seq<Cut>, st: State, n: nat, k: nat)
    requires Tagged(ms, cuts, st, n) && |ms| == n && k < |cuts|
    ensures var c := cuts[k]; c.start < n && (ms[c.start] == c.idx || ms[c.start] == 54 + c.idx)
  {
    var e := if st.Inside? then st.start else n;
    assert cuts[k].start < e;
    EncodedFirst(cuts, e, k);
    hide Encode, Open;
  }

  lemma {:induction false} EncodedFirst(cuts: seq<Cut>, n: nat, k: nat)
    requires Sorted(cuts, n) && k < |cuts|
    ensures |Encode(cuts, n)| == n
    ensures var m := Encode(cuts, n)[cuts[k].start]; m == cuts[k].idx || m == 54 + cuts[k].idx
    decreases |cuts|
  {
    EncodeLength(cuts, n);
    EncodeLast(cuts, n);
    EncodeLength(cuts[..|cuts| - 1], cuts[|cuts| - 1].start);
    if k < |cuts| - 1 { EncodedFirst(cuts[..|cuts| - 1], cuts[|cuts| - 1].start, k); }
    var c, rest := cuts[|cuts| - 1], cuts[..|cuts| - 1];
    var front := Encode(rest, c.start);
    assert cuts[k].end <= c.start || k == |rest|;
    hide *;
    FirstOf(front, Block(c), Outs(n - c.end), cuts[k].start);
  }

  lemma FirstOf(a: seq<int>, b: seq<int>, c: seq<int>, i: nat)
    ensures i < |a| ==> (a + b + c)[i] == a[i]
    ensures b != [] && i == |a| ==> (a + b + c)[i] == b[0]
  {
  }

  lemma EncodeLast(cuts: seq<Cut>, n: nat)
    requires Sorted(cuts, n) && cuts != []
    ensures var c := cuts[|cuts| - 1];
      && Sorted(cuts[..|cuts| - 1], c.start) && |Block(c)| == c.end - c.start
      && (Block(c)[0] == c.idx || Block(c)[0] == 54 + c.idx)
      && Encode(cuts, n) == Encode(cuts[..|cuts| - 1], c.start) + Block(c) + Outs(n - c.end)
  {
  }

  lemma {:induction false} EncodeLength(cuts: seq<Cut>, n: nat)
    requires Sorted(cuts, n)
    ensures |Encode(cuts, n)| == n
    decreases |cuts|
  {
    if cuts != [] {
      EncodeLast(cuts, n);
      EncodeLength(cuts[..|cuts| - 1], cuts[|cuts| - 1].start);
    }
  }

  // ---- the procedure ----

  /** ner_decode_spans. */
  method NerDecodeSpans(net: Network, names: seq<string>, nToks: nat, spans: array<Span>) returns (nSpans: nat)
    requires |names| == N_MOVES && nToks <= MAX_SPANS <= spans.Length
    modifies spans
    ensures nSpans <= nToks && spans[..nSpans] == Named(names, Cuts(net, nToks))
  {
    RunStart(net);
    hide Best, Named, Sorted, StateAt, Cuts, Moves;
    nSpans := 0;
    var stateOutside, entStart := true, -1;
    var lblIdx: LabelIndex := 0;
    var t := 0;
    NamedNone(names);
    while t < nToks
      invariant 0 <= t <= nToks && nSpans == |Cuts(net, t)| <= t
      invariant stateOutside <==> StateAt(net, t).Outside?
      invariant !stateOutside ==> 0 <= entStart && StateAt(net, t) == Inside(entStart, lblIdx)
      invariant spans[..nSpans] == Named(names, Cuts(net, t))
    {
      ghost var st := StateAt(net, t);
      CutsSorted(net, t + 1);
      RunStep(net, t);
      var id1, id2 := if stateOutside then -1 else entStart, if stateOutside then -1 else t - 1;
      var row := net(t + 1, if id1 >= 0 then id1 + 1 else 0, if id2 >= 0 then id2 + 1 else 0);
      var best := Choose(row, stateOutside, lblIdx, st);
      BestIsMax(row, st);
      assert best == Move(net, t);
      assert Closed(t, st, best) == [] ==> Cuts(net, t + 1) == Cuts(net, t);
      if best < 18 {
        entStart, lblIdx, stateOutside := t, best % 18, false;
      } else if 36 <= best < 54 {
        if nSpans < MAX_SPANS {
          nSpans := Record(names, best, Cut(entStart, t + 1, lblIdx), Cuts(net, t), spans, nSpans);
        }
        stateOutside, entStart := true, -1;
      } else if 54 <= best < 72 {
        if nSpans < MAX_SPANS {
          nSpans := Record(names, best, Cut(t, t + 1, best - 54), Cuts(net, t), spans, nSpans);
        }
        stateOutside, entStart := true, -1;
      } else if best >= 72 {
        stateOutside := true;
      }
      t := t + 1;
    }
  }

  /** Append one span, labelled by the name of the move that closed it. */
  method Record(names: seq<string>, best: nat, cut: Cut, ghost cuts: seq<Cut>, spans: array<Span>, n0: nat)
    returns (n: nat)
    requires |names| == N_MOVES && n0 < spans.Length && spans[..n0] == Named(names, cuts)
    requires best == if cut.end == cut.start + 1 then 54 + cut.idx else 36 + cut.idx
    modifies spans
    ensures n == n0 + 1 && spans[..n] == Named(names, cuts + [cut])
  {
    NamedGrows(names, cuts, cut);
    var name := names[best];
    spans[n0] := Span(cut.start, cut.end, Take(if |name| < 2 then "" else name[2..], 15));
    n := n0 + 1;
  }

  lemma NamedNone(names: seq<string>)
    requires |names| == N_MOVES
    ensures Named(names, []) == []
  {
  }

  lemma NamedGrows(names: seq<string>, cuts: seq<Cut>, c: Cut)
    requires |names| == N_MOVES
    ensures Named(names, cuts + [c]) == Named(names, cuts) + [Span(c.start, c.end, LabelOf(names, c))]
  {
  }

  /** The valid-move mask and the search for the best score. */
  method Choose(row: Row, stateOutside: bool, lblIdx: LabelIndex, ghost st: State) returns (best: int)
    requires stateOutside <==> st.Outside?
    requires !stateOutside ==> st.idx == lblIdx
    ensures best == Best(row, st)
  {
    best := -1;
    var bestScore := FLOOR;
    if stateOutside {
      var c := 0;
      while c < 18
        invariant 0 <= c <= 18
        invariant ArgMax(row, c, 18, best, bestScore) == ArgMax(row, 0, 18, -1, FLOOR)
      {
        if row[c] > bestScore { best, bestScore := c, row[c]; }
        c := c + 1;
      }
      ghost var b0, s0 := best, bestScore;
      c := 54;
      while c < 72
        invariant 54 <= c <= 72
        invariant ArgMax(row, c, 72, best, bestScore) == ArgMax(row, 54, 72, b0, s0)
      {
        if row[c] > bestScore { best, bestScore := c, row[c]; }
        c := c + 1;
      }
      if row[O_MOVE] > bestScore { best := O_MOVE; }
    } else {
      var ci, cl := 18 + lblIdx, 36 + lblIdx;
      best := if row[ci] > row[cl] then ci else cl;
    }
  }
}
