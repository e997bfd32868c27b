/** walk_and_rewrite: rewrite every string of a MessagePack document, value by value. */
module Walk {
  import opened CText
  import opened Options
  import opened TokenMap
  import opened Scanner
  import opened Masker
  import opened RoundTrip
  import Decoder

  const MAX_MASKED: nat := 65536

  /** One tag, as the reader meets it. Numbers with a fraction are kept as their bit patterns. Raw is
      a binary or extension value: its bytes are not read, so the tags behind it are whatever its
      bytes happen to be. */
  datatype Tag =
    | Nil
    | Bool(b: bool)
    | Int(i: int)
    | UInt(u: nat)
    | Float(bits: nat)
    | Double(bits: nat)
    | Raw
    | Str(s: string)
    | Array(n: nat)
    | Map(n: nat)

  /** A string rewriter: the token map before, the text; the map after, the new text. */
  type Rewriter = (Db, string) -> (Db, string)

  /** A byte string as a C string: up to its first NUL. */
  function CString(s: string): (r: string)
    ensures IsCString(r) && |r| <= |s|
    ensures IsCString(s) ==> r == s
  {
    if s == "" || s[0] == NUL then "" else [s[0]] + CString(s[1..])
  }

  /** The reader's buffer keeps 64 KiB of a string. */
  function Buffered(s: string): string {
    CString(Take(s, MAX_MASKED))
  }

  function MaskFn(model: Model, names: seq<string>, corr: string): Rewriter
    requires |names| == Decoder.N_MOVES
  {
    (db: Db, s: string) => MaskInto(db, corr, s, Patches(model, names, s), MAX_MASKED)
  }

  function RestoreFn(corr: string): Rewriter {
    (db: Db, s: string) => (db, RestoreInto(db, corr, s, "", MAX_MASKED))
  }

  // ---- tag streams ----

  /** What is left after rewriting: the map, the tags written, the tags not read. */
  datatype Outcome = Outcome(db: Db, out: seq<Tag>, rest: seq<Tag>)

  /** How many more values a tag announces. */
  function Children(t: Tag): nat {
    match t
    case Array(n) => n
    case Map(n) => 2 * n
    case _ => 0
  }

  /** What is written for one tag, and the token map after it. */
  function One(fn: Rewriter, db: Db, t: Tag): (Db, Tag) {
    if t.Str? then var (db1, s) := fn(db, Buffered(t.s)); (db1, Str(s))
    else if t.Raw? then (db, Nil)
    else (db, t)
  }

  /** Rewrite k values from a stream of tags. A stream that ends early ends the output too. */
  function WalkTags(fn: Rewriter, k: nat, db: Db, tags: seq<Tag>): (r: Outcome)
    ensures |r.rest| <= |tags| && (k > 0 && tags != [] ==> |r.rest| < |tags|)
    decreases |tags|
  {
    if k == 0 || tags == [] then Outcome(db, [], tags)
    else
      var (db1, t) := One(fn, db, tags[0]);
      After([t], WalkTags(fn, Children(tags[0]) + k - 1, db1, tags[1..]))
  }

  function After(out: seq<Tag>, r: Outcome): Outcome {
    r.(out := out + r.out)
  }

  /** Walking j + k values is walking j, then k more from where that stopped. */
  lemma {:induction false} WalkSplit(fn: Rewriter, j: nat, k: nat, db: Db, tags: seq<Tag>)
    ensures
      var r := WalkTags(fn, j, db, tags);
      WalkTags(fn, j + k, db, tags) == After(r.out, WalkTags(fn, k, r.db, r.rest))
    decreases |tags|
  {
    hide One, Children;
    if j > 0 && tags != [] {
      var (db1, t) := One(fn, db, tags[0]);
      var j1 := Children(tags[0]) + j - 1;
      WalkSplit(fn, j1, k, db1, tags[1..]);
      var r1 := WalkTags(fn, j1, db1, tags[1..]);
      Join([t], r1.out, WalkTags(fn, k, r1.db, r1.rest).out);
    } else {
      var r := WalkTags(fn, k, db, tags);
      assert [] + r.out == r.out;
    }
  }

  /** The token map once the strings of the first p tags are rewritten, left to right. */
  function StoreAt(fn: Rewriter, db: Db, tags: seq<Tag>, p: nat): Db
    requires p <= |tags|
  {
    if p == 0 then db
    else
      var was := StoreAt(fn, db, tags, p - 1);
      if tags[p - 1].Str? then fn(was, Buffered(tags[p - 1].s)).0 else was
  }

  /** The walk reads a stretch of tags and writes one tag for each: a string rewritten, nil for a binary
      or extension value, and any other tag unchanged. */
  ghost predicate ReadWritten(fn: Rewriter, db: Db, tags: seq<Tag>, r: Outcome) {
    && |r.out| <= |tags| && r.rest == tags[|r.out|..] && r.db == StoreAt(fn, db, tags, |r.out|)
    && forall p :: 0 <= p < |r.out| ==> Written(fn, StoreAt(fn, db, tags, p), tags[p], r.out[p])
  }

  predicate Written(fn: Rewriter, db: Db, t: Tag, u: Tag) {
    match t
    case Str(s) => u == Str(fn(db, Buffered(s)).1)
    case Raw => u == Nil
    case _ => u == t
  }

  lemma {:induction false} StoreShift(fn: Rewriter, db: Db, tags: seq<Tag>, p: nat)
    requires p < |tags|
    ensures StoreAt(fn, db, tags, p + 1) == StoreAt(fn, StoreAt(fn, db, tags, 1), tags[1..], p)
  {
    hide Buffered;
    if p > 0 { StoreShift(fn, db, tags, p - 1); }
  }

  lemma {:induction false} ReadOne(fn: Rewriter, db: Db, tags: seq<Tag>, t: Tag, r: Outcome)
    requires tags != [] && ReadWritten(fn, StoreAt(fn, db, tags, 1), tags[1..], r)
    requires Written(fn, db, tags[0], t)
    ensures ReadWritten(fn, db, tags, After([t], r))
  {
    var out := [t] + r.out;
    assert tags[1..][|r.out|..] == tags[|out|..];
    StoreShift(fn, db, tags, |r.out|);
    hide Written;
    forall p | 0 <= p < |out| ensures Written(fn, StoreAt(fn, db, tags, p), tags[p], out[p]) {
      if p > 0 { StoreShift(fn, db, tags, p - 1); }
    }
  }

  lemma {:induction false} TagByTag(fn: Rewriter, k: nat, db: Db, tags: seq<Tag>)
    ensures ReadWritten(fn, db, tags, WalkTags(fn, k, db, tags))
    decreases |tags|
  {
    if k > 0 && tags != [] {
      var (db1, t) := One(fn, db, tags[0]);
      assert StoreAt(fn, db, tags, 1) == db1 by { assert StoreAt(fn, db, tags, 0) == db; }
      TagByTag(fn, Children(tags[0]) + k - 1, db1, tags[1..]);
      ReadOne(fn, db, tags, t, WalkTags(fn, Children(tags[0]) + k - 1, db1, tags[1..]));
    }
  }

  lemma Join<T>(a: seq<T>, b: seq<T>, c: seq<T>)
    ensures a + (b + c) == a + b + c
  {
  }

  // ---- the procedure ----

  /** What mpack_reader_t and mpack_writer_t are to the walk. A read past the end fails and
      leaves the reader at the end. */
  class Reader {
    var rest: seq<Tag>

    constructor (tags: seq<Tag>)
      ensures rest == tags
    {
      rest := tags;
    }

    method ReadTag() returns (r: Option<Tag>)
      modifies this
      ensures old(rest) == [] ==> r == None && rest == []
      ensures old(rest) != [] ==> r == Some(old(rest)[0]) && rest == old(rest)[1..]
    {
      if rest == [] {
        return None;
      }
      r := Some(rest[0]);
      rest := rest[1..];
    }
  }

  class Writer {
    var out: seq<Tag>

    constructor ()
      ensures out == []
    {
      out := [];
    }

    method Write(t: Tag)
      modifies this
      ensures out == old(out) + [t]
    {
      out := out + [t];
    }
  }

  /** The function pointer passed down the walk. */
  datatype Mode = Masking(model: Model, names: seq<string>) | Restoring

  predicate ModeOk(mode: Mode) {
    mode.Masking? ==> |mode.names| == Decoder.N_MOVES
  }

  function Fn(mode: Mode, corr: string): Rewriter
    requires ModeOk(mode)
  {
    match mode
    case Masking(model, names) => MaskFn(model, names, corr)
    case Restoring => RestoreFn(corr)
  }

  /** A text the function pointer can be called with: mask_string minds its buffer, restore_string
      leaves that to the text. */
  predicate RoomFor(mode: Mode, corr: string, db: Db, s: string) {
    mode.Restoring? ==> HasRoom(db, corr, s, 0, MAX_MASKED)
  }

  /** fn(g_str_buf, out, sizeof(out), corr), with the 64 KiB buffer of the walk. */
  method RewriteString(store: TokenStore, mode: Mode, corr: string, s: string) returns (t: string)
    requires ModeOk(mode) && IsCString(s) && RoomFor(mode, corr, store.db, s)
    modifies store
    ensures (store.db, t) == Fn(mode, corr)(old(store.db), s)
  {
    hide MaskInto, RestoreInto, Patches, HasRoom;
    var out := new char[MAX_MASKED](_ => NUL);
    var n: nat;
    match mode {
      case Masking(model, names) =>
        n := MaskString(store, model, names, s, out, MAX_MASKED, corr);
      case Restoring =>
        n := RestoreString(store, s, out, MAX_MASKED, corr);
    }
    t := out[..n];
  }

  /** Every text the walk of k values comes to can be rewritten in the buffer. */
  predicate AllRoom(mode: Mode, corr: string, k: nat, db: Db, tags: seq<Tag>)
    requires ModeOk(mode)
    decreases |tags|
  {
    k == 0 || tags == [] || (
      && (tags[0].Str? ==> RoomFor(mode, corr, db, Buffered(tags[0].s)))
      && AllRoom(mode, corr, Children(tags[0]) + k - 1, One(Fn(mode, corr), db, tags[0]).0, tags[1..]))
  }

  /** Room for j + k values is room for j, then for k more from where those stop. */
  lemma {:induction false} RoomSplit(mode: Mode, corr: string, j: nat, k: nat, db: Db, tags: seq<Tag>)
    requires ModeOk(mode)
    ensures
      var r := WalkTags(Fn(mode, corr), j, db, tags);
      AllRoom(mode, corr, j + k, db, tags) <==> AllRoom(mode, corr, j, db, tags) && AllRoom(mode, corr, k, r.db, r.rest)
    decreases |tags|
  {
    hide One, Children, RoomFor, Fn, Buffered;
    if j > 0 && tags != [] {
      RoomSplit(mode, corr, Children(tags[0]) + j - 1, k, One(Fn(mode, corr), db, tags[0]).0, tags[1..]);
    }
  }

  /** walk_and_rewrite: read one value, write one value. */
  method WalkAndRewrite(r: Reader, w: Writer, store: TokenStore, mode: Mode, corr: string)
    requires ModeOk(mode) && AllRoom(mode, corr, 1, store.db, r.rest)
    modifies r, w, store
    ensures Outcome(store.db, w.out, r.rest)
         == After(old(w.out), WalkTags(Fn(mode, corr), 1, old(store.db), old(r.rest)))
    decreases |r.rest|, 1, 0
  {
    ghost var fn := Fn(mode, corr);
    OneRoom(mode, corr, store.db, r.rest);
    OneWalk(fn, w.out, store.db, r.rest);
    hide Fn, RoomFor, WalkTags, AllRoom, After;
    var tag := r.ReadTag();
    match tag {
      case None =>
      case Some(t) =>
        match t {
          case Str(s) =>
            var u := RewriteString(store, mode, corr, Buffered(s));
            w.Write(Str(u));
          case Array(n) =>
            w.Write(t);
            WalkMany(r, w, store, mode, corr, n);
          case Map(n) =>
            w.Write(t);
            WalkMany(r, w, store, mode, corr, 2 * n);
          case Raw =>
            w.Write(Nil);
          case _ =>
            w.Write(t);
        }
    }
  }

  /** What one tag takes and gives. */
  lemma OneWalk(fn: Rewriter, out: seq<Tag>, db: Db, tags: seq<Tag>)
    ensures tags == [] ==> After(out, WalkTags(fn, 1, db, tags)) == Outcome(db, out, [])
    ensures tags != [] ==>
      var (db1, u) := One(fn, db, tags[0]);
      && After(out, WalkTags(fn, 1, db, tags))
        == After(out + [u], WalkTags(fn, Children(tags[0]), db1, tags[1..]))
      && After(out + [u], WalkTags(fn, 0, db1, tags[1..])) == Outcome(db1, out + [u], tags[1..])
  {
    hide One, Children;
    if tags != [] {
      var (db1, u) := One(fn, db, tags[0]);
      Join(out, [u], WalkTags(fn, Children(tags[0]), db1, tags[1..]).out);
    }
  }

  lemma OneRoom(mode: Mode, corr: string, db: Db, tags: seq<Tag>)
    requires ModeOk(mode) && AllRoom(mode, corr, 1, db, tags)
    ensures tags != [] ==>
      && (tags[0].Str? ==> RoomFor(mode, corr, db, Buffered(tags[0].s)))
      && AllRoom(mode, corr, Children(tags[0]), One(Fn(mode, corr), db, tags[0]).0, tags[1..])
  {
    hide One, Children, RoomFor, Fn, Buffered;
  }

  /** The loops over the elements of an array, and over the keys and values of a map. */
  method WalkMany(r: Reader, w: Writer, store: TokenStore, mode: Mode, corr: string, count: nat)
    requires ModeOk(mode) && AllRoom(mode, corr, count, store.db, r.rest)
    modifies r, w, store
    ensures Outcome(store.db, w.out, r.rest)
         == After(old(w.out), WalkTags(Fn(mode, corr), count, old(store.db), old(r.rest)))
    decreases |r.rest|, 2, count
  {
    hide Fn, WalkTags, AllRoom;
    ghost var fn := Fn(mode, corr);
    var i := 0;
    while i < count
      invariant 0 <= i <= count && |r.rest| <= |old(r.rest)|
      invariant AllRoom(mode, corr, count - i, store.db, r.rest)
      invariant After(w.out, WalkTags(fn, count - i, store.db, r.rest))
             == After(old(w.out), WalkTags(fn, count, old(store.db), old(r.rest)))
    {
      WalkNext(fn, count - i, w.out, store.db, r.rest);
      RoomSplit(mode, corr, 1, count - i - 1, store.db, r.rest);
      ghost var one := WalkTags(fn, 1, store.db, r.rest);
      WalkAndRewrite(r, w, store, mode, corr);
      assert r.rest == one.rest && store.db == one.db;
      i := i + 1;
    }
    WalkNone(fn, w.out, store.db, r.rest);
  }

  lemma WalkNext(fn: Rewriter, k: nat, out: seq<Tag>, db: Db, tags: seq<Tag>)
    requires k > 0
    ensures
      var one := WalkTags(fn, 1, db, tags);
      After(out, WalkTags(fn, k, db, tags)) == After(out + one.out, WalkTags(fn, k - 1, one.db, one.rest))
  {
    WalkSplit(fn, 1, k - 1, db, tags);
    var one := WalkTags(fn, 1, db, tags);
    Join(out, one.out, WalkTags(fn, k - 1, one.db, one.rest).out);
  }

  lemma WalkNone(fn: Rewriter, out: seq<Tag>, db: Db, tags: seq<Tag>)
    ensures After(out, WalkTags(fn, 0, db, tags)) == Outcome(db, out, tags)
  {
    assert out + [] == out;
  }

  predicate ShortStrings(tags: seq<Tag>) {
    forall i :: 0 <= i < |tags| && tags[i].Str? ==> |tags[i].s| < MAX_MASKED
  }

  /** A restoring walk stays inside its buffer exactly when every string it writes is shorter than
      the 64 KiB of the buffer. */
  lemma {:induction false} WalkRoomExactly(corr: string, k: nat, db: Db, tags: seq<Tag>)
    ensures AllRoom(Restoring, corr, k, db, tags) <==> ShortStrings(WalkTags(RestoreFn(corr), k, db, tags).out)
    decreases |tags|
  {
    hide Buffered, RestoreInto, HasRoom;
    if k > 0 && tags != [] {
      var (db1, t) := One(RestoreFn(corr), db, tags[0]);
      if tags[0].Str? { RoomExactly(db, corr, Buffered(tags[0].s), MAX_MASKED); }
      assert One(Fn(Restoring, corr), db, tags[0]) == (db1, t);
      var later := WalkTags(RestoreFn(corr), Children(tags[0]) + k - 1, db1, tags[1..]).out;
      WalkRoomExactly(corr, Children(tags[0]) + k - 1, db1, tags[1..]);
      hide WalkTags, AllRoom, RestoreFn, One;
      ShortHead(t, later);
    }
  }

  lemma ShortHead(t: Tag, later: seq<Tag>)
    ensures ShortStrings([t] + later) <==> (t.Str? ==> |t.s| < MAX_MASKED) && ShortStrings(later)
  {
    assert ([t] + later)[1..] == later && ([t] + later)[0] == t;
    if ShortStrings([t] + later) {
      forall i | 0 <= i < |later| && later[i].Str? ensures |later[i].s| < MAX_MASKED {
        assert later[i] == ([t] + later)[i + 1];
      }
    }
  }

  lemma ShortJoin(a: seq<Tag>, b: seq<Tag>)
    requires ShortStrings(a) && ShortStrings(b)
    ensures ShortStrings(a + b)
  {
  }

  /** A binary or extension value is lost: nil is written for it. */
  lemma RawLost(fn: Rewriter, db: Db, tail: seq<Tag>)
    ensures WalkTags(fn, 1, db, [Raw] + tail) == Outcome(db, [Nil], tail)
  {
    assert ([Raw] + tail)[1..] == tail;
  }

  // ---- documents ----

  /** A document. A map is the list of its keys and values, in turn. */
  datatype Value =
    | Scalar(t: Tag)
    | Text(s: string)
    | Arr(items: seq<Value>)
    | Dict(items: seq<Value>)

  predicate WellFormed(v: Value) {
    match v
    case Scalar(t) => !t.Str? && !t.Array? && !t.Map? && !t.Raw?
    case Text(_) => true
    case Arr(items) => forall i :: 0 <= i < |items| ==> WellFormed(items[i])
    case Dict(items) => |items| % 2 == 0 && forall i :: 0 <= i < |items| ==> WellFormed(items[i])
  }

  predicate AllWellFormed(vs: seq<Value>) {
    forall i :: 0 <= i < |vs| ==> WellFormed(vs[i])
  }

  /** The tags of a document. */
  function Flatten(v: Value): seq<Tag>
    decreases v, 0
  {
    match v
    case Scalar(t) => [t]
    case Text(s) => [Str(s)]
    case Arr(items) => [Array(|items|)] + FlattenAll(items)
    case Dict(items) => [Map(|items| / 2)] + FlattenAll(items)
  }

  function FlattenAll(vs: seq<Value>): seq<Tag>
    decreases vs, 1
  {
    if vs == [] then [] else Flatten(vs[0]) + FlattenAll(vs[1..])
  }

  /** The document with every string rewritten, left to right, the token map threaded through. */
  function Rewrite(fn: Rewriter, db: Db, v: Value): (Db, Value)
    decreases v, 0
  {
    match v
    case Scalar(_) => (db, v)
    case Text(s) => var (db1, t) := fn(db, Buffered(s)); (db1, Text(t))
    case Arr(items) => var (db1, vs) := RewriteAll(fn, db, items); (db1, Arr(vs))
    case Dict(items) => var (db1, vs) := RewriteAll(fn, db, items); (db1, Dict(vs))
  }

  function RewriteAll(fn: Rewriter, db: Db, vs: seq<Value>): (r: (Db, seq<Value>))
    ensures |r.1| == |vs|
    decreases vs, 1
  {
    if vs == [] then (db, [])
    else
      var (db1, v) := Rewrite(fn, db, vs[0]);
      var (db2, rest) := RewriteAll(fn, db1, vs[1..]);
      (db2, [v] + rest)
  }

  /** Same tree, same scalars; only texts may differ. */
  predicate SameShape(v: Value, w: Value) {
    match v
    case Scalar(_) => v == w
    case Text(_) => w.Text?
    case Arr(items) =>
      w.Arr? && |items| == |w.items| && forall i :: 0 <= i < |items| ==> SameShape(items[i], w.items[i])
    case Dict(items) =>
      w.Dict? && |items| == |w.items| && forall i :: 0 <= i < |items| ==> SameShape(items[i], w.items[i])
  }

  /** Walking the tags of some documents, with more tags behind them, consumes exactly those
      documents and writes exactly their rewritten forms. */
  lemma {:induction false} WalkDocuments(fn: Rewriter, k: nat, db: Db, vs: seq<Value>, tail: seq<Tag>)
    requires AllWellFormed(vs)
    ensures
      var (db', ws) := RewriteAll(fn, db, vs);
      WalkTags(fn, |vs| + k, db, FlattenAll(vs) + tail) == After(FlattenAll(ws), WalkTags(fn, k, db', tail))
    decreases vs, 1
  {
    DocsUnfold(fn, k, db, vs, tail);
    hide *;
    if vs != [] {
      var v, rest := vs[0], vs[1..];
      var (db1, w) := Rewrite(fn, db, v);
      var (db2, ws) := RewriteAll(fn, db1, rest);
      WalkOne(fn, |rest| + k, db, v, FlattenAll(rest) + tail);
      WalkDocuments(fn, k, db1, rest, tail);
      AfterBoth(Flatten(w), FlattenAll(ws), WalkTags(fn, k, db2, tail));
    }
  }

  /** Documents taken apart into the first and the others, before and after rewriting. */
  lemma DocsUnfold(fn: Rewriter, k: nat, db: Db, vs: seq<Value>, tail: seq<Tag>)
    requires AllWellFormed(vs)
    ensures vs == [] ==>
      && RewriteAll(fn, db, vs) == (db, []) && FlattenAll(vs) + tail == tail
      && After(FlattenAll([]), WalkTags(fn, k, db, tail)) == WalkTags(fn, k, db, tail)
    ensures vs != [] ==>
      && WellFormed(vs[0]) && AllWellFormed(vs[1..])
      && FlattenAll(vs) + tail == Flatten(vs[0]) + (FlattenAll(vs[1..]) + tail)
      && var (db1, w) := Rewrite(fn, db, vs[0]);
      var (db2, ws) := RewriteAll(fn, db1, vs[1..]);
      RewriteAll(fn, db, vs) == (db2, [w] + ws) && FlattenAll([w] + ws) == Flatten(w) + FlattenAll(ws)
  {
    hide WalkTags, Rewrite, Flatten;
    if vs == [] {
      assert [] + WalkTags(fn, k, db, tail).out == WalkTags(fn, k, db, tail).out;
    } else {
      var (db1, w) := Rewrite(fn, db, vs[0]);
      var ws := RewriteAll(fn, db1, vs[1..]).1;
      assert ([w] + ws)[0] == w && ([w] + ws)[1..] == ws;
    }
  }

  lemma AfterBoth(a: seq<Tag>, b: seq<Tag>, r: Outcome)
    ensures After(a, After(b, r)) == After(a + b, r)
  {
    Join(a, b, r.out);
  }

  lemma {:induction false} WalkOne(fn: Rewriter, k: nat, db: Db, v: Value, tail: seq<Tag>)
    requires WellFormed(v)
    ensures
      var (db', w) := Rewrite(fn, db, v);
      WalkTags(fn, 1 + k, db, Flatten(v) + tail) == After(Flatten(w), WalkTags(fn, k, db', tail))
    decreases v, 1
  {
    match v
    case Scalar(t) =>
      assert (Flatten(v) + tail)[0] == t && (Flatten(v) + tail)[1..] == tail;
    case Text(s) =>
      assert (Flatten(v) + tail)[0] == Str(s) && (Flatten(v) + tail)[1..] == tail;
    case Arr(items) => WalkItems(fn, k, db, Array(|items|), items, tail);
    case Dict(items) => WalkItems(fn, k, db, Map(|items| / 2), items, tail);
  }

  /** A tag that announces its items, and the items. */
  lemma {:induction false} WalkItems(fn: Rewriter, k: nat, db: Db, head: Tag, items: seq<Value>, tail: seq<Tag>)
    requires AllWellFormed(items) && (head.Array? || head.Map?) && Children(head) == |items|
    ensures
      var (db', ws) := RewriteAll(fn, db, items);
      WalkTags(fn, 1 + k, db, [head] + FlattenAll(items) + tail)
        == After([head] + FlattenAll(ws), WalkTags(fn, k, db', tail))
    decreases items, 2
  {
    var tags := [head] + FlattenAll(items) + tail;
    assert tags[0] == head && tags[1..] == FlattenAll(items) + tail;
    WalkDocuments(fn, k, db, items, tail);
    var (db1, ws) := RewriteAll(fn, db, items);
    Join([head], FlattenAll(ws), WalkTags(fn, k, db1, tail).out);
  }

  /** One call of the walk on a document: all of it is read, nothing behind it is, and one
      document of the same shape is written. */
  lemma WalkWhole(fn: Rewriter, db: Db, v: Value, tail: seq<Tag>)
    requires WellFormed(v)
    ensures
      var (db', w) := Rewrite(fn, db, v);
      && WalkTags(fn, 1, db, Flatten(v) + tail) == Outcome(db', Flatten(w), tail)
      && SameShape(v, w) && WellFormed(w)
  {
    WalkOne(fn, 0, db, v, tail);
    RewriteShape(fn, db, v);
    var (db', w) := Rewrite(fn, db, v);
    assert Flatten(w) + [] == Flatten(w);
  }

  lemma {:induction false} RewriteShape(fn: Rewriter, db: Db, v: Value)
    requires WellFormed(v)
    ensures SameShape(v, Rewrite(fn, db, v).1) && WellFormed(Rewrite(fn, db, v).1)
    decreases v, 1
  {
    match v
    case Scalar(_) =>
    case Text(_) =>
    case Arr(items) => RewriteShapes(fn, db, items);
    case Dict(items) => RewriteShapes(fn, db, items);
  }

  lemma {:induction false} RewriteShapes(fn: Rewriter, db: Db, vs: seq<Value>)
    requires AllWellFormed(vs)
    ensures
      var ws := RewriteAll(fn, db, vs).1;
      AllWellFormed(ws) && forall i :: 0 <= i < |vs| ==> SameShape(vs[i], ws[i])
    decreases vs
  {
    if vs != [] {
      RewriteShape(fn, db, vs[0]);
      var (db1, w) := Rewrite(fn, db, vs[0]);
      RewriteShapes(fn, db1, vs[1..]);
      var ws := RewriteAll(fn, db, vs).1;
      forall i | 0 <= i < |vs| ensures SameShape(vs[i], ws[i]) && WellFormed(ws[i]) {
        if i > 0 { assert vs[i] == vs[1..][i - 1]; }
      }
    }
  }

  // ---- round trip ----

  function Entities(model: Model, names: seq<string>, v: Value): nat
    requires |names| == Decoder.N_MOVES
    decreases v, 0
  {
    match v
    case Scalar(_) => 0
    case Text(s) => |Patches(model, names, s)|
    case Arr(items) => EntitiesAll(model, names, items)
    case Dict(items) => EntitiesAll(model, names, items)
  }

  function EntitiesAll(model: Model, names: seq<string>, vs: seq<Value>): nat
    requires |names| == Decoder.N_MOVES
    decreases vs, 1
  {
    if vs == [] then 0 else Entities(model, names, vs[0]) + EntitiesAll(model, names, vs[1..])
  }

  /** Every text of the document is a C string whose entities can be brought back, that fits
      the buffers, and that holds no placeholder known when it is restored. */
  ghost predicate TextsOk(corr: string, texts: iset<string>, model: Model, names: seq<string>, later: Db, v: Value)
    requires |names| == Decoder.N_MOVES
    decreases v, 0
  {
    match v
    case Scalar(_) => true
    case Text(s) =>
      && IsCString(s)
      && AllRestorable(texts, s, Patches(model, names, s))
      && |s| + 29 * |Patches(model, names, s)| + 1 < MAX_MASKED
      && Clean(later, corr, s)
    case Arr(items) => AllTextsOk(corr, texts, model, names, later, items)
    case Dict(items) => AllTextsOk(corr, texts, model, names, later, items)
  }

  ghost predicate AllTextsOk(
    corr: string, texts: iset<string>, model: Model, names: seq<string>, later: Db, vs: seq<Value>)
    requires |names| == Decoder.N_MOVES
    decreases vs, 1
  {
    vs == [] ||
    (TextsOk(corr, texts, model, names, later, vs[0]) && AllTextsOk(corr, texts, model, names, later, vs[1..]))
  }

  /** Placeholders issued once the documents are masked. */
  ghost function IssuedByDoc(
    db: Db, corr: string, issued: seq<Issue>, model: Model, names: seq<string>, v: Value): seq<Issue>
    requires |names| == Decoder.N_MOVES
    decreases v, 0
  {
    match v
    case Scalar(_) => issued
    case Text(s) => IssuedBy(db, corr, issued, model, names, Buffered(s))
    case Arr(items) => IssuedByAll(db, corr, issued, model, names, items)
    case Dict(items) => IssuedByAll(db, corr, issued, model, names, items)
  }

  ghost function IssuedByAll(
    db: Db, corr: string, issued: seq<Issue>, model: Model, names: seq<string>, vs: seq<Value>): seq<Issue>
    requires |names| == Decoder.N_MOVES
    decreases vs, 1
  {
    if vs == [] then issued
    else
      IssuedByAll(Rewrite(MaskFn(model, names, corr), db, vs[0]).0, corr,
        IssuedByDoc(db, corr, issued, model, names, vs[0]), model, names, vs[1..])
  }

  lemma BufferedWhole(s: string)
    requires IsCString(s) && |s| <= MAX_MASKED
    ensures Buffered(s) == s
  {
  }

  /** One text of a document: what it issues, and that it comes back. */
  lemma TextRoundTrip(
    db: Db, corr: string, texts: iset<string>, issued: seq<Issue>, model: Model, names: seq<string>, s: string,
    later: Db, issuedLater: seq<Issue>)
    requires |names| == Decoder.N_MOVES && Good(db, corr, issued, texts)
    requires TextsOk(corr, texts, model, names, later, Text(s))
    requires |issued| + |Patches(model, names, s)| <= 10000 && Issued(later, corr, issuedLater)
    requires IssuedBy(db, corr, issued, model, names, s) <= issuedLater
    ensures RestoreFn(corr)(later, Buffered(MaskFn(model, names, corr)(db, Buffered(s)).1)) == (later, s)
  {
    hide Good, Issued, Clean, MaskInto, RestoreInto, Patches, AllMaskable, AllShort, Buffered, IssuedBy, IsCString;
    BufferedWhole(s);
    var t := MaskInto(db, corr, s, Patches(model, names, s), MAX_MASKED).1;
    MaskedFitsBuffer(db, corr, texts, issued, model, names, s, MAX_MASKED);
    BufferedWhole(t);
    MaskRestoreIdentity(db, corr, texts, issued, model, names, s, MAX_MASKED, later, issuedLater);
  }

  /** Masking one text keeps the token map good and issues no more than its entities. */
  lemma TextIssues(
    db: Db, corr: string, texts: iset<string>, issued: seq<Issue>, model: Model, names: seq<string>, s: string,
    later: Db)
    requires |names| == Decoder.N_MOVES && Good(db, corr, issued, texts)
    requires TextsOk(corr, texts, model, names, later, Text(s))
    requires |issued| + |Patches(model, names, s)| <= 10000
    ensures
      var issued' := IssuedByDoc(db, corr, issued, model, names, Text(s));
      && Good(Rewrite(MaskFn(model, names, corr), db, Text(s)).0, corr, issued', texts)
      && issued <= issued' && |issued'| <= |issued| + |Patches(model, names, s)|
  {
    hide Good, Clean, MaskInto, Patches, AllMaskable, AllShort, IssuesAfter, Buffered, IsCString;
    BufferedWhole(s);
    IssuesGrow(db, corr, issued, s, Patches(model, names, s));
    MaskKeepsGood(db, corr, texts, issued, model, names, s, MAX_MASKED);
  }

  lemma {:induction false} DocIssues(
    db: Db, corr: string, texts: iset<string>, issued: seq<Issue>, model: Model, names: seq<string>, v: Value,
    later: Db)
    requires |names| == Decoder.N_MOVES && Good(db, corr, issued, texts)
    requires TextsOk(corr, texts, model, names, later, v)
    requires |issued| + Entities(model, names, v) <= 10000
    ensures
      var issued' := IssuedByDoc(db, corr, issued, model, names, v);
      && Good(Rewrite(MaskFn(model, names, corr), db, v).0, corr, issued', texts)
      && issued <= issued' && |issued'| <= |issued| + Entities(model, names, v)
    decreases v, 1
  {
    hide Good, MaskFn, Patches;
    match v
    case Scalar(_) =>
    case Text(s) => TextIssues(db, corr, texts, issued, model, names, s, later);
    case Arr(items) => DocsIssue(db, corr, texts, issued, model, names, items, later);
    case Dict(items) => DocsIssue(db, corr, texts, issued, model, names, items, later);
  }

  lemma {:induction false} DocsIssue(
    db: Db, corr: string, texts: iset<string>, issued: seq<Issue>, model: Model, names: seq<string>,
    vs: seq<Value>, later: Db)
    requires |names| == Decoder.N_MOVES && Good(db, corr, issued, texts)
    requires AllTextsOk(corr, texts, model, names, later, vs)
    requires |issued| + EntitiesAll(model, names, vs) <= 10000
    ensures
      var issued' := IssuedByAll(db, corr, issued, model, names, vs);
      && Good(RewriteAll(MaskFn(model, names, corr), db, vs).0, corr, issued', texts)
      && issued <= issued' && |issued'| <= |issued| + EntitiesAll(model, names, vs)
    decreases vs
  {
    hide Good, MaskFn, TextsOk, IssuedByDoc, Entities, Rewrite;
    if vs != [] {
      DocIssues(db, corr, texts, issued, model, names, vs[0], later);
      DocsIssue(Rewrite(MaskFn(model, names, corr), db, vs[0]).0, corr, texts,
        IssuedByDoc(db, corr, issued, model, names, vs[0]), model, names, vs[1..], later);
    }
  }

  /** Masking a whole document and restoring it in any later state of the token map gives
      back the document, whatever its tree of maps, arrays and scalars. */
  lemma {:induction false} DocumentRoundTrip(
    db: Db, corr: string, texts: iset<string>, issued: seq<Issue>, model: Model, names: seq<string>, v: Value,
    later: Db, issuedLater: seq<Issue>)
    requires |names| == Decoder.N_MOVES && WellFormed(v)
    requires Good(db, corr, issued, texts) && TextsOk(corr, texts, model, names, later, v)
    requires |issued| + Entities(model, names, v) <= 10000
    requires Issued(later, corr, issuedLater) && IssuedByDoc(db, corr, issued, model, names, v) <= issuedLater
    ensures
      var masked := Rewrite(MaskFn(model, names, corr), db, v).1;
      Rewrite(RestoreFn(corr), later, masked) == (later, v)
    decreases v, 1
  {
    hide Good, Issued, MaskFn, RestoreFn, Patches, IssuedBy, Buffered;
    match v
    case Scalar(_) =>
    case Text(s) =>
      BufferedWhole(s);
      TextRoundTrip(db, corr, texts, issued, model, names, s, later, issuedLater);
    case Arr(items) => DocumentsRoundTrip(db, corr, texts, issued, model, names, items, later, issuedLater);
    case Dict(items) => DocumentsRoundTrip(db, corr, texts, issued, model, names, items, later, issuedLater);
  }

  lemma {:induction false} DocumentsRoundTrip(
    db: Db, corr: string, texts: iset<string>, issued: seq<Issue>, model: Model, names: seq<string>,
    vs: seq<Value>, later: Db, issuedLater: seq<Issue>)
    requires |names| == Decoder.N_MOVES && AllWellFormed(vs)
    requires Good(db, corr, issued, texts) && AllTextsOk(corr, texts, model, names, later, vs)
    requires |issued| + EntitiesAll(model, names, vs) <= 10000
    requires Issued(later, corr, issuedLater) && IssuedByAll(db, corr, issued, model, names, vs) <= issuedLater
    ensures RewriteAll(RestoreFn(corr), later, RewriteAll(MaskFn(model, names, corr), db, vs).1) == (later, vs)
    decreases vs
  {
    hide Good, Issued, MaskFn, RestoreFn, TextsOk, IssuedByDoc, Entities, Rewrite;
    if vs != [] {
      var v, rest := vs[0], vs[1..];
      var (db1, w) := Rewrite(MaskFn(model, names, corr), db, v);
      var issued1 := IssuedByDoc(db, corr, issued, model, names, v);
      DocIssues(db, corr, texts, issued, model, names, v, later);
      DocsIssue(db1, corr, texts, issued1, model, names, rest, later);
      DocumentRoundTrip(db, corr, texts, issued, model, names, v, later, issuedLater);
      DocumentsRoundTrip(db1, corr, texts, issued1, model, names, rest, later, issuedLater);
      var ws := RewriteAll(MaskFn(model, names, corr), db1, rest).1;
      assert RewriteAll(MaskFn(model, names, corr), db, vs).1 == [w] + ws;
      assert ([w] + ws)[0] == w && ([w] + ws)[1..] == ws;
      assert RewriteAll(RestoreFn(corr), later, [w] + ws) == (later, [v] + rest);
      assert [v] + rest == vs;
    } else {
      assert RewriteAll(RestoreFn(corr), later, []) == (later, []);
    }
  }

  lemma {:induction false} DocShort(
    corr: string, texts: iset<string>, model: Model, names: seq<string>, later: Db, v: Value)
    requires |names| == Decoder.N_MOVES && WellFormed(v) && TextsOk(corr, texts, model, names, later, v)
    ensures ShortStrings(Flatten(v))
    decreases v, 1
  {
    hide Patches, AllMaskable, AllShort, Clean, IsCString;
    match v
    case Scalar(_) =>
    case Text(_) =>
    case Arr(items) =>
      DocsShort(corr, texts, model, names, later, items);
      ShortHead(Array(|items|), FlattenAll(items));
    case Dict(items) =>
      DocsShort(corr, texts, model, names, later, items);
      ShortHead(Map(|items| / 2), FlattenAll(items));
  }

  lemma {:induction false} DocsShort(
    corr: string, texts: iset<string>, model: Model, names: seq<string>, later: Db, vs: seq<Value>)
    requires |names| == Decoder.N_MOVES && AllWellFormed(vs) && AllTextsOk(corr, texts, model, names, later, vs)
    ensures ShortStrings(FlattenAll(vs))
    decreases vs
  {
    hide TextsOk, Flatten;
    if vs != [] {
      DocShort(corr, texts, model, names, later, vs[0]);
      DocsShort(corr, texts, model, names, later, vs[1..]);
      ShortJoin(Flatten(vs[0]), FlattenAll(vs[1..]));
    }
  }

  /** The two programs end to end, on the tags of a message: what the restoring walk writes
      from the tags the masking walk wrote is the original message, both read all of it, and the
      restoring walk stays inside its buffer. */
  lemma MessageRoundTrip(
    db: Db, corr: string, texts: iset<string>, issued: seq<Issue>, model: Model, names: seq<string>, v: Value,
    later: Db, issuedLater: seq<Issue>)
    requires |names| == Decoder.N_MOVES && WellFormed(v)
    requires Good(db, corr, issued, texts) && TextsOk(corr, texts, model, names, later, v)
    requires |issued| + Entities(model, names, v) <= 10000
    requires Issued(later, corr, issuedLater) && IssuedByDoc(db, corr, issued, model, names, v) <= issuedLater
    ensures
      var masked := WalkTags(Fn(Masking(model, names), corr), 1, db, Flatten(v));
      && masked.rest == []
      && WalkTags(Fn(Restoring, corr), 1, later, masked.out) == Outcome(later, Flatten(v), [])
      && AllRoom(Restoring, corr, 1, later, masked.out)
  {
    DocShort(corr, texts, model, names, later, v);
    hide WellFormed, Good, TextsOk, Entities, Issued, IssuedByDoc, Rewrite, WalkTags, Flatten, MaskFn, RestoreFn;
    DocumentRoundTrip(db, corr, texts, issued, model, names, v, later, issuedLater);
    assert Fn(Masking(model, names), corr) == MaskFn(model, names, corr) && Fn(Restoring, corr) == RestoreFn(corr);
    hide *;
    TwoWalks(MaskFn(model, names, corr), RestoreFn(corr), db, later, v);
    WalkRoomExactly(corr, 1, later, WalkTags(MaskFn(model, names, corr), 1, db, Flatten(v)).out);
  }

  lemma TwoWalks(f: Rewriter, g: Rewriter, db: Db, later: Db, v: Value)
    requires WellFormed(v) && Rewrite(g, later, Rewrite(f, db, v).1) == (later, v)
    ensures
      var masked := WalkTags(f, 1, db, Flatten(v));
      masked.rest == [] && WalkTags(g, 1, later, masked.out) == Outcome(later, Flatten(v), [])
  {
    hide Rewrite, WalkTags, Flatten, SameShape, WellFormed;
    WalkWhole(f, db, v, []);
    var w := Rewrite(f, db, v).1;
    assert Flatten(v) + [] == Flatten(v) && Flatten(w) + [] == Flatten(w);
    WalkWhole(g, later, w, []);
  }

  // ---- from an empty map ----

  /** What can be checked of a document without any token map. */
  ghost predicate DocOk(texts: iset<string>, model: Model, names: seq<string>, v: Value)
    requires |names| == Decoder.N_MOVES
    decreases v, 0
  {
    match v
    case Scalar(_) => true
    case Text(s) => IsCString(s) && TextOk(texts, model, names, s, MAX_MASKED)
    case Arr(items) => AllDocsOk(texts, model, names, items)
    case Dict(items) => AllDocsOk(texts, model, names, items)
  }

  ghost predicate AllDocsOk(texts: iset<string>, model: Model, names: seq<string>, vs: seq<Value>)
    requires |names| == Decoder.N_MOVES
    decreases vs, 1
  {
    vs == [] || (DocOk(texts, model, names, vs[0]) && AllDocsOk(texts, model, names, vs[1..]))
  }

  lemma {:induction false} DocOkLater(
    corr: string, texts: iset<string>, model: Model, names: seq<string>, v: Value, later: Db)
    requires |names| == Decoder.N_MOVES && DocOk(texts, model, names, v)
    ensures TextsOk(corr, texts, model, names, later, v)
    decreases v, 0
  {
    hide Patches, AllMaskable, AllShort, NoPlaceholder, Clean, IsCString;
    match v
    case Scalar(_) =>
    case Text(s) => NoneIsClean(later, corr, s);
    case Arr(items) => DocsOkLater(corr, texts, model, names, items, later);
    case Dict(items) => DocsOkLater(corr, texts, model, names, items, later);
  }

  lemma {:induction false} DocsOkLater(
    corr: string, texts: iset<string>, model: Model, names: seq<string>, vs: seq<Value>, later: Db)
    requires |names| == Decoder.N_MOVES && AllDocsOk(texts, model, names, vs)
    ensures AllTextsOk(corr, texts, model, names, later, vs)
    decreases vs, 1
  {
    if vs != [] {
      DocOkLater(corr, texts, model, names, vs[0], later);
      DocsOkLater(corr, texts, model, names, vs[1..], later);
    }
  }

  /** The first message of a correlation: mask it with an empty token map, restore what was written
      with the map that leaves, and it is the original message, under conditions on the message alone. */
  lemma FirstMessageRoundTrip(corr: string, texts: iset<string>, model: Model, names: seq<string>, v: Value)
    requires |names| == Decoder.N_MOVES && GoodCorr(corr) && KeysTell(corr, texts) && WellFormed(v)
    requires DocOk(texts, model, names, v) && Entities(model, names, v) <= 10000
    ensures
      var masked := WalkTags(Fn(Masking(model, names), corr), 1, map[], Flatten(v));
      && WalkTags(Fn(Restoring, corr), 1, masked.db, masked.out) == Outcome(masked.db, Flatten(v), [])
      && AllRoom(Restoring, corr, 1, masked.db, masked.out)
  {
    var later := Rewrite(MaskFn(model, names, corr), map[], v).0;
    assert Fn(Masking(model, names), corr) == MaskFn(model, names, corr);
    hide *;
    EmptyGood(corr, texts);
    DocOkLater(corr, texts, model, names, v, later);
    DocIssues(map[], corr, texts, [], model, names, v, later);
    var issued := IssuedByDoc(map[], corr, [], model, names, v);
    GoodIs(later, corr, texts, issued);
    WalkWhole(MaskFn(model, names, corr), map[], v, []);
    assert Flatten(v) + [] == Flatten(v);
    MessageRoundTrip(map[], corr, texts, [], model, names, v, later, issued);
  }
}
