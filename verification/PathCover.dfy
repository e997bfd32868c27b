/** path_covered: is a path at or beneath an element of a colon-separated list? */
module PathCover {
  import opened Lists
  import opened Options

  /** What realpath answers: the resolved path, or nothing if it does not exist. */
  type Resolver = string -> Option<string>

  const LIST_MAX: nat := 4096

  function Resolve(disk: Resolver, path: string): string {
    match disk(path)
    case Some(p) => p
    case None => path
  }

  /** The textual test of one element. */
  predicate Covers(entry: string, target: string) {
    || entry == "/"
    || (|target| >= |entry| && target[..|entry|] == entry
        && (|target| == |entry| || target[|entry|] == '/'))
  }

  // ---- the list ----

  /** The elements of a list: between colons, leading spaces dropped, empty ones skipped. */
  function Elements(list: string): seq<string> {
    NonEmpty(Split(list, ':'))
  }

  function NonEmpty(ts: seq<string>): seq<string> {
    if ts == [] then []
    else (if DropLeading(ts[0], ' ') == "" then [] else [DropLeading(ts[0], ' ')]) + NonEmpty(ts[1..])
  }

  predicate SomeCovers(disk: Resolver, es: seq<string>, target: string) {
    exists e :: e in es && Covers(Resolve(disk, e), target)
  }

  /** path_covered, for a list that is set. */
  predicate PathCovered(disk: Resolver, path: string, list: string) {
    list != "" && |list| < LIST_MAX && SomeCovers(disk, Elements(list), Resolve(disk, path))
  }

  lemma SomeCoversStep(disk: Resolver, t: string, rest: seq<string>, target: string)
    ensures SomeCovers(disk, NonEmpty([t] + rest), target) <==>
      || (DropLeading(t, ' ') != "" && Covers(Resolve(disk, DropLeading(t, ' ')), target))
      || SomeCovers(disk, NonEmpty(rest), target)
  {
    hide Covers, Resolve, DropLeading;
    var es := NonEmpty(rest);
    assert ([t] + rest)[1..] == rest;
    if DropLeading(t, ' ') != "" {
      assert NonEmpty([t] + rest) == [DropLeading(t, ' ')] + es;
      assert forall e :: e in [DropLeading(t, ' ')] + es <==> e == DropLeading(t, ' ') || e in es;
    }
  }

  /** path_covered. strtok_r, which steps over runs of separators, is one scan per element here. */
  method PathCoveredBy(disk: Resolver, path: string, list: string) returns (r: bool)
    ensures r == PathCovered(disk, path, list)
  {
    if list == "" {
      return false;
    }
    var target := Resolve(disk, path);
    if |list| >= LIST_MAX {
      return false;
    }
    var rest := list;
    ghost var want := SomeCovers(disk, Elements(list), target);
    while true
      invariant SomeCovers(disk, NonEmpty(Split(rest, ':')), target) == want
      decreases |rest|
    {
      var j := FindNext(rest, ':');
      SplitStep(rest, ':', j);
      var t := rest[..j];
      assert rest[..|rest|] == rest;
      ghost var more := if j == |rest| then [] else Split(rest[j + 1..], ':');
      assert Split(rest, ':') == [t] + more;
      SomeCoversStep(disk, t, more, target);
      var e := SkipLeading(t, ' ');
      if e != "" && Covers(Resolve(disk, e), target) {
        return true;
      }
      if j == |rest| {
        assert NonEmpty(more) == [];
        return false;
      }
      rest := rest[j + 1..];
    }
  }

  // ---- what the textual test means ----

  predicate Component(c: string) {
    c != "" && '/' !in c
  }

  predicate Components(cs: seq<string>) {
    forall i :: 0 <= i < |cs| ==> Component(cs[i])
  }

  /** "/a/b" for [a, b]; nothing for []. */
  function Joined(cs: seq<string>): string {
    if cs == [] then "" else "/" + cs[0] + Joined(cs[1..])
  }

  /** The normalised absolute path of a component list. */
  function PathOf(cs: seq<string>): string {
    if cs == [] then "/" else Joined(cs)
  }

  lemma {:induction false} JoinedPrefix(cs: seq<string>, ds: seq<string>)
    requires cs <= ds
    ensures Joined(cs) <= Joined(ds)
    ensures Joined(ds) == Joined(cs) + Joined(ds[|cs|..])
  {
    if cs != [] {
      assert cs[0] == ds[0];
      JoinedPrefix(cs[1..], ds[1..]);
      assert ds[1..][|cs[1..]|..] == ds[|cs|..];
    } else {
      assert ds[0..] == ds;
    }
  }

  /** A joined path starts with its first component, up to the end or the next '/'. */
  lemma FirstComponent(c: string, x: string, d: string, y: string)
    requires Component(c) && Component(d)
    requires (x == "" || x[0] == '/') && (y == "" || y[0] == '/')
    requires c + x <= d + y && (|c + x| < |d + y| ==> (d + y)[|c + x|] == '/')
    ensures c == d && x <= y
  {
    var s, t := c + x, d + y;
    assert s[..|c|] == c && t[..|c|] == c && t[..|d|] == d;
    assert |c| < |s| ==> t[|c|] == s[|c|] == x[0];
    NextIs(t, '/', 0, |c|);
    NextIs(t, '/', 0, |d|);
    assert c == s[..|c|] && d == t[..|d|];
    assert x == s[|c|..] && y == t[|c|..];
  }

  lemma JoinedHead(cs: seq<string>)
    ensures Joined(cs) == "" || Joined(cs)[0] == '/'
  {
  }

  /** A textual prefix that ends at a '/' or at the end is a prefix of components. */
  lemma {:induction false} JoinedCovers(cs: seq<string>, ds: seq<string>)
    requires Components(cs) && Components(ds)
    requires Joined(cs) <= Joined(ds)
    requires |Joined(cs)| < |Joined(ds)| ==> Joined(ds)[|Joined(cs)|] == '/'
    ensures cs <= ds
  {
    JoinedUnfolds(cs);
    JoinedUnfolds(ds);
    hide *;
    if cs != [] {
      assert ds != [];
      var x, y := Joined(cs[1..]), Joined(ds[1..]);
      var s, t := cs[0] + x, ds[0] + y;
      assert s == Joined(cs)[1..] && t == Joined(ds)[1..];
      assert |s| < |t| ==> t[|s|] == Joined(ds)[|Joined(cs)|];
      FirstComponent(cs[0], x, ds[0], y);
      assert |x| < |y| ==> y[|x|] == t[|s|];
      JoinedCovers(cs[1..], ds[1..]);
      assert cs == [cs[0]] + cs[1..] && ds == [ds[0]] + ds[1..];
    }
  }

  lemma JoinedUnfolds(cs: seq<string>)
    requires Components(cs)
    ensures if cs == [] then Joined(cs) == "" else
      && Joined(cs) == "/" + (cs[0] + Joined(cs[1..])) && Component(cs[0]) && Components(cs[1..])
      && (Joined(cs[1..]) == "" || Joined(cs[1..])[0] == '/')
  {
    if cs != [] {
      JoinedHead(cs[1..]);
      assert "/" + cs[0] + Joined(cs[1..]) == "/" + (cs[0] + Joined(cs[1..]));
    }
  }

  /** On normalised absolute paths the textual test succeeds exactly when the element's
      components are a prefix of the target's: /tmp/ab is never covered by /tmp/a. */
  lemma CoversExactly(cs: seq<string>, ds: seq<string>)
    requires Components(cs) && Components(ds)
    ensures Covers(PathOf(cs), PathOf(ds)) <==> cs <= ds
  {
    if cs == [] {
    } else {
      assert |Joined(cs)| >= 2;
      if cs <= ds {
        JoinedPrefix(cs, ds);
        JoinedHead(ds[|cs|..]);
        assert |Joined(ds)| > |Joined(cs)| ==> Joined(ds)[|Joined(cs)|] == Joined(ds[|cs|..])[0];
      }
      if ds != [] && Covers(PathOf(cs), PathOf(ds)) {
        JoinedCovers(cs, ds);
      }
    }
  }

  /** Listing paths between colons, with any number of spaces before each, and reading the list back
      gives the paths. */
  lemma {:induction false} ListedElements(ps: seq<string>, pads: seq<nat>)
    requires ps != [] && |pads| == |ps|
    requires forall i :: 0 <= i < |ps| ==> ps[i] != "" && ps[i][0] == '/' && ':' !in ps[i]
    ensures Elements(JoinWith(Indented(ps, pads, ' '), ':')) == ps
  {
    IndentedClean(ps, pads, ' ', ':');
    SplitJoined(Indented(ps, pads, ' '), ':');
    AllKept(ps, pads);
  }

  lemma {:induction false} AllKept(ps: seq<string>, pads: seq<nat>)
    requires |pads| == |ps|
    requires forall i :: 0 <= i < |ps| ==> ps[i] != "" && ps[i][0] == '/'
    ensures NonEmpty(Indented(ps, pads, ' ')) == ps
  {
    if ps != [] {
      var xs := Indented(ps, pads, ' ');
      AllKept(ps[1..], pads[1..]);
      DropRun(pads[0], ' ', ps[0]);
      assert xs[0] == Run(' ', pads[0]) + ps[0] && xs[1..] == Indented(ps[1..], pads[1..], ' ');
      assert ps == [ps[0]] + ps[1..];
    }
  }

  /** What a path counts as: what realpath answers, or the path as given if it does not exist. */
  predicate CountsAs(disk: Resolver, path: string, seen: string) {
    disk(path) == Some(seen) || (disk(path) == None && path == seen)
  }

  /** The whole check, for paths that count as normalised absolute ones: true exactly when some element
      of the list names an ancestor of the target, or the target itself. */
  lemma CoveredExactly(disk: Resolver, path: string, list: string, ds: seq<string>, entries: seq<seq<string>>)
    requires Components(ds) && CountsAs(disk, path, PathOf(ds))
    requires |entries| == |Elements(list)|
    requires forall i :: 0 <= i < |entries| ==>
      Components(entries[i]) && CountsAs(disk, Elements(list)[i], PathOf(entries[i]))
    ensures PathCovered(disk, path, list) <==>
      list != "" && |list| < 4096 && exists i :: 0 <= i < |entries| && entries[i] <= ds
  {
    var es, t := Elements(list), PathOf(ds);
    assert Resolve(disk, path) == t;
    assert forall i :: 0 <= i < |es| ==> Resolve(disk, es[i]) == PathOf(entries[i]);
    hide Elements, PathOf, Covers, Resolve, CountsAs;
    forall i | 0 <= i < |es| ensures Covers(Resolve(disk, es[i]), t) <==> entries[i] <= ds {
      CoversExactly(entries[i], ds);
    }
    assert forall i :: 0 <= i < |es| ==> es[i] in es;
    if SomeCovers(disk, es, t) {
      var e :| e in es && Covers(Resolve(disk, e), t);
      var i :| 0 <= i < |es| && es[i] == e;
      assert entries[i] <= ds;
    }
    if i :| 0 <= i < |entries| && entries[i] <= ds {
      assert Covers(Resolve(disk, es[i]), t);
    }
  }
}
