/** The persistent token map: placeholders issued per correlation, kept in one
    key/value store shared by every mask and restore process. */
module TokenMap {
  import opened CText
  import opened Options

  type Db = map<string, string>

  /** Largest value of the C int that numbers placeholders. */
  const INT_MAX: nat := 0x7fff_ffff

  /** One placeholder handed out: the n-th issue of a correlation prints number n. */
  datatype Issue = Issue(text: string, lbl: string)

  // ---- keys and values, with the buffer sizes that truncate them ----

  function ForwardKey(corr: string, text: string): string {
    Take(corr + ":text:" + text, 511)
  }

  function CountKey(corr: string): string {
    Take(corr + ":__count__", 255)
  }

  function ReverseKey(corr: string, tok: string): string {
    Take(corr + ":tok:" + tok, 511)
  }

  /** tok_lookup prints the reverse key into a smaller buffer than the writer does. */
  function LookupKey(corr: string, tok: string): string {
    Take(corr + ":tok:" + tok, 255)
  }

  function ReverseValue(lbl: string, text: string): string {
    Take(lbl + ":" + text, 32799)
  }

  function Token(lbl: string, n: nat): string {
    Take("TOK_" + lbl + "_" + Padded(n), 31)
  }

  function AfterColon(v: string): string {
    if v == "" then v
    else if v[0] == ':' then v[1..]
    else var r := AfterColon(v[1..]); if ':' in v then r else v
  }

  // ---- transactions ----

  /** First transaction of get_or_create_tok: is there a placeholder already? */
  function Hit(db: Db, corr: string, text: string): Option<string> {
    var k := ForwardKey(corr, text);
    if k in db then Some(Take(db[k], 31)) else None
  }

  function Counter(db: Db, corr: string): nat {
    if CountKey(corr) in db then Atoi(Take(db[CountKey(corr)], 15)) else 0
  }

  /** Second transaction: number a new placeholder and store both directions.
      The forward key is not looked at again. */
  function Allocate(db: Db, corr: string, text: string, lbl: string): (r: (Db, string)) {
    var n := Counter(db, corr);
    var tok := Token(lbl, n);
    (db[CountKey(corr) := Decimal(n + 1)]
       [ForwardKey(corr, text) := tok]
       [ReverseKey(corr, tok) := ReverseValue(lbl, text)],
     tok)
  }

  function GetOrCreate(db: Db, corr: string, text: string, lbl: string): (Db, string) {
    match Hit(db, corr, text)
    case Some(tok) => (db, tok)
    case None => Allocate(db, corr, text, lbl)
  }

  /** tok_lookup: the text a placeholder stands for. The text buffer holds 32 KiB. */
  function Lookup(db: Db, corr: string, tok: string): Option<string> {
    var k := LookupKey(corr, tok);
    if k in db then Some(Take(AfterColon(db[k]), 32767)) else None
  }

  /** The store as the process holds it: one environment, updated in place. */
  class TokenStore {
    var db: Db

    constructor (db: Db)
      ensures this.db == db
    {
      this.db := db;
    }

    method GetOrCreateTok(corr: string, text: string, lbl: string) returns (tok: string)
      modifies this
      ensures (db, tok) == GetOrCreate(old(db), corr, text, lbl)
    {
      var lkey := ForwardKey(corr, text);
      if lkey in db {
        tok := Take(db[lkey], 31);
        return;
      }
      var n := 0;
      var ckey := CountKey(corr);
      if ckey in db {
        n := Atoi(Take(db[ckey], 15));
      }
      tok := Token(lbl, n);
      db := db[ckey := Decimal(n + 1)];
      db := db[lkey := tok];
      db := db[ReverseKey(corr, tok) := ReverseValue(lbl, text)];
    }

    method TokLookup(corr: string, tok: string) returns (r: Option<string>)
      ensures r == Lookup(db, corr, tok)
    {
      var rkey := LookupKey(corr, tok);
      if rkey !in db {
        return None;
      }
      var v := db[rkey];
      var p := 0;
      while p < |v| && v[p] != ':'
        invariant 0 <= p <= |v|
        invariant ':' !in v[..p]
      {
        p := p + 1;
      }
      AfterColonAt(v, p);
      r := Some(Take(if p < |v| then v[p + 1..] else v, 32767));
    }
  }

  lemma {:induction false} AfterColonAt(v: string, p: nat)
    requires p <= |v| && ':' !in v[..p]
    requires p < |v| ==> v[p] == ':'
    ensures AfterColon(v) == if p < |v| then v[p + 1..] else v
  {
    if p > 0 {
      assert v[0] == v[..p][0];
      assert v[1..][..p - 1] == v[..p][1..];
      AfterColonAt(v[1..], p - 1);
      assert v == [v[0]] + v[1..];
      assert p < |v| ==> v[p] in v;
      assert p == |v| ==> v[..p] == v;
    }
  }

  // ---- what callers must respect ----

  /** A correlation id: no ':' (the runtime passes 32 hex digits, or "default"),
      short enough that no key built from it and a placeholder is cut. */
  predicate GoodCorr(corr: string) {
    ':' !in corr && |corr| <= 219
  }

  /** A label as the 16-byte span field holds it; ':' would end it early in a reverse value. */
  predicate GoodLabel(lbl: string) {
    ':' !in lbl && |lbl| <= 15
  }

  /** The forward key of this text is stored whole. */
  predicate FitsKey(corr: string, text: string) {
    |corr| + 6 + |text| <= 511
  }

  /** The forward keys tell these texts apart. */
  ghost predicate KeysTell(corr: string, texts: iset<string>) {
    forall s, t :: s in texts && t in texts && ForwardKey(corr, s) == ForwardKey(corr, t) ==> s == t
  }

  // ---- the invariant ----

  /** The store holds exactly the issued placeholders of corr: the counter is their
      number, and each one's reverse entry holds its label and text. */
  ghost predicate Issued(db: Db, corr: string, issued: seq<Issue>) {
    && |issued| <= INT_MAX
    && Counter(db, corr) == |issued|
    && (forall i :: 0 <= i < |issued| ==>
          && GoodLabel(issued[i].lbl)
          && |issued[i].text| < 512
          && Lookup(db, corr, Token(issued[i].lbl, i)) == Some(issued[i].text))
    && (forall tok :: Lookup(db, corr, tok).Some? && |tok| <= 31 ==> IssuedToken(issued, tok))
  }

  ghost predicate IssuedToken(issued: seq<Issue>, tok: string) {
    exists i :: 0 <= i < |issued| && tok == Token(issued[i].lbl, i)
  }

  /** A text with a forward entry is answered by a placeholder issued for a text of the same key. */
  ghost predicate ForwardSound(db: Db, corr: string, issued: seq<Issue>) {
    forall text :: Hit(db, corr, text).Some? ==> IssuedLike(issued, corr, Hit(db, corr, text).value, text)
  }

  ghost predicate IssuedLike(issued: seq<Issue>, corr: string, tok: string, text: string) {
    exists i :: 0 <= i < |issued| && tok == Token(issued[i].lbl, i)
      && ForwardKey(corr, issued[i].text) == ForwardKey(corr, text)
  }

  ghost predicate IssuedFor(issued: seq<Issue>, tok: string, text: string) {
    exists i :: 0 <= i < |issued| && tok == Token(issued[i].lbl, i) && issued[i].text == text
  }

  ghost predicate TextsIn(issued: seq<Issue>, texts: iset<string>) {
    forall i :: 0 <= i < |issued| ==> issued[i].text in texts
  }

  // ---- keys do not collide ----

  lemma AfterLabel(lbl: string, text: string)
    requires ':' !in lbl
    ensures AfterColon(lbl + ":" + text) == text
  {
    var v := lbl + ":" + text;
    assert v[..|lbl|] == lbl && v[|lbl| + 1..] == text;
    AfterColonAt(v, |lbl|);
  }

  /** The first ':' tells the correlation apart; what follows tells the kind. */
  lemma SplitAtColon(a: string, x: string, b: string, y: string)
    requires ':' !in a && ':' !in b
    requires a + ":" + x == b + ":" + y
    ensures a == b && x == y
  {
    AfterLabel(a, x);
    AfterLabel(b, y);
    var s := a + ":" + x;
    assert |a| == |b|;
    assert a == s[..|a|] && b == (b + ":" + y)[..|a|];
  }

  /** A key cut to n characters still starts with the correlation and ':'. */
  lemma CutKey(corr: string, rest: string, n: nat)
    requires |corr| + 1 <= n
    ensures Take(corr + ":" + rest, n) == corr + ":" + Take(rest, n - |corr| - 1)
  {
    assert (corr + ":" + rest)[..|corr| + 1] == corr + ":";
  }

  lemma ForwardKeyShape(corr: string, text: string)
    requires GoodCorr(corr)
    ensures ForwardKey(corr, text) == corr + ":" + ("text:" + Take(text, 505 - |corr|))
  {
    assert corr + ":text:" + text == corr + ":" + ("text:" + text);
    CutKey(corr, "text:" + text, 511);
    assert ("text:" + text)[..5] == "text:";
  }

  lemma ReverseKeyShape(corr: string, tok: string)
    requires GoodCorr(corr) && |tok| <= 31
    ensures ReverseKey(corr, tok) == corr + ":" + ("tok:" + tok) == LookupKey(corr, tok)
  {
    assert corr + ":tok:" + tok == corr + ":" + ("tok:" + tok);
  }

  lemma CountKeyShape(corr: string)
    requires GoodCorr(corr)
    ensures CountKey(corr) == corr + ":" + "__count__"
  {
    assert corr + ":__count__" == corr + ":" + "__count__";
  }

  /** Two texts have one forward key exactly when they agree on the bytes the 512-byte buffer keeps. */
  lemma SameForwardKey(corr: string, t1: string, t2: string)
    requires GoodCorr(corr)
    ensures ForwardKey(corr, t1) == ForwardKey(corr, t2) <==> Take(t1, 505 - |corr|) == Take(t2, 505 - |corr|)
  {
    ForwardKeyShape(corr, t1);
    ForwardKeyShape(corr, t2);
    hide ForwardKey;
    var p := corr + ":" + "text:";
    var x1, x2 := Take(t1, 505 - |corr|), Take(t2, 505 - |corr|);
    assert corr + ":" + ("text:" + x1) == p + x1 && corr + ":" + ("text:" + x2) == p + x2;
    assert (p + x1)[|p|..] == x1 && (p + x2)[|p|..] == x2;
  }

  /** Forward keys tell texts apart exactly when no two different ones agree on the bytes kept. */
  lemma KeysTellExactly(corr: string, texts: iset<string>)
    requires GoodCorr(corr)
    ensures KeysTell(corr, texts) <==>
      forall s, t :: s in texts && t in texts && Take(s, 505 - |corr|) == Take(t, 505 - |corr|) ==> s == t
  {
    hide ForwardKey;
    forall s, t | s in texts && t in texts
      ensures ForwardKey(corr, s) == ForwardKey(corr, t) <==> Take(s, 505 - |corr|) == Take(t, 505 - |corr|)
    {
      SameForwardKey(corr, s, t);
    }
  }

  /** Texts whose forward keys are stored whole are told apart. */
  lemma FittingTell(corr: string, texts: iset<string>)
    requires GoodCorr(corr) && forall t :: t in texts ==> FitsKey(corr, t)
    ensures KeysTell(corr, texts)
  {
    KeysTellExactly(corr, texts);
    hide KeysTell, ForwardKey;
  }

  /** An answer is the placeholder of the text asked about when the keys tell that text from those
      issued. */
  lemma LikeIsFor(issued: seq<Issue>, corr: string, texts: iset<string>, tok: string, text: string)
    requires IssuedLike(issued, corr, tok, text) && KeysTell(corr, texts) && TextsIn(issued, texts) && text in texts
    ensures IssuedFor(issued, tok, text)
  {
    hide Token, ForwardKey;
  }

  /** Keys of different kinds, or of different correlations, are different keys. */
  lemma KeysApart(c1: string, text: string, c2: string, tok: string)
    requires GoodCorr(c1) && GoodCorr(c2) && |tok| <= 31
    ensures ForwardKey(c1, text) != ReverseKey(c2, tok)
    ensures ForwardKey(c1, text) != CountKey(c2)
    ensures ReverseKey(c2, tok) != CountKey(c1)
  {
    ForwardKeyShape(c1, text);
    ReverseKeyShape(c2, tok);
    CountKeyShape(c1);
    CountKeyShape(c2);
    var f, r, n := "text:" + Take(text, 505 - |c1|), "tok:" + tok, "__count__";
    assert f[1] == 'e' && r[1] == 'o' && n[1] == '_';
    if ForwardKey(c1, text) == ReverseKey(c2, tok) { SplitAtColon(c1, f, c2, r); assert false; }
    if ForwardKey(c1, text) == CountKey(c2) { SplitAtColon(c1, f, c2, n); assert false; }
    if ReverseKey(c2, tok) == CountKey(c1) { SplitAtColon(c2, r, c1, n); assert false; }
  }

  lemma CorrelationsApart(c1: string, t1: string, tok1: string, c2: string, t2: string, tok2: string)
    requires GoodCorr(c1) && GoodCorr(c2) && c1 != c2 && |tok1| <= 31 && |tok2| <= 31
    ensures ForwardKey(c1, t1) != ForwardKey(c2, t2)
    ensures ReverseKey(c1, tok1) != ReverseKey(c2, tok2)
    ensures CountKey(c1) != CountKey(c2)
  {
    ForwardKeyShape(c1, t1); ForwardKeyShape(c2, t2);
    ReverseKeyShape(c1, tok1); ReverseKeyShape(c2, tok2);
    CountKeyShape(c1); CountKeyShape(c2);
    if ForwardKey(c1, t1) == ForwardKey(c2, t2) {
      SplitAtColon(c1, "text:" + Take(t1, 505 - |c1|), c2, "text:" + Take(t2, 505 - |c2|));
    }
    if ReverseKey(c1, tok1) == ReverseKey(c2, tok2) {
      SplitAtColon(c1, "tok:" + tok1, c2, "tok:" + tok2);
    }
    if CountKey(c1) == CountKey(c2) {
      SplitAtColon(c1, "__count__", c2, "__count__");
    }
  }

  // ---- placeholders are distinct ----

  lemma TokenShape(lbl: string, n: nat)
    requires GoodLabel(lbl) && n <= INT_MAX
    ensures Token(lbl, n) == "TOK_" + lbl + "_" + Padded(n)
    ensures |Token(lbl, n)| <= 30
  {
    DecimalDigits(n);
    Pad4Reads(Decimal(n));
    assert Pow10(10) == 10_000_000_000 by {
      assert Pow10(5) == 100000 by { assert Pow10(2) == 100; assert Pow10(4) == 10000; }
      assert Pow10(7) == 10_000_000;
      assert Pow10(9) == 1_000_000_000;
    }
    DecimalLength(n, 10, 10_000_000_000);
  }

  /** What stands behind the last '_'. */
  ghost function LastField(s: string): string {
    if s == "" || s[|s| - 1] == '_' then "" else LastField(s[..|s| - 1]) + [s[|s| - 1]]
  }

  lemma {:induction false} LastFieldOf(a: string, p: string)
    requires '_' !in p
    ensures LastField(a + "_" + p) == p
  {
    var s := a + "_" + p;
    if p != "" {
      var q := p[..|p| - 1];
      assert s[..|s| - 1] == a + "_" + q;
      assert s[|s| - 1] == p[|p| - 1] && p[|p| - 1] in p;
      LastFieldOf(a, q);
    }
  }

  /** The last '_' tells the number apart. */
  lemma SplitLast(a: string, p: string, b: string, q: string)
    requires '_' !in p && '_' !in q && a + "_" + p == b + "_" + q
    ensures a == b && p == q
  {
    LastFieldOf(a, p);
    LastFieldOf(b, q);
    assert a == (a + "_" + p)[..|a|] && b == (b + "_" + q)[..|b|];
  }

  /** Placeholders with different numbers differ, whatever their labels. */
  lemma TokenInjective(l1: string, n1: nat, l2: string, n2: nat)
    requires GoodLabel(l1) && GoodLabel(l2) && n1 <= INT_MAX && n2 <= INT_MAX
    requires Token(l1, n1) == Token(l2, n2)
    ensures n1 == n2 && l1 == l2
  {
    TokenShape(l1, n1);
    TokenShape(l2, n2);
    PaddedReads(n1);
    PaddedReads(n2);
    hide Token, Padded, Atoi;
    SplitLast("TOK_" + l1, Padded(n1), "TOK_" + l2, Padded(n2));
    assert l1 == ("TOK_" + l1)[4..] && l2 == ("TOK_" + l2)[4..];
  }

  // ---- every transaction keeps the invariant ----

  lemma EmptyStore(corr: string)
    ensures Issued(map[], corr, []) && ForwardSound(map[], corr, [])
  {
  }

  /** What the allocation transaction of one correlation does to every lookup of it. */
  lemma AllocateReads(db: Db, corr: string, text: string, lbl: string)
    requires GoodCorr(corr) && GoodLabel(lbl) && |text| < 512 && Counter(db, corr) < INT_MAX
    ensures
      var (db', tok) := Allocate(db, corr, text, lbl);
      && Counter(db', corr) == Counter(db, corr) + 1
      && Lookup(db', corr, tok) == Some(text)
      && (forall t :: |t| <= 31 && t != tok ==> Lookup(db', corr, t) == Lookup(db, corr, t))
      && (forall t :: ForwardKey(corr, t) != ForwardKey(corr, text) ==> Hit(db', corr, t) == Hit(db, corr, t))
      && Hit(db', corr, text) == Some(tok)
  {
    var n := Counter(db, corr);
    var (db', tok) := Allocate(db, corr, text, lbl);
    assert tok == Token(lbl, n);
    TokenShape(lbl, n);
    AllocateCounts(db, corr, text, lbl, n);
    AllocateLooks(db, corr, text, lbl, n);
    hide ForwardKey, Lookup, CountKey, Token, Allocate, ReverseKey, ReverseValue;
    forall t | ForwardKey(corr, t) != ForwardKey(corr, text) ensures Hit(db', corr, t) == Hit(db, corr, t) {
      AllocateHits(db, corr, text, lbl, n, t);
    }
  }

  /** The store after an allocation, with the number it prints. */
  lemma AllocateIs(db: Db, corr: string, text: string, lbl: string, n: nat)
    requires n == Counter(db, corr)
    ensures Allocate(db, corr, text, lbl).0 ==
      db[CountKey(corr) := Decimal(n + 1)][ForwardKey(corr, text) := Token(lbl, n)]
        [ReverseKey(corr, Token(lbl, n)) := ReverseValue(lbl, text)]
  {
    hide ForwardKey, ReverseKey, CountKey, Token, ReverseValue, Decimal, Counter;
  }

  lemma AllocateCounts(db: Db, corr: string, text: string, lbl: string, n: nat)
    requires GoodCorr(corr) && n == Counter(db, corr) < INT_MAX && |Token(lbl, n)| <= 30
    ensures Counter(Allocate(db, corr, text, lbl).0, corr) == n + 1
    ensures Hit(Allocate(db, corr, text, lbl).0, corr, text) == Some(Token(lbl, n))
  {
    AllocateIs(db, corr, text, lbl, n);
    KeysApart(corr, text, corr, Token(lbl, n));
    DecimalFits(n + 1);
    hide ForwardKey, ReverseKey, CountKey, Token, ReverseValue, Decimal, Allocate, GoodCorr, Atoi;
  }

  lemma AllocateHits(db: Db, corr: string, text: string, lbl: string, n: nat, t: string)
    requires GoodCorr(corr) && n == Counter(db, corr) && |Token(lbl, n)| <= 30
    requires ForwardKey(corr, t) != ForwardKey(corr, text)
    ensures Hit(Allocate(db, corr, text, lbl).0, corr, t) == Hit(db, corr, t)
  {
    AllocateIs(db, corr, text, lbl, n);
    KeysApart(corr, t, corr, Token(lbl, n));
    hide ForwardKey, ReverseKey, CountKey, Token, ReverseValue, Decimal, Allocate, GoodCorr, Counter;
  }

  lemma AllocateLooks(db: Db, corr: string, text: string, lbl: string, n: nat)
    requires GoodCorr(corr) && GoodLabel(lbl) && |text| < 512
    requires n == Counter(db, corr) && |Token(lbl, n)| <= 30
    ensures var db', tok := Allocate(db, corr, text, lbl).0, Token(lbl, n);
      && Lookup(db', corr, tok) == Some(text)
      && forall t :: |t| <= 31 && t != tok ==> Lookup(db', corr, t) == Lookup(db, corr, t)
  {
    var db', tok := Allocate(db, corr, text, lbl).0, Token(lbl, n);
    AllocateIs(db, corr, text, lbl, n);
    ReverseKeyShape(corr, tok);
    AfterLabel(lbl, text);
    hide ForwardKey, ReverseKey, LookupKey, CountKey, Token, AfterColon, Decimal, Allocate, Counter;
    forall t | |t| <= 31 && t != tok ensures Lookup(db', corr, t) == Lookup(db, corr, t) {
      KeysApart(corr, text, corr, t);
      ReverseKeyShape(corr, t);
      ReverseKeysDiffer(corr, t, tok);
    }
  }

  lemma ReverseKeysDiffer(corr: string, t: string, tok: string)
    requires GoodCorr(corr) && |t| <= 31 && |tok| <= 31 && t != tok
    ensures ReverseKey(corr, t) != ReverseKey(corr, tok)
  {
    var p := corr + ":tok:";
    assert ReverseKey(corr, t) == p + t && ReverseKey(corr, tok) == p + tok;
    assert (p + t)[|p|..] == t && (p + tok)[|p|..] == tok;
  }

  lemma DecimalFits(n: nat)
    requires n <= INT_MAX
    ensures |Decimal(n)| <= 10 && Atoi(Take(Decimal(n), 15)) == n
  {
    DecimalDigits(n);
    assert Pow10(10) == 10_000_000_000 by {
      assert Pow10(5) == 100000 by { assert Pow10(2) == 100; assert Pow10(4) == 10000; }
      assert Pow10(7) == 10_000_000;
      assert Pow10(9) == 1_000_000_000;
    }
    DecimalLength(n, 10, 10_000_000_000);
  }

  /** The placeholder printed by an allocation is none of those issued before. */
  lemma NextTokenFresh(issued: seq<Issue>, lbl: string)
    requires GoodLabel(lbl) && |issued| < INT_MAX
    requires forall i :: 0 <= i < |issued| ==> GoodLabel(issued[i].lbl)
    ensures !IssuedToken(issued, Token(lbl, |issued|))
  {
    hide Token;
    forall i | 0 <= i < |issued| ensures Token(issued[i].lbl, i) != Token(lbl, |issued|) {
      if Token(issued[i].lbl, i) == Token(lbl, |issued|) {
        TokenInjective(issued[i].lbl, i, lbl, |issued|);
      }
    }
  }

  /** An allocation appends one issue, keeps every earlier one, and answers with the new one,
      even when another process allocated for the same text in between. */
  lemma AllocateKeeps(db: Db, corr: string, issued: seq<Issue>, text: string, lbl: string)
    requires GoodCorr(corr) && GoodLabel(lbl) && |text| < 512
    requires Issued(db, corr, issued) && |issued| < INT_MAX
    ensures Allocate(db, corr, text, lbl).1 == Token(lbl, |issued|)
    ensures !IssuedToken(issued, Token(lbl, |issued|))
    ensures Issued(Allocate(db, corr, text, lbl).0, corr, issued + [Issue(text, lbl)])
  {
    hide Lookup, Counter, Token, IssuedToken, Hit;
    assert Allocate(db, corr, text, lbl).1 == Token(lbl, |issued|);
    AllocateReads(db, corr, text, lbl);
    hide Allocate;
    TokenShape(lbl, |issued|);
    NextTokenFresh(issued, lbl);
    IssuedMore(db, Allocate(db, corr, text, lbl).0, corr, issued, text, lbl);
  }

  /** The invariant after one more issue, from what the lookups then give. */
  lemma IssuedMore(db: Db, db': Db, corr: string, issued: seq<Issue>, text: string, lbl: string)
    requires Issued(db, corr, issued) && |issued| < INT_MAX && GoodLabel(lbl) && |text| < 512
    requires !IssuedToken(issued, Token(lbl, |issued|))
    requires Counter(db', corr) == |issued| + 1
    requires Lookup(db', corr, Token(lbl, |issued|)) == Some(text)
    requires forall t :: |t| <= 31 && t != Token(lbl, |issued|) ==> Lookup(db', corr, t) == Lookup(db, corr, t)
    ensures Issued(db', corr, issued + [Issue(text, lbl)])
  {
    hide Lookup, Counter, Token, IssuedToken;
    var tok := Token(lbl, |issued|);
    var issued' := issued + [Issue(text, lbl)];
    forall i | 0 <= i < |issued'|
      ensures Lookup(db', corr, Token(issued'[i].lbl, i)) == Some(issued'[i].text)
    {
      TokenShape(issued'[i].lbl, i);
      if i < |issued| {
        TokenAt(issued, i);
        assert issued'[i] == issued[i];
      }
    }
    forall t | Lookup(db', corr, t).Some? && |t| <= 31 ensures IssuedToken(issued', t) {
      if t == tok {
        TokenAt(issued', |issued|);
      } else {
        TokenLater(issued, issued', t);
      }
    }
  }

  lemma TokenAt(issued: seq<Issue>, i: nat)
    requires i < |issued|
    ensures IssuedToken(issued, Token(issued[i].lbl, i))
  {
  }

  lemma TokenLater(issued: seq<Issue>, issued': seq<Issue>, tok: string)
    requires issued <= issued' && IssuedToken(issued, tok)
    ensures IssuedToken(issued', tok)
  {
    var i :| 0 <= i < |issued| && tok == Token(issued[i].lbl, i);
    assert issued'[i] == issued[i];
  }

  /** A text is only ever answered by a placeholder issued for a text of the same forward key. */
  lemma AllocateKeepsForward(db: Db, corr: string, issued: seq<Issue>, text: string, lbl: string)
    requires GoodCorr(corr) && GoodLabel(lbl) && |text| < 512
    requires Counter(db, corr) == |issued| < INT_MAX && ForwardSound(db, corr, issued)
    ensures ForwardSound(Allocate(db, corr, text, lbl).0, corr, issued + [Issue(text, lbl)])
  {
    hide Lookup, Hit, Counter, Token, ForwardKey;
    var (db', tok) := Allocate(db, corr, text, lbl);
    assert tok == Token(lbl, |issued|);
    hide Allocate;
    var issued' := issued + [Issue(text, lbl)];
    AllocateReads(db, corr, text, lbl);
    forall t | Hit(db', corr, t).Some? ensures IssuedLike(issued', corr, Hit(db', corr, t).value, t) {
      if ForwardKey(corr, t) == ForwardKey(corr, text) {
        SameKeySameHit(db', corr, t, text);
        assert issued'[|issued|] == Issue(text, lbl);
      } else {
        LikeLater(issued, issued', corr, Hit(db, corr, t).value, t);
      }
    }
  }

  lemma SameKeySameHit(db: Db, corr: string, s: string, t: string)
    requires ForwardKey(corr, s) == ForwardKey(corr, t)
    ensures Hit(db, corr, s) == Hit(db, corr, t)
  {
  }

  lemma LikeLater(issued: seq<Issue>, issued': seq<Issue>, corr: string, tok: string, text: string)
    requires issued <= issued' && IssuedLike(issued, corr, tok, text)
    ensures IssuedLike(issued', corr, tok, text)
  {
    hide Token, ForwardKey;
    var i :| 0 <= i < |issued| && tok == Token(issued[i].lbl, i)
      && ForwardKey(corr, issued[i].text) == ForwardKey(corr, text);
    assert issued'[i] == issued[i];
  }

  /** An allocation for one correlation is invisible to every other correlation. */
  lemma AllocateElsewhere(db: Db, corr: string, issued: seq<Issue>, other: string, text: string, lbl: string)
    requires GoodCorr(corr) && GoodCorr(other) && corr != other && GoodLabel(lbl)
    requires Counter(db, other) <= INT_MAX
    requires Issued(db, corr, issued)
    ensures Issued(Allocate(db, other, text, lbl).0, corr, issued)
    ensures ForwardSound(db, corr, issued) ==> ForwardSound(Allocate(db, other, text, lbl).0, corr, issued)
    ensures forall tok :: |tok| <= 31 ==>
      Lookup(Allocate(db, other, text, lbl).0, corr, tok) == Lookup(db, corr, tok)
    ensures forall t :: Hit(Allocate(db, other, text, lbl).0, corr, t) == Hit(db, corr, t)
  {
    hide ForwardKey, ReverseKey, LookupKey, CountKey, Token, AfterColon;
    var (db', tok) := Allocate(db, other, text, lbl);
    TokenShape(lbl, Counter(db, other));
    assert CountKey(corr) in db' <==> CountKey(corr) in db by {
      KeysApart(other, text, corr, tok);
      KeysApart(corr, text, other, tok);
      CorrelationsApart(corr, text, tok, other, text, tok);
    }
    assert Counter(db', corr) == Counter(db, corr) by {
      KeysApart(other, text, corr, tok);
      KeysApart(corr, text, other, tok);
      CorrelationsApart(corr, text, tok, other, text, tok);
    }
    forall t | |t| <= 31 ensures Lookup(db', corr, t) == Lookup(db, corr, t) {
      ReverseKeyShape(corr, t);
      KeysApart(other, text, corr, t);
      CorrelationsApart(corr, text, t, other, text, tok);
    }
    forall t ensures Hit(db', corr, t) == Hit(db, corr, t) {
      KeysApart(corr, t, other, tok);
      CorrelationsApart(corr, t, tok, other, text, tok);
    }
    forall i | 0 <= i < |issued| ensures |Token(issued[i].lbl, i)| <= 31 {
      TokenShape(issued[i].lbl, i);
    }
  }
}
