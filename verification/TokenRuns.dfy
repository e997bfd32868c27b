/** Any number of mask processes sharing one token map. Each call of get_or_create_tok is
    two transactions, and every other process may run between them. */
module TokenRuns {
  import opened CText
  import opened Options
  import opened TokenMap

  datatype Want = Want(text: string, lbl: string)

  datatype Reply = Reply(text: string, tok: string)

  /** db is the store; waiting holds the processes that missed and have not allocated yet.
      issued and replies record what happened, oldest first. */
  datatype System = System(db: Db, waiting: map<nat, Want>, issued: seq<Issue>, replies: seq<Reply>)

  datatype Step =
    | Found(p: nat, text: string)
    | Missed(p: nat, text: string, lbl: string)
    | Allocates(p: nat)
    | Foreign(other: string, text: string, lbl: string)

  /** What mask_string passes: at most 511 bytes of text and a label of the span buffer. */
  predicate Acceptable(text: string, lbl: string) {
    |text| < 512 && GoodLabel(lbl)
  }

  predicate Enabled(corr: string, s: System, step: Step) {
    match step
    case Found(p, text) => p !in s.waiting && Hit(s.db, corr, text).Some?
    case Missed(p, text, lbl) => p !in s.waiting && Hit(s.db, corr, text).None? && Acceptable(text, lbl)
    case Allocates(p) => p in s.waiting && Counter(s.db, corr) < INT_MAX
    case Foreign(other, text, lbl) =>
      other != corr && GoodCorr(other) && Acceptable(text, lbl) && Counter(s.db, other) < INT_MAX
  }

  function Apply(corr: string, s: System, step: Step): System
    requires Enabled(corr, s, step)
  {
    match step
    case Found(p, text) => s.(replies := s.replies + [Reply(text, Hit(s.db, corr, text).value)])
    case Missed(p, text, lbl) => s.(waiting := s.waiting[p := Want(text, lbl)])
    case Allocates(p) =>
      var w := s.waiting[p];
      var (db', tok) := Allocate(s.db, corr, w.text, w.lbl);
      System(db', s.waiting - {p}, s.issued + [Issue(w.text, w.lbl)], s.replies + [Reply(w.text, tok)])
    case Foreign(other, text, lbl) => s.(db := Allocate(s.db, other, text, lbl).0)
  }

  predicate Runs(corr: string, s: System, steps: seq<Step>)
    decreases |steps|
  {
    steps == [] || (Enabled(corr, s, steps[0]) && Runs(corr, Apply(corr, s, steps[0]), steps[1..]))
  }

  function After(corr: string, s: System, steps: seq<Step>): System
    requires Runs(corr, s, steps)
    decreases |steps|
  {
    if steps == [] then s else After(corr, Apply(corr, s, steps[0]), steps[1..])
  }

  const Start: System := System(map[], map[], [], [])

  ghost predicate Inv(corr: string, s: System) {
    && Issued(s.db, corr, s.issued)
    && (forall p :: p in s.waiting ==> Acceptable(s.waiting[p].text, s.waiting[p].lbl))
  }

  lemma StepKeeps(corr: string, s: System, step: Step)
    requires GoodCorr(corr) && Inv(corr, s) && Enabled(corr, s, step)
    ensures Inv(corr, Apply(corr, s, step))
    ensures s.issued <= Apply(corr, s, step).issued && s.replies <= Apply(corr, s, step).replies
  {
    hide Issued, Allocate, Counter, Hit;
    match step
    case Found(p, text) =>
    case Missed(p, text, lbl) =>
    case Allocates(p) =>
      var w := s.waiting[p];
      assert Counter(s.db, corr) == |s.issued| by { IssuedCounts(s.db, corr, s.issued); }
      AllocateKeeps(s.db, corr, s.issued, w.text, w.lbl);
    case Foreign(other, text, lbl) =>
      AllocateElsewhere(s.db, corr, s.issued, other, text, lbl);
  }

  lemma IssuedCounts(db: Db, corr: string, issued: seq<Issue>)
    requires Issued(db, corr, issued)
    ensures Counter(db, corr) == |issued|
  {
  }

  /** Every run, however the transactions interleave and whatever the texts: the store holds
      exactly the placeholders issued, and what was issued or answered is never taken back. */
  lemma {:induction false} EveryRun(corr: string, s: System, steps: seq<Step>)
    requires GoodCorr(corr) && Inv(corr, s) && Runs(corr, s, steps)
    ensures Inv(corr, After(corr, s, steps))
    ensures s.issued <= After(corr, s, steps).issued
    ensures s.replies <= After(corr, s, steps).replies
    decreases |steps|
  {
    hide Issued, Allocate;
    if steps != [] {
      StepKeeps(corr, s, steps[0]);
      EveryRun(corr, Apply(corr, s, steps[0]), steps[1..]);
    }
  }

  /** In every reachable state: the counter exceeds every number issued, each issued placeholder
      looks up to the text it was issued for, and no other one was issued equal to it. */
  lemma ReachableDistinct(corr: string, steps: seq<Step>, i: nat, j: nat)
    requires GoodCorr(corr) && Runs(corr, Start, steps)
    requires i < |After(corr, Start, steps).issued| && j < |After(corr, Start, steps).issued|
    ensures
      var s := After(corr, Start, steps);
      && i < Counter(s.db, corr)
      && Lookup(s.db, corr, Token(s.issued[i].lbl, i)) == Some(s.issued[i].text)
      && (i != j ==> Token(s.issued[i].lbl, i) != Token(s.issued[j].lbl, j))
  {
    EmptyStore(corr);
    EveryRun(corr, Start, steps);
    hide Token;
    var s := After(corr, Start, steps);
    if Token(s.issued[i].lbl, i) == Token(s.issued[j].lbl, j) {
      TokenInjective(s.issued[i].lbl, i, s.issued[j].lbl, j);
    }
  }

  /** A reverse entry, once readable, reads the same for the rest of any run. */
  lemma ReverseEntriesStay(corr: string, s: System, steps: seq<Step>, tok: string)
    requires GoodCorr(corr) && Inv(corr, s) && Runs(corr, s, steps) && |tok| <= 31
    requires Lookup(s.db, corr, tok).Some?
    ensures Lookup(After(corr, s, steps).db, corr, tok) == Lookup(s.db, corr, tok)
  {
    EveryRun(corr, s, steps);
    LookupsStay(s.db, After(corr, s, steps).db, corr, s.issued, After(corr, s, steps).issued, tok);
  }

  lemma LookupsStay(db: Db, db': Db, corr: string, issued: seq<Issue>, issued': seq<Issue>, tok: string)
    requires Issued(db, corr, issued) && Issued(db', corr, issued') && issued <= issued'
    requires |tok| <= 31 && Lookup(db, corr, tok).Some?
    ensures Lookup(db', corr, tok) == Lookup(db, corr, tok)
  {
    hide Token, Lookup;
    var i :| 0 <= i < |issued| && tok == Token(issued[i].lbl, i);
    assert issued'[i] == issued[i];
  }

  // ---- answers ----

  /** Every answer is a placeholder issued for a text of the same forward key. */
  ghost predicate RepliesLike(corr: string, issued: seq<Issue>, replies: seq<Reply>) {
    forall i :: 0 <= i < |replies| ==> IssuedLike(issued, corr, replies[i].tok, replies[i].text)
  }

  /** Every text a placeholder was issued for has been answered. */
  ghost predicate AllAnswered(issued: seq<Issue>, replies: seq<Reply>) {
    forall i :: 0 <= i < |issued| ==> HasReply(replies, issued[i].text)
  }

  ghost predicate HasReply(replies: seq<Reply>, text: string) {
    exists i :: 0 <= i < |replies| && replies[i].text == text
  }

  ghost predicate AnswersSound(corr: string, s: System) {
    && ForwardSound(s.db, corr, s.issued)
    && RepliesLike(corr, s.issued, s.replies) && AllAnswered(s.issued, s.replies)
  }

  lemma AnswerStep(corr: string, s: System, step: Step)
    requires GoodCorr(corr) && Inv(corr, s) && AnswersSound(corr, s)
    requires Enabled(corr, s, step)
    ensures AnswersSound(corr, Apply(corr, s, step))
  {
    hide Issued, Allocate, Counter, RepliesLike, AllAnswered, ForwardSound, Lookup, Hit;
    match step
    case Found(p, text) =>
      FoundReplies(corr, s, text);
    case Missed(p, text, lbl) =>
    case Allocates(p) =>
      hide AnswersSound;
      AnswerAllocates(corr, s, p);
    case Foreign(other, text, lbl) =>
      AllocateElsewhere(s.db, corr, s.issued, other, text, lbl);
  }

  lemma FoundReplies(corr: string, s: System, text: string)
    requires AnswersSound(corr, s) && Hit(s.db, corr, text).Some?
    ensures var replies := s.replies + [Reply(text, Hit(s.db, corr, text).value)];
      RepliesLike(corr, s.issued, replies) && AllAnswered(s.issued, replies)
  {
    hide Hit, IssuedLike, HasReply;
    RepliesGrow(s.issued, s.replies, Reply(text, Hit(s.db, corr, text).value));
  }

  lemma RepliesGrow(issued: seq<Issue>, replies: seq<Reply>, r: Reply)
    requires AllAnswered(issued, replies)
    ensures AllAnswered(issued, replies + [r]) && HasReply(replies + [r], r.text)
  {
    assert (replies + [r])[|replies|] == r;
    forall i | 0 <= i < |issued| ensures HasReply(replies + [r], issued[i].text) {
      var k :| 0 <= k < |replies| && replies[k].text == issued[i].text;
      assert (replies + [r])[k] == replies[k];
    }
  }

  /** The system after an allocation. */
  lemma Allocated(corr: string, s: System, p: nat)
    requires GoodCorr(corr) && Inv(corr, s) && Enabled(corr, s, Allocates(p))
    ensures
      var w := s.waiting[p];
      && Acceptable(w.text, w.lbl) && Counter(s.db, corr) == |s.issued| < INT_MAX
      && Apply(corr, s, Allocates(p)) == System(Allocate(s.db, corr, w.text, w.lbl).0, s.waiting - {p},
           s.issued + [Issue(w.text, w.lbl)], s.replies + [Reply(w.text, Token(w.lbl, |s.issued|))])
  {
    var w := s.waiting[p];
    IssuedCounts(s.db, corr, s.issued);
    hide Issued, Counter, Allocate, Token, GoodLabel, GoodCorr;
    AllocateKeeps(s.db, corr, s.issued, w.text, w.lbl);
  }

  lemma AnswerAllocates(corr: string, s: System, p: nat)
    requires GoodCorr(corr) && Inv(corr, s) && AnswersSound(corr, s)
    requires Enabled(corr, s, Allocates(p))
    ensures AnswersSound(corr, Apply(corr, s, Allocates(p)))
  {
    var w := s.waiting[p];
    Allocated(corr, s, p);
    hide Apply, Enabled, Inv, Issued, Counter, RepliesLike, AllAnswered, ForwardSound, Allocate;
    hide Token, GoodLabel, GoodCorr;
    AllocateKeepsForward(s.db, corr, s.issued, w.text, w.lbl);
    RepliesLater(corr, s.issued, s.replies, w.text, w.lbl);
  }

  lemma RepliesLater(corr: string, issued: seq<Issue>, replies: seq<Reply>, text: string, lbl: string)
    requires RepliesLike(corr, issued, replies) && AllAnswered(issued, replies)
    ensures var issued', replies' := issued + [Issue(text, lbl)], replies + [Reply(text, Token(lbl, |issued|))];
      RepliesLike(corr, issued', replies') && AllAnswered(issued', replies')
  {
    hide IssuedLike, HasReply, Token;
    JustIssued(corr, issued, text, lbl);
    RepliesGrow(issued, replies, Reply(text, Token(lbl, |issued|)));
    forall i | 0 <= i < |replies|
      ensures IssuedLike(issued + [Issue(text, lbl)], corr, replies[i].tok, replies[i].text)
    {
      LikeLater(issued, issued + [Issue(text, lbl)], corr, replies[i].tok, replies[i].text);
    }
  }

  lemma JustIssued(corr: string, issued: seq<Issue>, text: string, lbl: string)
    ensures IssuedLike(issued + [Issue(text, lbl)], corr, Token(lbl, |issued|), text)
  {
    var issued' := issued + [Issue(text, lbl)];
    assert issued'[|issued|] == Issue(text, lbl);
  }

  lemma {:induction false} AnswersStay(corr: string, s: System, steps: seq<Step>)
    requires GoodCorr(corr) && Inv(corr, s) && AnswersSound(corr, s)
    requires Runs(corr, s, steps)
    ensures AnswersSound(corr, After(corr, s, steps))
    decreases |steps|
  {
    hide Issued, Allocate, AnswersSound;
    if steps != [] {
      StepKeeps(corr, s, steps[0]);
      AnswerStep(corr, s, steps[0]);
      AnswersStay(corr, Apply(corr, s, steps[0]), steps[1..]);
    }
  }

  lemma StartSound(corr: string)
    ensures Inv(corr, Start) && AnswersSound(corr, Start)
  {
    EmptyStore(corr);
  }

  /** Reply i is known by its key: no other text asked for has the same forward key. */
  ghost predicate OwnKey(corr: string, replies: seq<Reply>, i: nat)
    requires i < |replies|
  {
    forall j :: 0 <= j < |replies| && ForwardKey(corr, replies[j].text) == ForwardKey(corr, replies[i].text) ==>
      replies[j].text == replies[i].text
  }

  /** Reply i looks up to the text of reply j, which has the same forward key. */
  ghost predicate ReadsAs(corr: string, s: System, i: nat, j: nat)
    requires i < |s.replies|
  {
    && j < |s.replies| && Lookup(s.db, corr, s.replies[i].tok) == Some(s.replies[j].text)
    && ForwardKey(corr, s.replies[j].text) == ForwardKey(corr, s.replies[i].text)
  }

  lemma LikeReads(corr: string, s: System, i: nat)
    requires Issued(s.db, corr, s.issued) && AnswersSound(corr, s) && i < |s.replies|
    ensures exists j :: ReadsAs(corr, s, i, j)
  {
    hide Token, Lookup, ForwardKey, ForwardSound, Counter, IssuedToken;
    var r := s.replies[i];
    assert IssuedLike(s.issued, corr, r.tok, r.text);
    var k :| 0 <= k < |s.issued| && r.tok == Token(s.issued[k].lbl, k)
      && ForwardKey(corr, s.issued[k].text) == ForwardKey(corr, r.text);
    assert HasReply(s.replies, s.issued[k].text);
    hide IssuedLike, HasReply, RepliesLike, AllAnswered;
    var j :| 0 <= j < |s.replies| && s.replies[j].text == s.issued[k].text;
    assert ReadsAs(corr, s, i, j);
  }

  /** Every placeholder any process was ever answered with looks up, in every later state, to a text
      some process asked about and that agrees with its own on the bytes the forward key keeps; and so
      to its own text, unless another text asked about has the same forward key. */
  lemma EveryAnswerRestores(corr: string, steps: seq<Step>, i: nat) returns (j: nat)
    requires GoodCorr(corr) && Runs(corr, Start, steps)
    requires i < |After(corr, Start, steps).replies|
    ensures
      var s := After(corr, Start, steps);
      && j < |s.replies| && Lookup(s.db, corr, s.replies[i].tok) == Some(s.replies[j].text)
      && Take(s.replies[j].text, 505 - |corr|) == Take(s.replies[i].text, 505 - |corr|)
      && (OwnKey(corr, s.replies, i) ==> s.replies[j].text == s.replies[i].text)
  {
    StartSound(corr);
    hide Issued, Lookup, ForwardSound, RepliesLike, AllAnswered, ForwardKey;
    EveryRun(corr, Start, steps);
    AnswersStay(corr, Start, steps);
    var s := After(corr, Start, steps);
    LikeReads(corr, s, i);
    j :| ReadsAs(corr, s, i, j);
    SameForwardKey(corr, s.replies[j].text, s.replies[i].text);
  }

  // ---- a text asked about again ----

  /** No process that missed a text of this forward key is still about to allocate. */
  ghost predicate NoneWaiting(corr: string, s: System, text: string) {
    forall p :: p in s.waiting ==> ForwardKey(corr, s.waiting[p].text) != ForwardKey(corr, text)
  }

  /** What one step does to the placeholder a text is answered with: it changes if and only if the step
      is the allocation of a process that missed a text of the same forward key before. */
  lemma {:induction false} AnswerChangesExactly(corr: string, s: System, step: Step, text: string)
    requires GoodCorr(corr) && Inv(corr, s) && ForwardSound(s.db, corr, s.issued) && Enabled(corr, s, step)
    requires Hit(s.db, corr, text).Some?
    ensures Hit(Apply(corr, s, step).db, corr, text).Some?
    ensures Hit(Apply(corr, s, step).db, corr, text) != Hit(s.db, corr, text) <==>
      step.Allocates? && ForwardKey(corr, s.waiting[step.p].text) == ForwardKey(corr, text)
  {
    hide Issued, Allocate, Counter, ForwardSound, Lookup, Hit, ForwardKey, Token, IssuedLike;
    match step
    case Found(p, t) =>
    case Missed(p, t, lbl) =>
    case Allocates(p) =>
      Allocated(corr, s, p);
      hide Apply;
      var w := s.waiting[p];
      AllocationAnswers(corr, s, w, text);
    case Foreign(other, t, lbl) =>
      AllocateElsewhere(s.db, corr, s.issued, other, t, lbl);
  }

  lemma {:induction false} AllocationAnswers(corr: string, s: System, w: Want, text: string)
    requires GoodCorr(corr) && Issued(s.db, corr, s.issued) && ForwardSound(s.db, corr, s.issued)
    requires Acceptable(w.text, w.lbl) && |s.issued| < INT_MAX && Hit(s.db, corr, text).Some?
    ensures var later := Hit(Allocate(s.db, corr, w.text, w.lbl).0, corr, text);
      later.Some? && (later != Hit(s.db, corr, text) <==> ForwardKey(corr, w.text) == ForwardKey(corr, text))
  {
    hide Allocate, Lookup, Hit, ForwardKey, Token, Counter, IssuedToken;
    IssuedCounts(s.db, corr, s.issued);
    AllocateKeeps(s.db, corr, s.issued, w.text, w.lbl);
    AllocateReads(s.db, corr, w.text, w.lbl);
    var db' := Allocate(s.db, corr, w.text, w.lbl).0;
    if ForwardKey(corr, w.text) == ForwardKey(corr, text) {
      SameKeySameHit(db', corr, text, w.text);
      LikeIsIssued(s.issued, corr, Hit(s.db, corr, text).value, text);
    }
  }

  lemma LikeIsIssued(issued: seq<Issue>, corr: string, tok: string, text: string)
    requires IssuedLike(issued, corr, tok, text)
    ensures IssuedToken(issued, tok)
  {
    hide Token, ForwardKey;
  }

  lemma {:induction false} NoneWaitingStays(corr: string, s: System, step: Step, text: string)
    requires Enabled(corr, s, step) && NoneWaiting(corr, s, text) && Hit(s.db, corr, text).Some?
    ensures NoneWaiting(corr, Apply(corr, s, step), text)
  {
    hide Allocate, Hit, ForwardKey, Counter, GoodCorr;
    if step.Missed? && ForwardKey(corr, step.text) == ForwardKey(corr, text) {
      SameKeySameHit(s.db, corr, step.text, text);
    }
  }

  /** A text that has a placeholder, and that nobody is about to number again, is answered with that
      placeholder for the rest of any run, whatever the others ask, and asking changes nothing. */
  lemma {:induction false} AskedAgain(corr: string, s: System, steps: seq<Step>, text: string, lbl: string)
    requires GoodCorr(corr) && Inv(corr, s) && AnswersSound(corr, s) && Runs(corr, s, steps)
    requires Hit(s.db, corr, text).Some? && NoneWaiting(corr, s, text)
    ensures
      var db := After(corr, s, steps).db;
      GetOrCreate(db, corr, text, lbl) == (db, Hit(s.db, corr, text).value)
    decreases |steps|
  {
    if steps == [] {
      assert After(corr, s, steps) == s;
      hide Hit;
    } else {
      RunsFirst(corr, s, steps);
      SoundForward(corr, s);
      hide *;
      AnswerChangesExactly(corr, s, steps[0], text);
      WaitingApart(corr, s, steps[0], text);
      NoneWaitingStays(corr, s, steps[0], text);
      StepKeeps(corr, s, steps[0]);
      AnswerStep(corr, s, steps[0]);
      AskedAgain(corr, Apply(corr, s, steps[0]), steps[1..], text, lbl);
    }
  }

  lemma {:induction false} RunsFirst(corr: string, s: System, steps: seq<Step>)
    requires Runs(corr, s, steps) && steps != []
    ensures Enabled(corr, s, steps[0]) && Runs(corr, Apply(corr, s, steps[0]), steps[1..])
    ensures After(corr, s, steps) == After(corr, Apply(corr, s, steps[0]), steps[1..])
  {
    hide Enabled, Apply;
  }

  lemma SoundForward(corr: string, s: System)
    requires AnswersSound(corr, s)
    ensures ForwardSound(s.db, corr, s.issued)
  {
    hide ForwardSound, RepliesLike, AllAnswered;
  }

  lemma {:induction false} WaitingApart(corr: string, s: System, step: Step, text: string)
    requires Enabled(corr, s, step) && NoneWaiting(corr, s, text)
    ensures !(step.Allocates? && ForwardKey(corr, s.waiting[step.p].text) == ForwardKey(corr, text))
  {
    hide Hit, ForwardKey, Counter, GoodCorr;
  }

  // ---- the two ways an answer surprises ----

  lemma EmptyReads(corr: string, text: string)
    ensures Counter(map[], corr) == 0 && Hit(map[], corr, text).None?
  {
  }

  lemma RunsOn(corr: string, s: System, step: Step, rest: seq<Step>)
    requires Enabled(corr, s, step) && Runs(corr, Apply(corr, s, step), rest)
    ensures Runs(corr, s, [step] + rest)
    ensures After(corr, s, [step] + rest) == After(corr, Apply(corr, s, step), rest)
  {
    hide Enabled, Apply;
    assert ([step] + rest)[1..] == rest;
  }

  /** What two allocations for one text into an empty store give. */
  lemma TwoAllocations(corr: string, text: string, lbl: string)
    requires GoodCorr(corr) && Acceptable(text, lbl)
    ensures
      var (db1, tok1) := Allocate(map[], corr, text, lbl);
      var (db2, tok2) := Allocate(db1, corr, text, lbl);
      && Counter(map[], corr) == 0 && Counter(db1, corr) == 1 && Hit(map[], corr, text).None?
      && tok1 == Token(lbl, 0) && tok2 == Token(lbl, 1) && tok1 != tok2
      && Lookup(db2, corr, tok1) == Lookup(db2, corr, tok2) == Some(text)
  {
    hide Lookup, Token, Hit, Counter, Issued, IssuedToken, ForwardSound;
    EmptyStore(corr);
    EmptyReads(corr, text);
    AllocateKeeps(map[], corr, [], text, lbl);
    var db1 := Allocate(map[], corr, text, lbl).0;
    assert [] + [Issue(text, lbl)] == [Issue(text, lbl)];
    IssuedCounts(db1, corr, [Issue(text, lbl)]);
    AllocateKeeps(db1, corr, [Issue(text, lbl)], text, lbl);
    var db2 := Allocate(db1, corr, text, lbl).0;
    hide Allocate;
    var both := [Issue(text, lbl), Issue(text, lbl)];
    assert [Issue(text, lbl)] + [Issue(text, lbl)] == both;
    ReadsAt(db2, corr, both, 0);
    ReadsAt(db2, corr, both, 1);
    if Token(lbl, 0) == Token(lbl, 1) { TokenInjective(lbl, 0, lbl, 1); }
  }

  /** Two processes that both miss the same text get different placeholders for it,
      and both of them restore. */
  lemma RaceIssuesTwice(corr: string, text: string, lbl: string)
    requires GoodCorr(corr) && Acceptable(text, lbl)
    ensures
      var steps := [Missed(1, text, lbl), Missed(2, text, lbl), Allocates(1), Allocates(2)];
      && Runs(corr, Start, steps)
      && var s := After(corr, Start, steps);
      && s.replies == [Reply(text, Token(lbl, 0)), Reply(text, Token(lbl, 1))]
      && Token(lbl, 0) != Token(lbl, 1)
      && Lookup(s.db, corr, Token(lbl, 0)) == Lookup(s.db, corr, Token(lbl, 1)) == Some(text)
  {
    TwoAllocations(corr, text, lbl);
    hide Lookup, Token, Hit, Counter, Issued, IssuedToken, ForwardSound, Allocate;
    var s1 := Apply(corr, Start, Missed(1, text, lbl));
    var s2 := Apply(corr, s1, Missed(2, text, lbl));
    var s3 := Apply(corr, s2, Allocates(1));
    var s4 := Apply(corr, s3, Allocates(2));
    assert s4.replies == [Reply(text, Token(lbl, 0)), Reply(text, Token(lbl, 1))];
    assert Runs(corr, s4, []) && After(corr, s4, []) == s4;
    RunsOn(corr, s3, Allocates(2), []);
    RunsOn(corr, s2, Allocates(1), [Allocates(2)]);
    RunsOn(corr, s1, Missed(2, text, lbl), [Allocates(1), Allocates(2)]);
    RunsOn(corr, Start, Missed(1, text, lbl), [Missed(2, text, lbl), Allocates(1), Allocates(2)]);
    assert [Allocates(2)] + [] == [Allocates(2)];
    assert [Allocates(1)] + [Allocates(2)] == [Allocates(1), Allocates(2)];
    assert [Missed(2, text, lbl)] + [Allocates(1), Allocates(2)] == [Missed(2, text, lbl), Allocates(1), Allocates(2)];
  }

  lemma ReadsAt(db: Db, corr: string, issued: seq<Issue>, i: nat)
    requires Issued(db, corr, issued) && i < |issued|
    ensures Lookup(db, corr, Token(issued[i].lbl, i)) == Some(issued[i].text)
  {
  }

  /** Right after a placeholder was issued for one text, another text not yet in the map is
      answered with it exactly when the two agree on the bytes the forward key keeps: the
      512-byte key buffer cuts longer texts. */
  lemma WrongAnswerExactly(db: Db, corr: string, t1: string, t2: string, lbl: string)
    requires GoodCorr(corr) && Acceptable(t1, lbl) && Counter(db, corr) < INT_MAX
    requires Hit(db, corr, t2).None?
    ensures
      var (db', tok) := Allocate(db, corr, t1, lbl);
      Hit(db', corr, t2) == Some(tok) <==> Take(t1, 505 - |corr|) == Take(t2, 505 - |corr|)
  {
    AllocateReads(db, corr, t1, lbl);
    SameForwardKey(corr, t1, t2);
    hide Token, Lookup, Allocate, ForwardKey, Counter;
  }
}
