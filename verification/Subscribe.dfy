/** The subscription list of nng_setup, and which frames its prefixes match. */
module Subscribe {
  import opened Bytes
  import opened Lists
  import opened Wire

  const COMMA: Byte := 44
  const SPACE: Byte := 32
  const TOPIC_BUF: nat := 256

  /** The list as copied into topic_buf. */
  function Copied(list: Bytes): Bytes {
    if |list| < TOPIC_BUF then list else list[..TOPIC_BUF - 1]
  }

  /** strtok_r steps over empty stretches; leading spaces go, and what is left may be empty. */
  function TopicsOf(stretches: seq<Bytes>): seq<Bytes> {
    if stretches == [] then []
    else (if stretches[0] == [] then [] else [DropLeading(stretches[0], SPACE)]) + TopicsOf(stretches[1..])
  }

  /** The topics a list names. */
  function Listed(list: Bytes): seq<Bytes> {
    TopicsOf(Split(Copied(list), COMMA))
  }

  /** What is passed to NNG_OPT_SUB_SUBSCRIBE: each topic with its terminating zero. */
  function Terminated(topics: seq<Bytes>): (ps: seq<Bytes>)
    ensures |ps| == |topics| && forall i :: 0 <= i < |ps| ==> ps[i] == topics[i] + [0]
  {
    seq(|topics|, i requires 0 <= i < |topics| => topics[i] + [0])
  }

  /** The socket passes a message on when some subscription is a prefix of it. */
  predicate Delivered(subscriptions: seq<Bytes>, frame: Bytes) {
    exists i :: 0 <= i < |subscriptions| && subscriptions[i] <= frame
  }

  /** The subscription loop. */
  method SubscribeAll(list: Bytes) returns (subs: seq<Bytes>)
    ensures subs == Terminated(Listed(list))
  {
    var rest := Copied(list);
    subs := [];
    var more := true;
    ghost var done: seq<Bytes>, left := [], Listed(list);
    assert left == TopicsOf(Split(rest, COMMA)) && subs == Terminated([]);
    hide *;
    while more
      invariant subs == Terminated(done) && Listed(list) == done + left
      invariant left == if more then TopicsOf(Split(rest, COMMA)) else []
      decreases more, |rest|
    {
      var j := FindNext(rest, COMMA);
      ListStep(rest, j);
      more := j < |rest|;
      ghost var later := if more then TopicsOf(Split(rest[j + 1..], COMMA)) else [];
      if j > 0 {
        var t := SkipLeading(rest[..j], SPACE);
        subs := subs + [t + [0]];
        TerminatedStep(done, t);
        Shift(done, t, later);
        done := done + [t];
      }
      left := later;
      if more { rest := rest[j + 1..]; }
    }
    assert done + [] == done;
  }

  lemma Shift(done: seq<Bytes>, t: Bytes, later: seq<Bytes>)
    ensures done + ([t] + later) == done + [t] + later
  {
  }

  lemma ListStep(rest: Bytes, j: nat)
    requires j == NextAt(rest, COMMA, 0)
    ensures TopicsOf(Split(rest, COMMA)) ==
      var later := if j < |rest| then TopicsOf(Split(rest[j + 1..], COMMA)) else [];
      if j == 0 then later else [DropLeading(rest[..j], SPACE)] + later
  {
    SplitStep(rest, COMMA, j);
    hide Split, NextAt, DropLeading;
    assert rest[..|rest|] == rest;
    var tail := if j == |rest| then [] else Split(rest[j + 1..], COMMA);
    assert Split(rest, COMMA) == [rest[..j]] + tail;
    assert ([rest[..j]] + tail)[1..] == tail;
  }

  lemma TerminatedStep(ts: seq<Bytes>, t: Bytes)
    ensures Terminated(ts + [t]) == Terminated(ts) + [t + [0]]
  {
  }

  lemma {:induction false} SplitClean(s: Bytes, c: Byte, x: Byte)
    requires x !in s
    ensures forall i :: 0 <= i < |Split(s, c)| ==> x !in Split(s, c)[i]
    decreases |s|
  {
    var j := NextAt(s, c, 0);
    if j < |s| { SplitClean(s[j + 1..], c, x); }
  }

  lemma {:induction false} DropClean(s: Bytes, c: Byte, x: Byte)
    requires x !in s
    ensures x !in DropLeading(s, c)
  {
    if s != [] && s[0] == c { DropClean(s[1..], c, x); }
  }

  lemma {:induction false} TopicsClean(ts: seq<Bytes>)
    requires forall i :: 0 <= i < |ts| ==> 0 !in ts[i]
    ensures forall i :: 0 <= i < |TopicsOf(ts)| ==> 0 !in TopicsOf(ts)[i]
  {
    if ts != [] {
      DropClean(ts[0], SPACE, 0);
      TopicsClean(ts[1..]);
    }
  }

  /** A terminated topic is a prefix of a message exactly when it is the message's text up to its
      first zero: the trailing zero turns prefix matching into equality. */
  lemma PrefixIsEquality(t: Bytes, frame: Bytes)
    requires 0 !in t && 0 in frame
    ensures t + [0] <= frame <==> Text(frame) == t
  {
    TextIsPrefix(frame);
    if t + [0] <= frame {
      assert frame == t + [0] + frame[|t| + 1..];
      TextStops(t, frame[|t| + 1..]);
    }
  }

  /** A worker is handed a frame exactly when the frame's text is one of the listed topics. */
  lemma DeliveredExactly(list: Bytes, frame: Bytes)
    requires 0 !in list && 0 in frame
    ensures Delivered(Terminated(Listed(list)), frame) <==> Text(frame) in Listed(list)
  {
    SplitClean(Copied(list), COMMA, 0);
    TopicsClean(Split(Copied(list), COMMA));
    var ts := Listed(list);
    hide Listed, Text;
    forall i | 0 <= i < |ts| ensures Terminated(ts)[i] <= frame <==> Text(frame) == ts[i] {
      PrefixIsEquality(ts[i], frame);
    }
  }

  /** For frames built with a topic: the list must hold the topic cut to 31 bytes. */
  lemma BuiltFrameDelivered(list: Bytes, h: Header, topic: Bytes, payload: Bytes)
    requires 0 !in list && 0 !in topic && Sized(h) && h.topic == Field(topic)
    ensures Delivered(Terminated(Listed(list)), Frame(h, payload)) <==> Cut31(topic) in Listed(list)
  {
    FrameText(h, topic, payload);
    DeliveredExactly(list, Frame(h, payload));
  }

  /** Joining topics with commas, with any number of spaces before each, lists exactly those topics, if
      and only if the list is under 256 bytes; a longer one is cut. */
  lemma {:induction false} ListedTopics(ts: seq<Bytes>, pads: seq<nat>)
    requires ts != [] && |pads| == |ts|
    requires forall i :: 0 <= i < |ts| ==> ts[i] != [] && ts[i][0] != SPACE && COMMA !in ts[i]
    ensures var list := JoinWith(Indented(ts, pads, SPACE), COMMA);
      Listed(list) == ts <==> |list| < 256
  {
    var list := JoinWith(Indented(ts, pads, SPACE), COMMA);
    IndentedClean(ts, pads, SPACE, COMMA);
    if |list| < TOPIC_BUF {
      SplitJoined(Indented(ts, pads, SPACE), COMMA);
      AllKept(ts, pads);
    } else {
      CutLosesTopics(ts, pads, TOPIC_BUF - 1);
    }
  }

  /** A list that is cut does not name all its topics any more. */
  lemma {:induction false} CutLosesTopics(ts: seq<Bytes>, pads: seq<nat>, n: nat)
    requires ts != [] && |pads| == |ts|
    requires forall i :: 0 <= i < |ts| ==> ts[i] != [] && ts[i][0] != SPACE && COMMA !in ts[i]
    requires n < |JoinWith(Indented(ts, pads, SPACE), COMMA)|
    ensures TopicsOf(Split(JoinWith(Indented(ts, pads, SPACE), COMMA)[..n], COMMA)) != ts
    decreases |ts|
  {
    hide *;
    FirstStretch(ts, pads, n);
    var xs := Indented(ts, pads, SPACE);
    var x, c := xs[0], JoinWith(xs, COMMA)[..n];
    var j := if n <= |x| then n else |x|;
    ListStep(c, j);
    if n < |x| {
      DropCut(pads[0], SPACE, ts[0], n);
    } else {
      assert x[..|x|] == x;
      DropRun(pads[0], SPACE, ts[0]);
      if n > |x| { CutLosesTopics(ts[1..], pads[1..], n - |x| - 1); }
    }
  }

  /** The front of such a list, cut: its first stretch, and what is left of the others. */
  lemma {:induction false} FirstStretch(ts: seq<Bytes>, pads: seq<nat>, n: nat)
    requires ts != [] && |pads| == |ts|
    requires forall i :: 0 <= i < |ts| ==> COMMA !in ts[i]
    requires n < |JoinWith(Indented(ts, pads, SPACE), COMMA)|
    ensures var xs := Indented(ts, pads, SPACE);
      var x, c := xs[0], JoinWith(xs, COMMA)[..n];
      var j := if n <= |x| then n else |x|;
      && x == Run(SPACE, pads[0]) + ts[0] && NextAt(c, COMMA, 0) == j && c[..j] == x[..j]
      && (|ts| == 1 ==> n < |x|)
      && (n > |x| ==>
            && n - |x| - 1 < |JoinWith(Indented(ts[1..], pads[1..], SPACE), COMMA)|
            && c[|x| + 1..] == JoinWith(Indented(ts[1..], pads[1..], SPACE), COMMA)[..n - |x| - 1])
  {
    var xs := Indented(ts, pads, SPACE);
    var s, x := JoinWith(xs, COMMA), xs[0];
    IndentedClean(ts, pads, SPACE, COMMA);
    assert x == Run(SPACE, pads[0]) + ts[0] && COMMA !in x;
    assert xs[1..] == Indented(ts[1..], pads[1..], SPACE);
    assert |ts| > 1 ==> s == x + [COMMA] + JoinWith(xs[1..], COMMA);
    var j := if n <= |x| then n else |x|;
    hide Indented, JoinWith, Run;
    CutFront(s, x, if |ts| > 1 then JoinWith(xs[1..], COMMA) else [], |ts| > 1, n);
  }

  lemma {:induction false} CutFront(s: Bytes, x: Bytes, later: Bytes, more: bool, n: nat)
    requires COMMA !in x && n < |s| && (if more then s == x + [COMMA] + later else s == x)
    ensures var j := if n <= |x| then n else |x|;
      NextAt(s[..n], COMMA, 0) == j && s[..n][..j] == x[..j]
    ensures n > |x| ==> n - |x| - 1 < |later| && s[..n][|x| + 1..] == later[..n - |x| - 1]
  {
    var j, c := if n <= |x| then n else |x|, s[..n];
    assert c[0..j] == x[..j];
    assert forall k :: 0 <= k < j ==> x[..j][k] == x[k] && x[k] in x;
    NextIs(c, COMMA, 0, j);
  }

  /** A longer list reads as its first 255 bytes. */
  lemma LongList(list: Bytes)
    requires |list| >= 256
    ensures Listed(list) == Listed(list[..255])
  {
    hide TopicsOf, Split;
  }

  /** No topic listed is longer than the buffer allows. */
  lemma ListedShort(list: Bytes, i: nat)
    requires i < |Listed(list)|
    ensures |Listed(list)[i]| < TOPIC_BUF
  {
    TopicShort(Copied(list), i);
  }

  lemma {:induction false} TopicShort(s: Bytes, i: nat)
    requires i < |TopicsOf(Split(s, COMMA))|
    ensures |TopicsOf(Split(s, COMMA))[i]| <= |s|
    decreases |s|
  {
    var j := NextAt(s, COMMA, 0);
    ListStep(s, j);
    hide TopicsOf, Split, NextAt;
    DropShorter(s[..j], SPACE);
    if j < |s| && (j == 0 || i > 0) {
      TopicShort(s[j + 1..], if j == 0 then i else i - 1);
    }
  }

  lemma {:induction false} DropShorter(s: Bytes, c: Byte)
    ensures |DropLeading(s, c)| <= |s|
  {
    if s != [] && s[0] == c { DropShorter(s[1..], c); }
  }

  lemma {:induction false} AllKept(ts: seq<Bytes>, pads: seq<nat>)
    requires |pads| == |ts|
    requires forall i :: 0 <= i < |ts| ==> ts[i] != [] && ts[i][0] != SPACE
    ensures TopicsOf(Indented(ts, pads, SPACE)) == ts
  {
    if ts != [] {
      var xs := Indented(ts, pads, SPACE);
      AllKept(ts[1..], pads[1..]);
      DropRun(pads[0], SPACE, ts[0]);
      assert xs[0] == Run(SPACE, pads[0]) + ts[0] && xs[1..] == Indented(ts[1..], pads[1..], SPACE);
      assert ts == [ts[0]] + ts[1..];
    }
  }
}
