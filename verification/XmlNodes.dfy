/** The XML node list of the parsing library: `ILibProcessXMLNodeList` recovers the tree that a list of
    start and close tags flattens, and `ILibReadInnerXML` finds the end of an element. */
module XmlNodes {
  import Sequences

  datatype Tag = Open(name: string) | Close(name: string)

  /** A forest: the first element, what is inside it, and its following siblings. */
  datatype Forest = Nil | Cons(name: string, kids: Forest, rest: Forest)

  function Size(f: Forest): nat {
    match f
    case Nil => 0
    case Cons(_, kids, rest) => 2 + Size(kids) + Size(rest)
  }

  function Flatten(f: Forest): (tags: seq<Tag>)
    ensures |tags| == Size(f)
  {
    match f
    case Nil => []
    case Cons(name, kids, rest) => [Open(name)] + (Flatten(kids) + ([Close(name)] + Flatten(rest)))
  }

  ghost predicate WellNested(tags: seq<Tag>) {
    exists f :: Flatten(f) == tags
  }

  // ----- the verdict

  /** RetVal of the tag stack algorithm, from a stack of open names on. A list that ends with open
      elements is incomplete, and so is one cut off by a wrong close tag inside an element. */
  function Verdict(tags: seq<Tag>, names: seq<string>): int {
    if tags == [] then if names == [] then 0 else -3
    else
      match tags[0]
      case Open(name) => Verdict(tags[1..], [name] + names)
      case Close(name) =>
        if names == [] then -1
        else if names[0] != name then if |names| == 1 then -2 else -3
        else Verdict(tags[1..], names[1..])
  }

  lemma {:induction false} VerdictOver(f: Forest, more: seq<Tag>, names: seq<string>)
    ensures Verdict(Flatten(f) + more, names) == Verdict(more, names)
  {
    match f
    case Nil =>
      assert Flatten(f) + more == more;
    case Cons(name, kids, rest) =>
      var afterKids := [Close(name)] + (Flatten(rest) + more);
      FlattenCons(f, more);
      VerdictOver(kids, afterKids, [name] + names);
      VerdictOver(rest, more, names);
      assert ([Open(name)] + (Flatten(kids) + afterKids))[1..] == Flatten(kids) + afterKids;
      assert afterKids[1..] == Flatten(rest) + more;
      assert ([name] + names)[1..] == names;
  }

  lemma {:induction false} FlattenCons(f: Forest, more: seq<Tag>)
    requires f.Cons?
    ensures Flatten(f) + more == [Open(f.name)] + (Flatten(f.kids) + ([Close(f.name)] + (Flatten(f.rest) + more)))
  {
  }

  /** A stack of open elements, innermost first, and the forests that close them. */
  function Unwind(fs: seq<Forest>, names: seq<string>): seq<Tag>
    requires |fs| == |names| + 1
  {
    if names == [] then Flatten(fs[0])
    else Flatten(fs[0]) + ([Close(names[0])] + Unwind(fs[1..], names[1..]))
  }

  /** An accepted rest closes exactly the open elements. */
  lemma {:induction false} Decompose(tags: seq<Tag>, names: seq<string>) returns (fs: seq<Forest>)
    requires Verdict(tags, names) == 0
    ensures |fs| == |names| + 1 && tags == Unwind(fs, names)
  {
    if tags == [] {
      fs := [Nil];
    } else {
      var tag, more := tags[0], tags[1..];
      assert tags == [tag] + more;
      match tag {
        case Open(name) =>
          var gs := Decompose(more, [name] + names);
          var first := Cons(name, gs[0], gs[1]);
          fs := [first] + gs[2..];
          assert ([name] + names)[1..] == names;
          OpenUnwinds(name, gs, names);
        case Close(name) =>
          var gs := Decompose(more, names[1..]);
          fs := [Nil] + gs;
          assert fs[1..] == gs;
          assert Flatten(Nil) + ([Close(name)] + Unwind(gs, names[1..])) == [Close(name)] + more;
      }
    }
  }

  lemma {:induction false} OpenUnwinds(name: string, gs: seq<Forest>, names: seq<string>)
    requires |gs| == |names| + 2
    ensures Unwind([Cons(name, gs[0], gs[1])] + gs[2..], names) == [Open(name)] + Unwind(gs, [name] + names)
  {
    var first := Cons(name, gs[0], gs[1]);
    var fs := [first] + gs[2..];
    assert ([name] + names)[1..] == names;
    if names == [] {
      assert Unwind(gs[1..], names) == Flatten(gs[1]);
      FlattenCons(first, []);
      assert Flatten(first) + [] == Flatten(first) && Flatten(gs[1]) + [] == Flatten(gs[1]);
    } else {
      var more := [Close(names[0])] + Unwind(gs[2..], names[1..]);
      assert fs[1..] == gs[2..] && gs[1..][1..] == gs[2..];
      FlattenCons(first, more);
    }
  }

  /** The list is accepted if and only if it is the flattening of a forest. */
  lemma AcceptedIffNested(tags: seq<Tag>)
    ensures Verdict(tags, []) == 0 <==> WellNested(tags)
  {
    if Verdict(tags, []) == 0 {
      var fs := Decompose(tags, []);
      assert Flatten(fs[0]) == tags;
    }
    forall f | Flatten(f) == tags ensures Verdict(tags, []) == 0 {
      VerdictOver(f, [], []);
      assert Flatten(f) + [] == tags;
    }
  }

  lemma CutLater(tags: seq<Tag>, names: seq<string>, k: nat)
    requires 0 < k < |tags| && (tags[0].Open? || (names != [] && names[0] == tags[0].name))
    ensures var next := if tags[0].Open? then [tags[0].name] + names else names[1..];
      && Verdict(tags[..k], names) == Verdict(tags[1..][..k - 1], next)
      && forall n :: Verdict(tags[..k] + [Close(n)], names) == Verdict(tags[1..][..k - 1] + [Close(n)], next)
  {
    assert tags[..k][1..] == tags[1..][..k - 1];
    forall n ensures (tags[..k] + [Close(n)])[1..] == tags[1..][..k - 1] + [Close(n)] {
    }
  }

  /** A list that starts with a close tag that is not due. */
  lemma CutStart(tags: seq<Tag>, names: seq<string>)
    requires tags != [] && tags[0].Close? && (names == [] || names[0] != tags[0].name)
    ensures Verdict(tags, names) == if names == [] then -1 else if |names| == 1 then -2 else -3
    ensures forall k :: 0 < k <= |tags| ==> Verdict(tags[..k], names) != 0
    ensures forall k, n {:trigger tags[..k] + [Close(n)]} :: 0 < k <= |tags| ==>
      Verdict(tags[..k] + [Close(n)], names) != 0
  {
  }

  lemma OneClose(n: string, names: seq<string>)
    ensures Verdict([Close(n)], names) == 0 <==> names == [n]
  {
    assert [Close(n)][1..] == [];
  }

  /** A close tag comes when everything is closed. */
  ghost predicate Unopened(tags: seq<Tag>, names: seq<string>) {
    exists k :: 0 <= k < |tags| && tags[k].Close? && Verdict(tags[..k], names) == 0
  }

  /** A close tag comes that another name would have made the last one. */
  ghost predicate Misnamed(tags: seq<Tag>, names: seq<string>) {
    exists k, n {:trigger tags[k], Close(n)} ::
      0 <= k < |tags| && tags[k].Close? && tags[k].name != n && Verdict(tags[..k] + [Close(n)], names) == 0
  }

  lemma RejectedLater(tags: seq<Tag>, names: seq<string>)
    requires tags != [] && (tags[0].Open? || (names != [] && names[0] == tags[0].name))
    ensures var next := if tags[0].Open? then [tags[0].name] + names else names[1..];
      && (Unopened(tags, names) <==> Unopened(tags[1..], next))
      && (Misnamed(tags, names) <==> Misnamed(tags[1..], next))
  {
    var more, next := tags[1..], if tags[0].Open? then [tags[0].name] + names else names[1..];
    forall n ensures tags[..0] + [Close(n)] == [Close(n)] && (Verdict([Close(n)], names) == 0 <==> names == [n]) {
      OneClose(n, names);
    }
    hide Verdict;
    forall k | 0 < k < |tags|
      ensures tags[k] == more[k - 1] && Verdict(tags[..k], names) == Verdict(more[..k - 1], next)
      ensures forall n :: Verdict(tags[..k] + [Close(n)], names) == Verdict(more[..k - 1] + [Close(n)], next)
    {
      CutLater(tags, names, k);
    }
    assert forall j :: 0 <= j < |more| ==> more[j] == tags[j + 1];
    assert tags[0].Close? ==> Verdict(tags[..0], names) != 0 by { NothingClosed(tags, names); }
  }

  lemma NothingClosed(tags: seq<Tag>, names: seq<string>)
    ensures Verdict(tags[..0], names) == 0 <==> names == []
  {
  }

  lemma RejectedHere(tags: seq<Tag>, names: seq<string>)
    requires tags != [] && tags[0].Close? && (names == [] || names[0] != tags[0].name)
    ensures Unopened(tags, names) <==> names == []
    ensures Misnamed(tags, names) <==> |names| == 1
  {
    forall n ensures tags[..0] + [Close(n)] == [Close(n)] && (Verdict([Close(n)], names) == 0 <==> names == [n]) {
      OneClose(n, names);
    }
    CutStart(tags, names);
    NothingClosed(tags, names);
    hide Verdict;
    if |names| == 1 {
      var n := names[0];
      assert names == [n] && tags[0].name != n && Verdict(tags[..0] + [Close(n)], names) == 0;
    }
  }

  /** What the rejections say: -1, a close tag with nothing open; -2, a wrong close tag for the only open element,
      so that another name would have completed the list; -3, anything else that is not a forest. */
  lemma {:induction false} RejectionMeans(tags: seq<Tag>, names: seq<string>)
    ensures -3 <= Verdict(tags, names) <= 0
    ensures Verdict(tags, names) == -1 <==> Unopened(tags, names)
    ensures Verdict(tags, names) == -2 <==> Misnamed(tags, names)
  {
    hide Unopened, Misnamed;
    if tags == [] {
      NothingRejected(names);
    } else if tags[0].Open? || (names != [] && names[0] == tags[0].name) {
      RejectedLater(tags, names);
      RejectionMeans(tags[1..], if tags[0].Open? then [tags[0].name] + names else names[1..]);
    } else {
      RejectedHere(tags, names);
    }
  }

  lemma NothingRejected(names: seq<string>)
    ensures !Unopened([], names) && !Misnamed([], names)
  {
  }

  // ----- the links

  /** Parent, Peer and ClosingTag of every node, as positions in the list; -1 is NULL. */
  datatype Links = Links(parent: seq<int>, peer: seq<int>, closing: seq<int>) {
    predicate Over(n: nat) {
      |parent| == n && |peer| == n && |closing| == n
    }
  }

  function Blank(n: nat): (l: Links)
    ensures l.Over(n)
  {
    var none := seq(n, _ => -1);
    Links(none, none, none)
  }

  function Top(stack: seq<nat>): int {
    if stack == [] then -1 else stack[0]
  }

  predicate Below(stack: seq<nat>, i: nat) {
    forall k :: 0 <= k < |stack| ==> stack[k] < i
  }

  /** The links the algorithm sets from position i on, with the open elements on the stack. */
  function Weave(tags: seq<Tag>, i: nat, stack: seq<nat>, l: Links): (r: Links)
    requires i <= |tags| && l.Over(|tags|) && Below(stack, i)
    ensures r.Over(|tags|)
    decreases |tags| - i
  {
    if i == |tags| then l
    else if tags[i].Open? then
      Weave(tags, i + 1, [i] + stack, l.(parent := l.parent[i := Top(stack)]))
    else if stack == [] || tags[stack[0]].name != tags[i].name then l
    else Weave(tags, i + 1, stack[1..], Closed(tags, i, stack[0], l))
  }

  /** A close tag at i ends the element at t; its peer is the start tag right behind, if any. */
  function Closed(tags: seq<Tag>, i: nat, t: nat, l: Links): (r: Links)
    requires t < i < |tags| && l.Over(|tags|)
    ensures r.Over(|tags|)
  {
    var peer := if i + 1 < |tags| && tags[i + 1].Open? then l.peer[t := i + 1] else l.peer;
    l.(peer := peer, closing := l.closing[t := i])
  }

  /** The links are those of the forest that stands in the list from position at on, below up. */
  predicate Woven(f: Forest, at: nat, up: int, l: Links, n: nat)
    requires at + Size(f) <= n && l.Over(n)
  {
    match f
    case Nil => true
    case Cons(_, kids, rest) =>
      var close := at + 1 + Size(kids);
      && l.parent[at] == up
      && l.closing[at] == close
      && l.peer[at] == (if rest.Cons? then close + 1 else -1)
      && Woven(kids, at + 1, at, l, n)
      && Woven(rest, close + 1, up, l, n)
  }

  predicate AgreeOn(l: Links, m: Links, n: nat, lo: nat, hi: nat)
    requires l.Over(n) && m.Over(n) && hi <= n
  {
    forall k :: lo <= k < hi ==> l.parent[k] == m.parent[k] && l.peer[k] == m.peer[k] && l.closing[k] == m.closing[k]
  }

  lemma {:induction false} WovenFrame(f: Forest, at: nat, up: int, l: Links, m: Links, n: nat)
    requires at + Size(f) <= n && l.Over(n) && m.Over(n)
    requires AgreeOn(l, m, n, at, at + Size(f)) && Woven(f, at, up, l, n)
    ensures Woven(f, at, up, m, n)
  {
    if f.Cons? {
      WovenFrame(f.kids, at + 1, at, l, m, n);
      WovenFrame(f.rest, at + 2 + Size(f.kids), up, l, m, n);
    }
  }

  predicate Stands(f: Forest, tags: seq<Tag>, at: nat) {
    && at + Size(f) <= |tags|
    && tags[at..at + Size(f)] == Flatten(f)
    && (at + Size(f) < |tags| ==> tags[at + Size(f)].Close?)
  }

  lemma {:induction false} StandsSlices(f: Forest, tags: seq<Tag>, at: nat, close: nat, end: nat)
    requires Stands(f, tags, at) && f.Cons? && close == at + 1 + Size(f.kids) && end == at + Size(f)
    ensures close < end <= |tags| && tags[at] == Open(f.name) && tags[close] == Close(f.name)
    ensures tags[at + 1..close] == Flatten(f.kids) && tags[close + 1..end] == Flatten(f.rest)
    ensures end == close + 1 + Size(f.rest) && (end < |tags| ==> tags[end].Close?)
  {
    var inner, outer := Flatten(f.kids), Flatten(f.rest);
    assert Flatten(f) == [Open(f.name)] + (inner + ([Close(f.name)] + outer));
    assert end == close + 1 + Size(f.rest) && |inner| == Size(f.kids) && |outer| == Size(f.rest);
    hide Flatten, Size;
    SliceParts(tags, at, Open(f.name), inner, Close(f.name), outer);
    hide Stands;
  }

  lemma {:induction false} SliceParts(tags: seq<Tag>, at: nat, open: Tag, inner: seq<Tag>, close: Tag, outer: seq<Tag>)
    requires at + 2 + |inner| + |outer| <= |tags|
    requires tags[at..at + 2 + |inner| + |outer|] == [open] + (inner + ([close] + outer))
    ensures tags[at] == open && tags[at + 1 + |inner|] == close
    ensures tags[at + 1..at + 1 + |inner|] == inner
    ensures tags[at + 2 + |inner|..at + 2 + |inner| + |outer|] == outer
  {
    Sequences.SplitSlice(tags, at, [open], inner + ([close] + outer));
    Sequences.SplitSlice(tags, at + 1, inner, [close] + outer);
    Sequences.SplitSlice(tags, at + 1 + |inner|, [close], outer);
    assert tags[at] == tags[at..at + 1][0];
    assert tags[at + 1 + |inner|] == tags[at + 1 + |inner|..at + 2 + |inner|][0];
  }

  lemma {:induction false} StandsParts(f: Forest, tags: seq<Tag>, at: nat, close: nat)
    requires Stands(f, tags, at) && f.Cons? && close == at + 1 + Size(f.kids)
    ensures close < |tags| && tags[at] == Open(f.name) && tags[close] == Close(f.name)
    ensures Stands(f.kids, tags, at + 1) && Stands(f.rest, tags, close + 1)
    ensures f.rest.Cons? <==> close + 1 < |tags| && tags[close + 1].Open?
    ensures at + Size(f) == close + 1 + Size(f.rest) <= |tags|
  {
    var end := at + Size(f);
    hide Flatten, Size, Stands;
    StandsSlices(f, tags, at, close, end);
    StandsHere(f.kids, tags, at + 1, close);
    StandsHere(f.rest, tags, close + 1, end);
  }

  lemma {:induction false} StandsHere(f: Forest, tags: seq<Tag>, at: nat, end: nat)
    requires end == at + Size(f) <= |tags| && tags[at..end] == Flatten(f)
    requires end < |tags| ==> tags[end].Close?
    ensures Stands(f, tags, at) && (f.Cons? <==> at < |tags| && tags[at].Open?)
  {
    if f.Cons? {
      assert tags[at] == tags[at..end][0];
    }
  }

  predicate NoPeers(l: Links, n: nat, lo: nat)
    requires l.Over(n)
  {
    forall k :: lo <= k < n ==> l.peer[k] == -1
  }

  /** Over a forest the algorithm sets exactly the forest's links, and leaves the stack as it was. */
  lemma {:induction false} WeaveOver(f: Forest, tags: seq<Tag>, at: nat, stack: seq<nat>, l: Links) returns (m: Links)
    requires Stands(f, tags, at) && l.Over(|tags|) && Below(stack, at) && NoPeers(l, |tags|, at)
    ensures m.Over(|tags|)
    ensures Weave(tags, at, stack, l) == Weave(tags, at + Size(f), stack, m)
    ensures Woven(f, at, Top(stack), m, |tags|)
    ensures AgreeOn(l, m, |tags|, 0, at) && NoPeers(m, |tags|, at + Size(f))
    decreases f
  {
    hide Weave, Stands, Woven, NoPeers, AgreeOn, Below, Size, Closed;
    if f.Nil? {
      m := l;
      OverNothing(f, tags, at, Top(stack), l);
    } else {
      var close := at + 1 + Size(f.kids);
      StandsParts(f, tags, at, close);
      var l1 := WeaveOpens(tags, at, stack, l);
      var l2 := WeaveOver(f.kids, tags, at + 1, [at] + stack, l1);
      var l3 := WeaveCloses(tags, close, at, stack, l2);
      m := WeaveOver(f.rest, tags, close + 1, stack, l3);
      Assembled(f, tags, at, close, Top(stack), l, l2, m);
    }
  }

  lemma {:induction false} OverNothing(f: Forest, tags: seq<Tag>, at: nat, up: int, l: Links)
    requires f.Nil? && Stands(f, tags, at) && l.Over(|tags|)
    ensures at + Size(f) == at <= |tags| && Woven(f, at, up, l, |tags|) && AgreeOn(l, l, |tags|, 0, at)
  {
  }

  /** The links of an element, of what is inside it and of its siblings are in place. */
  lemma {:induction false} Assembled(f: Forest, tags: seq<Tag>, at: nat, close: nat, up: int, l: Links, l2: Links,
                                     m: Links)
    requires Stands(f, tags, at) && f.Cons? && close == at + 1 + Size(f.kids)
    requires l.Over(|tags|) && l2.Over(|tags|) && m.Over(|tags|) && at < close < close + 1 + Size(f.rest) <= |tags|
    requires AgreeOn(l.(parent := l.parent[at := up]), l2, |tags|, 0, at + 1) && NoPeers(l, |tags|, at)
    requires AgreeOn(Closed(tags, close, at, l2), m, |tags|, 0, close + 1)
    requires Woven(f.kids, at + 1, at, l2, |tags|) && Woven(f.rest, close + 1, up, m, |tags|)
    ensures at + Size(f) <= |tags| && Woven(f, at, up, m, |tags|) && AgreeOn(l, m, |tags|, 0, at)
  {
    StandsParts(f, tags, at, close);
    hide Stands, Size;
    AgreeAround(tags, close, at, up, l, l2, m);
    hide AgreeOn, NoPeers, Closed;
    WovenFrame(f.kids, at + 1, at, l2, m, |tags|);
  }

  lemma {:induction false} AgreeAround(tags: seq<Tag>, close: nat, at: nat, up: int, l: Links, l2: Links, m: Links)
    requires at < close < |tags| && l.Over(|tags|) && l2.Over(|tags|) && m.Over(|tags|)
    requires AgreeOn(l.(parent := l.parent[at := up]), l2, |tags|, 0, at + 1) && NoPeers(l, |tags|, at)
    requires AgreeOn(Closed(tags, close, at, l2), m, |tags|, 0, close + 1)
    ensures AgreeOn(l, m, |tags|, 0, at) && AgreeOn(l2, m, |tags|, at + 1, close)
    ensures m.parent[at] == up && m.closing[at] == close
    ensures m.peer[at] == (if close + 1 < |tags| && tags[close + 1].Open? then close + 1 else -1)
  {
  }

  lemma {:induction false} WeaveOpens(tags: seq<Tag>, at: nat, stack: seq<nat>, l: Links) returns (m: Links)
    requires at < |tags| && l.Over(|tags|) && Below(stack, at) && tags[at].Open? && NoPeers(l, |tags|, at)
    ensures m == l.(parent := l.parent[at := Top(stack)]) && m.Over(|tags|)
    ensures Below([at] + stack, at + 1) && NoPeers(m, |tags|, at + 1) && Top([at] + stack) == at
    ensures Weave(tags, at, stack, l) == Weave(tags, at + 1, [at] + stack, m)
  {
    m := l.(parent := l.parent[at := Top(stack)]);
  }

  lemma {:induction false} WeaveCloses(tags: seq<Tag>, close: nat, at: nat, stack: seq<nat>, l: Links)
    returns (m: Links)
    requires at < close < |tags| && l.Over(|tags|) && Below(stack, at) && NoPeers(l, |tags|, close)
    requires tags[close].Close? && tags[close].name == tags[at].name
    ensures m == Closed(tags, close, at, l) && NoPeers(m, |tags|, close + 1)
    ensures Below([at] + stack, close) && Below(stack, close + 1)
    ensures Weave(tags, close, [at] + stack, l) == Weave(tags, close + 1, stack, m)
  {
    assert ([at] + stack)[1..] == stack;
    m := Closed(tags, close, at, l);
  }

  /** An accepted list is woven into its forest. */
  lemma {:induction false} WeaveOfForest(f: Forest, tags: seq<Tag>)
    requires Flatten(f) == tags
    ensures Woven(f, 0, -1, Weave(tags, 0, [], Blank(|tags|)), |tags|)
  {
    assert Stands(f, tags, 0) && NoPeers(Blank(|tags|), |tags|, 0) && Below([], 0) by {
      assert tags[0..0 + Size(f)] == tags;
    }
    hide Stands, Woven, Flatten, NoPeers, Blank, Below;
    var m := WeaveOver(f, tags, 0, [], Blank(|tags|));
    assert Weave(tags, |tags|, [], m) == m;
    hide Weave;
  }

  // ----- the end of an element

  /** Where the scan of ILibReadInnerXML for the element at p stops, from position x on; -1 when it
      runs off the list. */
  function Stops(tags: seq<Tag>, x: nat, stack: seq<nat>, p: nat): int
    requires x <= |tags| && p < |tags| && Below(stack, x)
    decreases |tags| - x
  {
    if x == |tags| then -1
    else if tags[x].Open? then Stops(tags, x + 1, [x] + stack, p)
    else if Top(stack) == p && tags[x].name == tags[p].name then x
    else Stops(tags, x + 1, if stack == [] then [] else stack[1..], p)
  }

  /** The scan passes over every forest behind the element. */
  lemma {:induction false} StopsOver(f: Forest, tags: seq<Tag>, at: nat, stack: seq<nat>, p: nat)
    requires Stands(f, tags, at) && p < at && Below(stack, at)
    ensures at + Size(f) <= |tags| && Below(stack, at + Size(f))
    ensures Stops(tags, at, stack, p) == Stops(tags, at + Size(f), stack, p)
    decreases f
  {
    hide Stands, Size, Flatten;
    if f.Nil? {
      OverNothing(f, tags, at, -1, Blank(|tags|));
    } else {
      var close := at + 1 + Size(f.kids);
      StandsParts(f, tags, at, close);
      assert ([at] + stack)[1..] == stack;
      StopsOver(f.kids, tags, at + 1, [at] + stack, p);
      StopsOver(f.rest, tags, close + 1, stack, p);
      hide Stops;
    }
  }

  /** From any start tag of a forest the scan stops at that element's close tag. */
  lemma {:induction false} StopsAtClosing(f: Forest, tags: seq<Tag>, at: nat, up: int, l: Links, p: nat)
    requires Stands(f, tags, at) && l.Over(|tags|) && Woven(f, at, up, l, |tags|)
    requires at <= p < at + Size(f) && tags[p].Open?
    ensures Stops(tags, p, [], p) == l.closing[p] && p < l.closing[p] < |tags|
    decreases f
  {
    hide Stands, Size, Flatten, Stops;
    if f.Nil? {
      OverNothing(f, tags, at, up, l);
    } else {
      var close := at + 1 + Size(f.kids);
      StandsParts(f, tags, at, close);
      if p == at {
        StopsHere(f.kids, tags, at);
      } else if p < close {
        StopsAtClosing(f.kids, tags, at + 1, at, l, p);
      } else {
        StopsAtClosing(f.rest, tags, close + 1, up, l, p);
      }
    }
  }

  lemma {:induction false} StopsHere(kids: Forest, tags: seq<Tag>, p: nat)
    requires Stands(kids, tags, p + 1) && p + 1 + Size(kids) < |tags|
    requires tags[p].Open? && tags[p + 1 + Size(kids)] == Close(tags[p].name)
    ensures Stops(tags, p, [], p) == p + 1 + Size(kids)
  {
    assert [p] + [] == [p];
    StopsOver(kids, tags, p + 1, [p], p);
  }

  lemma {:induction false} InnerEndsAtClosing(tags: seq<Tag>, p: nat)
    requires WellNested(tags) && p < |tags| && tags[p].Open?
    ensures var end := Stops(tags, p, [], p);
      p < end < |tags| && end == Weave(tags, 0, [], Blank(|tags|)).closing[p]
  {
    var f :| Flatten(f) == tags;
    WeaveOfForest(f, tags);
    assert Stands(f, tags, 0) by {
      assert tags[0..0 + Size(f)] == tags;
    }
    var l := Weave(tags, 0, [], Blank(|tags|));
    hide Weave, Stops, Stands, Flatten, Woven;
    StopsAtClosing(f, tags, 0, -1, l, p);
  }

  // ----- the node list itself

  class XMLNode {
    const Name: string
    const StartTag: bool
    const Reserved: int // where the tag ends (start tag) or begins (close tag) in the text
    var Next: XMLNode?
    var Parent: XMLNode?
    var Peer: XMLNode?
    var ClosingTag: XMLNode?

    function Tag(): Tag {
      if StartTag then Open(Name) else Close(Name)
    }
  }

  ghost function TagsOf(nodes: seq<XMLNode>): (tags: seq<Tag>)
    ensures |tags| == |nodes|
  {
    seq(|nodes|, k requires 0 <= k < |nodes| => nodes[k].Tag())
  }

  ghost function NodeAt(nodes: seq<XMLNode>, k: int): XMLNode? {
    if 0 <= k < |nodes| then nodes[k] else null
  }

  ghost predicate Listed(nodes: seq<XMLNode>)
    reads nodes
  {
    && (forall j, k :: 0 <= j < k < |nodes| ==> nodes[j] != nodes[k])
    && (forall k {:trigger nodes[k].Next} :: 0 <= k < |nodes| ==> nodes[k].Next == NodeAt(nodes, k + 1))
  }

  ghost predicate Linked(nodes: seq<XMLNode>, l: Links)
    requires l.Over(|nodes|)
    reads nodes
  {
    && (forall k {:trigger nodes[k].Parent} :: 0 <= k < |nodes| ==> nodes[k].Parent == NodeAt(nodes, l.parent[k]))
    && (forall k {:trigger nodes[k].Peer} :: 0 <= k < |nodes| ==> nodes[k].Peer == NodeAt(nodes, l.peer[k]))
    && (forall k {:trigger nodes[k].ClosingTag} :: 0 <= k < |nodes| ==>
      nodes[k].ClosingTag == NodeAt(nodes, l.closing[k]))
  }

  ghost predicate Stacked(nodes: seq<XMLNode>, positions: seq<nat>, stack: seq<XMLNode>, i: nat) {
    && |positions| == |stack| && i <= |nodes| && Below(positions, i)
    && forall k :: 0 <= k < |stack| ==> stack[k] == nodes[positions[k]]
  }

  ghost function Names(stack: seq<XMLNode>): seq<string> {
    seq(|stack|, k requires 0 <= k < |stack| => stack[k].Name)
  }

  method ProcessXMLNodeList(nodeList: XMLNode?, ghost nodes: seq<XMLNode>) returns (retVal: int)
    requires Listed(nodes) && nodeList == NodeAt(nodes, 0) && Linked(nodes, Blank(|nodes|))
    modifies nodes
    ensures Listed(nodes)
    ensures retVal == Verdict(TagsOf(nodes), [])
    ensures Linked(nodes, Weave(TagsOf(nodes), 0, [], Blank(|nodes|)))
  {
    hide Weave, Verdict, Names, Blank, Below, Listed, Linked, Closed, TagsOf, Stacked, Top;
    retVal := 0;
    var current := nodeList;
    var tagStack: seq<XMLNode> := [];
    ghost var tags, i: nat, positions: seq<nat>, l := TagsOf(nodes), 0, [], Blank(|nodes|);
    ListStarts(nodes);
    while current != null
      invariant Listed(nodes) && i <= |nodes| && current == NodeAt(nodes, i)
      invariant Stacked(nodes, positions, tagStack, i) && Below(positions, i)
      invariant l.Over(|nodes|) && Linked(nodes, l)
      invariant Weave(tags, 0, [], Blank(|nodes|)) == Weave(tags, i, positions, l)
      invariant Verdict(tags, []) == Verdict(tags[i..], Names(tagStack))
      invariant retVal == 0
      decreases |nodes| - i
    {
      NextOf(nodes, i);
      if current.StartTag {
        OpenStep(nodes, i, positions, tagStack, l);
        l := SetParent(current, if tagStack == [] then null else tagStack[0], nodes, i, Top(positions), l);
        tagStack, positions := [current] + tagStack, [i] + positions;
      } else if tagStack != [] {
        var temp := tagStack[0];
        CloseStep(nodes, i, positions, tagStack, l);
        tagStack := tagStack[1..];
        if temp.Name == current.Name {
          l := SetClosing(temp, current, nodes, i, positions[0], l);
          positions := positions[1..];
        } else {
          retVal := -2;
          break;
        }
      } else {
        CloseStep(nodes, i, positions, tagStack, l);
        retVal := -1;
        break;
      }
      NextOf(nodes, i);
      current, i := current.Next, i + 1;
    }
    ListEnds(nodes, i, positions, tagStack, l);
    if tagStack != [] {
      retVal := -3;
    }
  }

  lemma NextOf(nodes: seq<XMLNode>, i: nat)
    requires Listed(nodes) && i < |nodes|
    ensures nodes[i].Next == NodeAt(nodes, i + 1)
    ensures forall k :: 0 <= k < |nodes| && k != i ==> nodes[k] != nodes[i]
  {
  }

  /** The start tag gets the innermost open element as its parent. */
  method SetParent(node: XMLNode, parent: XMLNode?, ghost nodes: seq<XMLNode>, ghost i: nat, ghost up: int,
                   ghost l: Links)
    returns (ghost m: Links)
    requires Listed(nodes) && l.Over(|nodes|) && Linked(nodes, l)
    requires i < |nodes| && node == nodes[i] && parent == NodeAt(nodes, up)
    modifies node
    ensures m == l.(parent := l.parent[i := up]) && Listed(nodes) && m.Over(|nodes|) && Linked(nodes, m)
  {
    node.Parent := parent;
    m := l.(parent := l.parent[i := up]);
  }

  /** The close tag ends the element it was popped for, whose peer is the start tag right behind. */
  method SetClosing(temp: XMLNode, current: XMLNode, ghost nodes: seq<XMLNode>, ghost i: nat, ghost t: nat,
                    ghost l: Links)
    returns (ghost m: Links)
    requires Listed(nodes) && l.Over(|nodes|) && Linked(nodes, l)
    requires t < i < |nodes| && temp == nodes[t] && current == nodes[i]
    modifies temp
    ensures m == Closed(TagsOf(nodes), i, t, l) && Listed(nodes) && Linked(nodes, m)
  {
    if current.Next != null {
      if current.Next.StartTag {
        temp.Peer := current.Next;
      }
    }
    temp.ClosingTag := current;
    m := Closed(TagsOf(nodes), i, t, l);
  }

  lemma ListStarts(nodes: seq<XMLNode>)
    ensures TagsOf(nodes)[0..] == TagsOf(nodes) && Below([], 0) && Stacked(nodes, [], [], 0) && Names([]) == []
    ensures Blank(|nodes|).Over(|nodes|)
  {
  }

  lemma ListEnds(nodes: seq<XMLNode>, i: nat, positions: seq<nat>, stack: seq<XMLNode>, l: Links)
    requires i <= |nodes| && l.Over(|nodes|) && Below(positions, i)
    ensures i == |nodes| ==>
      && Weave(TagsOf(nodes), i, positions, l) == l
      && Verdict(TagsOf(nodes)[i..], Names(stack)) == if stack == [] then 0 else -3
  {
  }

  lemma OpenStep(nodes: seq<XMLNode>, i: nat, positions: seq<nat>, stack: seq<XMLNode>, l: Links)
    requires i < |nodes| && nodes[i].StartTag && l.Over(|nodes|) && Stacked(nodes, positions, stack, i)
    ensures Below(positions, i) && Stacked(nodes, [i] + positions, [nodes[i]] + stack, i + 1)
    ensures (if stack == [] then null else stack[0]) == NodeAt(nodes, Top(positions))
    ensures Weave(TagsOf(nodes), i, positions, l)
         == Weave(TagsOf(nodes), i + 1, [i] + positions, l.(parent := l.parent[i := Top(positions)]))
    ensures Verdict(TagsOf(nodes)[i..], Names(stack)) == Verdict(TagsOf(nodes)[i + 1..], Names([nodes[i]] + stack))
  {
    var tags := TagsOf(nodes);
    assert tags[i..][0] == tags[i] && tags[i..][1..] == tags[i + 1..];
    assert Names([nodes[i]] + stack) == [nodes[i].Name] + Names(stack);
  }

  lemma CloseStep(nodes: seq<XMLNode>, i: nat, positions: seq<nat>, stack: seq<XMLNode>, l: Links)
    requires i < |nodes| && !nodes[i].StartTag && l.Over(|nodes|) && Stacked(nodes, positions, stack, i)
    ensures Below(positions, i) && |positions| == |stack|
    ensures stack != [] ==> positions[0] < i && stack[0] == nodes[positions[0]]
    ensures stack != [] && stack[0].Name == nodes[i].Name ==>
      && Stacked(nodes, positions[1..], stack[1..], i + 1)
      && Weave(TagsOf(nodes), i, positions, l)
         == Weave(TagsOf(nodes), i + 1, positions[1..], Closed(TagsOf(nodes), i, positions[0], l))
      && Verdict(TagsOf(nodes)[i..], Names(stack)) == Verdict(TagsOf(nodes)[i + 1..], Names(stack[1..]))
    ensures stack == [] || stack[0].Name != nodes[i].Name ==>
      && Weave(TagsOf(nodes), i, positions, l) == l
      && Verdict(TagsOf(nodes)[i..], Names(stack)) == if stack == [] then -1 else if |stack| == 1 then -2 else -3
  {
    var tags := TagsOf(nodes);
    assert tags[i..][0] == tags[i] && tags[i..][1..] == tags[i + 1..];
    if stack != [] {
      assert Names(stack)[1..] == Names(stack[1..]);
    }
  }

  method ReadInnerXML(node: XMLNode, ghost nodes: seq<XMLNode>, ghost p: nat) returns (start: int, length: int)
    requires Listed(nodes) && p < |nodes| && node == nodes[p] && node.StartTag
    requires WellNested(TagsOf(nodes)) && Linked(nodes, Weave(TagsOf(nodes), 0, [], Blank(|nodes|)))
    ensures node.ClosingTag != null && start == node.Reserved
    ensures var inner := node.ClosingTag.Reserved - node.Reserved - 1;
      length == if inner < 0 then 0 else inner
  {
    InnerEndsAtClosing(TagsOf(nodes), p);
    hide Weave, WellNested, Stops;
    ghost var i;
    var x;
    x, i := FindClosing(node, nodes, p);
    length := x.Reserved - node.Reserved - 1;
    if length < 0 {
      length := 0;
    }
    start := node.Reserved;
  }

  /** The scan for the closing tag, over a stack of the tags opened on the way. */
  method FindClosing(node: XMLNode, ghost nodes: seq<XMLNode>, ghost p: nat) returns (x: XMLNode, ghost i: nat)
    requires Listed(nodes) && p < |nodes| && node == nodes[p] && node.StartTag
    requires Stops(TagsOf(nodes), p, [], p) >= 0
    ensures i < |nodes| && x == nodes[i] && i == Stops(TagsOf(nodes), p, [], p)
  {
    x, i := node, p;
    var tagStack: seq<XMLNode> := [];
    ghost var tags, positions: seq<nat> := TagsOf(nodes), [];
    var found := false;
    while !found
      invariant i < |nodes| && x == nodes[i] && p <= i && Stacked(nodes, positions, tagStack, i)
      invariant !found ==> Stops(tags, p, [], p) == Stops(tags, if x.StartTag then i else i + 1, positions, p)
      invariant found ==> i == Stops(tags, p, [], p)
      decreases |nodes| - i, !found
    {
      if x.StartTag {
        tagStack, positions := [x] + tagStack, [i] + positions;
      }
      x, i := x.Next, i + 1;
      if !x.StartTag {
        var popped := if tagStack == [] then null else tagStack[0];
        found := popped == node && x.Name == node.Name;
        if tagStack != [] {
          tagStack, positions := tagStack[1..], positions[1..];
        }
      }
    }
  }
}
