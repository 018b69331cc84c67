/** The second pass of `compile()` (`src/llm_stream_processor/engine/registry.py`):
    failure links and merged outputs, set breadth-first. */
module FailureLinks {
  import opened Wrappers
  import opened Trie
  import opened Automaton
  import opened TrieBuild

  /** The root links to itself and has no output. */
  ghost predicate RootLinked(t: NodeMap) {
    [] in t && t[[]].fail == Some([]) && t[[]].output == []
  }

  /** Every node whose link is set is linked correctly. */
  ghost predicate LinksCorrect(t: NodeMap, kws: map<string, seq<CallbackId>>)
    requires [] in t
  {
    forall p {:trigger Linked(t, kws, p)} :: p in t && p != [] && t[p].fail.Some? ==> Linked(t, kws, p)
  }

  /** A node whose link is not set yet still holds only its own entry. */
  ghost predicate UnlinkedOwn(t: NodeMap, kws: map<string, seq<CallbackId>>) {
    forall p :: p in t && t[p].fail.None? ==> t[p].output == Own(kws, p)
  }

  /** The queue holds distinct linked nodes, shallowest first. */
  ghost predicate QueueOk(t: NodeMap, queue: seq<string>) {
    && (forall i :: 0 <= i < |queue| ==> queue[i] in t && queue[i] != [] && t[queue[i]].fail.Some?)
    && (forall i, j :: 0 <= i < j < |queue| ==> queue[i] != queue[j])
    && (forall i, j :: 0 <= i <= j < |queue| ==> |queue[i]| <= |queue[j]|)
  }

  /** Which links are set: a node is linked exactly when its parent is linked,
      no longer waits in the queue, and, when the parent is the node `current`
      being expanded, the edge to the node is no longer `pending`. */
  ghost predicate Frontier(t: NodeMap, queue: seq<string>, current: string, pending: set<char>)
    requires PrefixClosed(t.Keys)
  {
    forall p :: p in t && p != [] ==>
      (t[p].fail.Some? <==>
         && t[p[..|p| - 1]].fail.Some?
         && p[..|p| - 1] !in queue
         && !(p[..|p| - 1] == current && p[|p| - 1] in pending))
  }

  /** What the breadth-first pass knows between two links. */
  ghost predicate BfsInv(t: NodeMap, kws: map<string, seq<CallbackId>>, queue: seq<string>,
                         current: string, pending: set<char>) {
    && [] !in kws
    && TrieShape(t)
    && (forall k :: k in kws ==> k in t)
    && RootLinked(t)
    && LinksCorrect(t, kws)
    && UnlinkedOwn(t, kws)
    && QueueOk(t, queue)
    && Frontier(t, queue, current, pending)
  }

  /** The node after `child.fail = target; child.output.extend(target.output)`. */
  function LinkNode(t: NodeMap, child: string, target: string): NodeMap
    requires child in t && target in t
  {
    t[child := t[child].(fail := Some(target), output := t[child].output + t[target].output)]
  }

  lemma ParentLast(p: string)
    requires p != []
    ensures p == p[..|p| - 1] + [p[|p| - 1]]
  {
  }

  /** Breadth-first order: every node no deeper than everything still waiting
      already has its failure link. */
  lemma {:induction false} ShallowLinked(t: NodeMap, queue: seq<string>, current: string, pending: set<char>, n: nat)
    requires RootLinked(t) && PrefixClosed(t.Keys) && Frontier(t, queue, current, pending)
    requires forall i :: 0 <= i < |queue| ==> n <= |queue[i]|
    requires pending != {} ==> n <= |current|
    ensures forall p :: p in t && |p| <= n ==> t[p].fail.Some?
  {
    if n > 0 {
      ShallowLinked(t, queue, current, pending, n - 1);
      forall p | p in t && |p| <= n ensures t[p].fail.Some? {
        if p != [] {
          var q := p[..|p| - 1];
          assert q in t && |q| < n;
          assert forall i :: 0 <= i < |queue| ==> queue[i] != q;
        }
      }
    }
  }

  /** The state after the root's link is set and before any child is linked. */
  lemma StartInv(t0: NodeMap, kws: map<string, seq<CallbackId>>)
    requires Building(t0, kws, kws.Keys, []) && [] !in kws
    ensures var t := t0[[] := t0[[]].(fail := Some([]))];
      [] in t && Expanding(t, kws, [], [], t[[]].children.Keys) && t.Keys == t0.Keys
  {
    var t := t0[[] := t0[[]].(fail := Some([]))];
    assert t.Keys == t0.Keys;
    assert forall p :: p in t ==> t[p].children == t0[p].children && t[p].output == t0[p].output;
    assert forall p :: p in t && p != [] ==> t[p] == t0[p];
    SameShape(t0, t);
    StartOwn(t0, t, kws);
    forall k | k in kws ensures k in t {
      assert k[..|k|] == k;
    }
    StartFrontier(t0, t);
  }

  /** Before the pass every node holds only its own entry. */
  lemma StartOwn(t0: NodeMap, t: NodeMap, kws: map<string, seq<CallbackId>>)
    requires InsertedOutputs(t0, kws, kws.Keys) && t.Keys == t0.Keys
    requires forall p :: p in t0 ==> t[p].output == t0[p].output
    ensures UnlinkedOwn(t, kws)
  {
  }

  /** With only the root linked and nothing queued, a node is linked exactly
      when it is the root's child along a pending character or deeper. */
  lemma StartFrontier(t0: NodeMap, t: NodeMap)
    requires TrieShape(t) && NoLinks(t0) && t.Keys == t0.Keys && t[[]].fail.Some?
    requires forall p :: p in t && p != [] ==> t[p] == t0[p]
    ensures Frontier(t, [], [], t[[]].children.Keys)
  {
    forall p | p in t && p != [] && p[..|p| - 1] == [] ensures p[|p| - 1] in t[[]].children {
      ParentLast(p);
    }
  }


  /** Taking `current` off the queue to expand it. */
  lemma PopInv(t: NodeMap, kws: map<string, seq<CallbackId>>, queue: seq<string>, prev: string)
    requires Expanding(t, kws, queue, prev, {}) && queue != []
    ensures Expanding(t, kws, queue[1..], queue[0], t[queue[0]].children.Keys)
  {
    PopQueue(t, queue);
    PopFrontier(t, queue, prev);
  }

  lemma PopQueue(t: NodeMap, queue: seq<string>)
    requires QueueOk(t, queue) && queue != []
    ensures QueueOk(t, queue[1..])
  {
  }

  lemma PopFrontier(t: NodeMap, queue: seq<string>, prev: string)
    requires PrefixClosed(t.Keys) && ChildrenComplete(t) && Frontier(t, queue, prev, {})
    requires queue != [] && queue[0] in t && queue[0] !in queue[1..]
    ensures Frontier(t, queue[1..], queue[0], t[queue[0]].children.Keys)
  {
    var current := queue[0];
    forall p | p in t && p != []
      ensures t[p].fail.Some? <==>
                && t[p[..|p| - 1]].fail.Some?
                && p[..|p| - 1] !in queue[1..]
                && !(p[..|p| - 1] == current && p[|p| - 1] in t[current].children.Keys)
    {
      var q := p[..|p| - 1];
      if q == current {
        ParentLast(p);
        assert p[|p| - 1] in t[current].children;
      } else {
        assert q in queue <==> q in queue[1..];
      }
    }
  }

  /** Linking one child of `current` and queueing it keeps the pass's invariant. */
  lemma LinkStep(t: NodeMap, kws: map<string, seq<CallbackId>>, queue: seq<string>,
                 current: string, pending: set<char>, c: char, target: string)
    requires Expanding(t, kws, queue, current, pending) && c in pending
    requires target in t && target == LongestSuffixIn(t.Keys, (current + [c])[1..])
    requires target == [] || t[target].fail.Some?
    ensures current + [c] in t && t[current + [c]].fail.None? && t[current].children[c] == current + [c]
    ensures var t' := LinkNode(t, current + [c], target);
      && Expanding(t', kws, queue + [current + [c]], current, pending - {c})
      && t'.Keys == t.Keys
  {
    var child := current + [c];
    assert child[..|child| - 1] == current && child[|child| - 1] == c;
    assert child in t;
    assert t[child].fail.None?;
    var t' := LinkNode(t, child, target);
    LinkShape(t, child, target);
    LinkedChild(t, kws, child, target);
    LinkKeepsLinks(t, kws, child, target);
    LinkQueue(t, queue, current, c, target);
    LinkFrontier(t, queue, current, pending, c, target);
    assert t'[current] == t[current];
  }

  lemma LinkShape(t: NodeMap, child: string, target: string)
    requires TrieShape(t) && child in t && target in t && child != []
    ensures var t' := LinkNode(t, child, target);
      && TrieShape(t') && t'.Keys == t.Keys
      && (forall p :: p in t && p != child ==> t'[p] == t[p])
  {
    LinkNodeKeeps(t, child, target);
    SameShape(t, LinkNode(t, child, target));
  }

  /** Linking a node changes that node's link and output and nothing else. */
  lemma LinkNodeKeeps(t: NodeMap, child: string, target: string)
    requires child in t && target in t
    ensures var t' := LinkNode(t, child, target);
      && t'.Keys == t.Keys
      && (forall p :: p in t ==> t'[p].children == t[p].children)
      && (forall p :: p in t && p != child ==> t'[p] == t[p])
  {
  }

  /** The newly linked child gets the right link and output. */
  lemma LinkedChild(t: NodeMap, kws: map<string, seq<CallbackId>>, child: string, target: string)
    requires RootLinked(t) && LinksCorrect(t, kws) && UnlinkedOwn(t, kws)
    requires forall k :: k in kws ==> k in t
    requires child in t && child != [] && t[child].fail.None?
    requires target in t && target == LongestSuffixIn(t.Keys, child[1..])
    requires target == [] || t[target].fail.Some?
    ensures Linked(LinkNode(t, child, target), kws, child)
  {
    var t' := LinkNode(t, child, target);
    assert t'.Keys == t.Keys;
    KeywordSuffixesOfLongest(kws, t.Keys, child[1..]);
    if target != [] {
      assert Linked(t, kws, target);
    }
    assert t[target].output == KeywordSuffixes(kws, target);
    assert KeywordSuffixes(kws, child) == Own(kws, child) + KeywordSuffixes(kws, child[1..]);
  }

  lemma LinkKeepsLinks(t: NodeMap, kws: map<string, seq<CallbackId>>, child: string, target: string)
    requires RootLinked(t) && LinksCorrect(t, kws) && UnlinkedOwn(t, kws)
    requires forall k :: k in kws ==> k in t
    requires child in t && child != [] && t[child].fail.None?
    requires target in t && target == LongestSuffixIn(t.Keys, child[1..])
    requires target == [] || t[target].fail.Some?
    ensures var t' := LinkNode(t, child, target);
      RootLinked(t') && LinksCorrect(t', kws) && UnlinkedOwn(t', kws)
  {
    var t' := LinkNode(t, child, target);
    assert t'.Keys == t.Keys;
    LinkedChild(t, kws, child, target);
    forall p | p in t' && p != [] && t'[p].fail.Some? ensures Linked(t', kws, p) {
      if p != child {
        assert t'[p] == t[p] && Linked(t, kws, p);
      }
    }
    forall p | p in t' && t'[p].fail.None? ensures t'[p].output == Own(kws, p) {
      assert p != child;
      assert t'[p] == t[p];
    }
  }

  lemma LinkQueue(t: NodeMap, queue: seq<string>, current: string, c: char, target: string)
    requires QueueOk(t, queue) && current + [c] in t && t[current + [c]].fail.None? && target in t
    requires forall i :: 0 <= i < |queue| ==> |current| <= |queue[i]| <= |current| + 1
    ensures var t' := LinkNode(t, current + [c], target);
      && QueueOk(t', queue + [current + [c]])
      && forall i :: 0 <= i < |queue + [current + [c]]| ==>
           |current| <= |(queue + [current + [c]])[i]| <= |current| + 1
  {
    var child := current + [c];
    var t' := LinkNode(t, child, target);
    var q := queue + [child];
    forall i | 0 <= i < |queue| ensures queue[i] != child && t'[queue[i]] == t[queue[i]] {
    }
    forall i, j | 0 <= i < j < |q| ensures q[i] != q[j] {
      if j == |queue| {
        assert q[i] == queue[i] && q[j] == child;
      } else {
        assert q[i] == queue[i] && q[j] == queue[j];
      }
    }
  }

  lemma LinkFrontier(t: NodeMap, queue: seq<string>, current: string, pending: set<char>, c: char, target: string)
    requires PrefixClosed(t.Keys) && Frontier(t, queue, current, pending)
    requires current in t && t[current].fail.Some? && current !in queue && c in pending
    requires current + [c] in t && target in t
    ensures var t' := LinkNode(t, current + [c], target);
      && t'.Keys == t.Keys
      && Frontier(t', queue + [current + [c]], current, pending - {c})
  {
    var child := current + [c];
    var t' := LinkNode(t, child, target);
    assert t'.Keys == t.Keys;
    assert child[..|child| - 1] == current && child[|child| - 1] == c;
    forall p | p in t' && p != []
      ensures t'[p].fail.Some? <==>
                && t'[p[..|p| - 1]].fail.Some?
                && p[..|p| - 1] !in queue + [child]
                && !(p[..|p| - 1] == current && p[|p| - 1] in pending - {c})
    {
      var q := p[..|p| - 1];
      if p == child {
        assert q !in queue + [child];
      } else {
        assert t'[p] == t[p];
        if q == child {
          assert q in queue + [child];
        } else {
          assert t'[q] == t[q];
          assert q in queue <==> q in queue + [child];
          if q == current {
            ParentLast(p);
            assert p[|p| - 1] != c;
          }
        }
      }
    }
  }

  /** Once every node is linked, the trie is compiled. */
  lemma FinishInv(t: NodeMap, kws: map<string, seq<CallbackId>>)
    requires [] !in kws && TrieShape(t) && RootLinked(t) && LinksCorrect(t, kws)
    requires forall p :: p in t <==> IsTriePath(kws.Keys, p)
    requires forall p :: p in t ==> t[p].fail.Some?
    ensures Compiled(t, kws)
  {
    assert forall p :: p in t && p != [] ==> Linked(t, kws, p);
  }

  /** With nothing left in the queue, every node is linked. */
  lemma AllLinked(t: NodeMap, current: string)
    requires RootLinked(t) && PrefixClosed(t.Keys) && Frontier(t, [], current, {})
    ensures forall p :: p in t ==> t[p].fail.Some?
  {
    forall p | p in t ensures t[p].fail.Some? {
      ShallowLinked(t, [], current, {}, |p|);
    }
  }

  /** The nodes of the trie are exactly the prefixes of the keywords. */
  lemma TriePaths(t0: NodeMap, kws: map<string, seq<CallbackId>>)
    requires Building(t0, kws, kws.Keys, [])
    ensures forall p :: p in t0 <==> IsTriePath(kws.Keys, p)
  {
    forall p ensures p in t0 <==> IsTriePath(kws.Keys, p) {
      if IsTriePath(kws.Keys, p) && p != [] {
        var k :| k in kws && p <= k;
        assert p == k[..|p|];
      }
    }
  }

  /** The failure-link walk of `compile()` is ready to run from `current`:
      every node no deeper than `current` is linked. */
  ghost predicate WalkReady(t: NodeMap, current: string) {
    && TrieShape(t) && t[[]].fail == Some([])
    && current in t && current != []
    && forall p :: p in t && p != [] && |p| <= |current| ==> t[p].fail == Some(LongestSuffixIn(t.Keys, p[1..]))
  }

  /** Breadth-first order makes the walk from `current` ready to run. */
  lemma ReadyToWalk(t: NodeMap, kws: map<string, seq<CallbackId>>, queue: seq<string>,
                    current: string, pending: set<char>)
    requires Expanding(t, kws, queue, current, pending) && current != []
    ensures WalkReady(t, current)
  {
    ShallowLinked(t, queue, current, pending, |current|);
    forall p | p in t && p != [] && |p| <= |current|
      ensures t[p].fail == Some(LongestSuffixIn(t.Keys, p[1..]))
    {
      assert Linked(t, kws, p);
    }
  }

  /** Follow failure links from `current.fail` until a node with a `c` child
      (or the root) is reached; the result is `failure.children.get(c, root)`,
      the longest path that is a proper suffix of `current + [c]`. */
  method FollowFailures(t: NodeMap, current: string, c: char) returns (target: string)
    requires WalkReady(t, current)
    ensures target in t && target == LongestSuffixIn(t.Keys, (current + [c])[1..])
  {
    var failure := t[current].fail.value;
    SearchStart(t.Keys, current[1..], c);
    while failure != [] && c !in t[failure].children
      invariant failure in t && Searching(t.Keys, current[1..], c, failure)
      decreases |failure|
    {
      WalkStep(t, current, c, failure);
      failure := t[failure].fail.value;
    }
    target := if c in t[failure].children then t[failure].children[c] else [];
    WalkDone(t, current, c, failure);
  }

  /** Following one failure link keeps the walk's invariant and gets shorter. */
  lemma WalkStep(t: NodeMap, current: string, c: char, failure: string)
    requires WalkReady(t, current) && failure in t && Searching(t.Keys, current[1..], c, failure)
    requires failure != [] && c !in t[failure].children
    ensures t[failure].fail.Some? && t[failure].fail.value in t
    ensures Searching(t.Keys, current[1..], c, t[failure].fail.value)
    ensures |t[failure].fail.value| < |failure|
  {
    MissingChild(t, failure, c);
    SearchStep(t.Keys, current[1..], c, failure);
    assert t[failure].fail == Some(LongestSuffixIn(t.Keys, failure[1..]));
  }

  /** Where the walk stops, `failure.children.get(c, root)` is the failure link of `current + [c]`. */
  lemma WalkDone(t: NodeMap, current: string, c: char, failure: string)
    requires WalkReady(t, current) && failure in t && Searching(t.Keys, current[1..], c, failure)
    requires failure == [] || c in t[failure].children
    ensures var target := if c in t[failure].children then t[failure].children[c] else [];
      target in t && target == LongestSuffixIn(t.Keys, (current + [c])[1..])
  {
    if c in t[failure].children {
      assert t[failure].children[c] == failure + [c] && failure + [c] in t;
    } else {
      MissingChild(t, failure, c);
    }
    SearchDone(t.Keys, current[1..], c, failure);
    TailAppend(current, c);
  }

  /** The state in which `current`, just taken off the queue, is expanded. */
  ghost predicate Expanding(t: NodeMap, kws: map<string, seq<CallbackId>>, queue: seq<string>,
                            current: string, pending: set<char>) {
    && BfsInv(t, kws, queue, current, pending)
    && current in t && t[current].fail.Some? && current !in queue
    && pending <= t[current].children.Keys
    && (forall i :: 0 <= i < |queue| ==> |current| <= |queue[i]| <= |current| + 1)
  }

  /** One round of the inner loop of `compile()`'s breadth-first pass: link the
      child of `current` along `c`, merge its output, and queue it. */
  method LinkChild(t0: NodeMap, queue0: seq<string>, current: string, c: char,
                   ghost kws: map<string, seq<CallbackId>>, ghost pending: set<char>)
    returns (t: NodeMap, queue: seq<string>)
    requires Expanding(t0, kws, queue0, current, pending) && c in pending && current != []
    ensures Expanding(t, kws, queue, current, pending - {c})
    ensures t.Keys == t0.Keys && queue == queue0 + [current + [c]]
    ensures t0[current + [c]].fail.None? && t[current + [c]].fail.Some?
    ensures forall p :: p in t && p != current + [c] ==> t[p] == t0[p]
  {
    t := t0;
    var child := t[current].children[c];
    ReadyToWalk(t, kws, queue0, current, pending);
    var target := FollowFailures(t, current, c);
    LinkStep(t, kws, queue0, current, pending, c, target);
    var node := t[child].(fail := Some(target));
    node := node.(output := node.output + t[node.fail.value].output);
    t := t[child := node];
    queue := queue0 + [child];
  }

  /** A child of the root links to the root, and its output gains nothing. */
  lemma RootChildLink(t: NodeMap, kws: map<string, seq<CallbackId>>, queue: seq<string>, pending: set<char>, c: char)
    requires Expanding(t, kws, queue, [], pending) && c in pending
    ensures t[[]].children[c] == [c]
    ensures var child := t[[]].children[c];
            && Expanding(t[child := t[child].(fail := Some([]))], kws, queue + [child], [], pending - {c})
            && t[child := t[child].(fail := Some([]))].Keys == t.Keys
  {
    assert [c][1..] == [];
    assert LongestSuffixIn(t.Keys, []) == [];
    assert [] + [c] == [c];
    LinkStep(t, kws, queue, [], pending, c, []);
    assert t[[c]].output + t[[]].output == t[[c]].output;
  }

  /** One round of `compile()`'s loop over the root's children: the child along
      `c` links to the root and is queued. */
  method LinkRootChild(t0: NodeMap, queue0: seq<string>, c: char,
                       ghost kws: map<string, seq<CallbackId>>, ghost pending: set<char>)
    returns (t: NodeMap, queue: seq<string>)
    requires Expanding(t0, kws, queue0, [], pending) && c in pending
    ensures Expanding(t, kws, queue, [], pending - {c}) && t.Keys == t0.Keys
    ensures queue == queue0 + [[c]] && t == t0[[c] := t0[[c]].(fail := Some([]))]
  {
    var child := t0[[]].children[c];
    RootChildLink(t0, kws, queue0, pending, c);
    t := t0[child := t0[child].(fail := Some([]))];
    queue := queue0 + [child];
  }

  /** `compile()`'s loop over the root's children: each links to the root and is queued. */
  method LinkRootChildren(t0: NodeMap, ghost kws: map<string, seq<CallbackId>>) returns (t: NodeMap, queue: seq<string>)
    requires [] in t0 && Expanding(t0, kws, [], [], t0[[]].children.Keys)
    ensures Expanding(t, kws, queue, [], {}) && t.Keys == t0.Keys
  {
    t, queue := t0, [];
    var rootKids := t[[]].children.Keys;
    while rootKids != {}
      invariant Expanding(t, kws, queue, [], rootKids) && t.Keys == t0.Keys
      decreases |rootKids|
    {
      var c :| c in rootKids;
      t, queue := LinkRootChild(t, queue, c, kws, rootKids);
      rootKids := rootKids - {c};
    }
  }

  /** Every node whose link is not set yet is in `unset`. */
  ghost predicate Covers(t: NodeMap, unset: set<string>) {
    forall p :: p in t && t[p].fail.None? ==> p in unset
  }

  lemma CoversAfterLink(t0: NodeMap, t: NodeMap, child: string, unset: set<string>)
    requires Covers(t0, unset) && t.Keys == t0.Keys && child in t0 && t0[child].fail.None?
    requires t[child].fail.Some? && forall p :: p in t && p != child ==> t[p] == t0[p]
    ensures Covers(t, unset - {child}) && |unset - {child}| == |unset| - 1
  {
  }

  /** The inner loop of `compile()`'s breadth-first pass: link every child of
      `current` and queue it. */
  method ExpandNode(t0: NodeMap, queue0: seq<string>, current: string,
                    ghost kws: map<string, seq<CallbackId>>, ghost unset0: set<string>)
    returns (t: NodeMap, queue: seq<string>, ghost unset: set<string>)
    requires current in t0 && current != [] && Expanding(t0, kws, queue0, current, t0[current].children.Keys)
    requires Covers(t0, unset0)
    ensures Expanding(t, kws, queue, current, {}) && t.Keys == t0.Keys
    ensures Covers(t, unset) && |unset| <= |unset0| && |unset| + |queue| == |unset0| + |queue0|
  {
    t, queue, unset := t0, queue0, unset0;
    var kids := t[current].children.Keys;
    while kids != {}
      invariant Expanding(t, kws, queue, current, kids) && t.Keys == t0.Keys
      invariant Covers(t, unset) && |unset| <= |unset0| && |unset| + |queue| == |unset0| + |queue0|
      decreases |kids|
    {
      var c :| c in kids;
      ghost var before := t;
      t, queue := LinkChild(t, queue, current, c, kws, kids);
      CoversAfterLink(before, t, current + [c], unset);
      kids := kids - {c};
      unset := unset - {current + [c]};
    }
  }

  /** `compile()` from `root.fail = root` to the end of its breadth-first loop. */
  method LinkFailures(t0: NodeMap, ghost kws: map<string, seq<CallbackId>>) returns (t: NodeMap)
    requires Building(t0, kws, kws.Keys, []) && [] !in kws
    ensures Compiled(t, kws)
  {
    StartInv(t0, kws);
    t := t0[[] := t0[[]].(fail := Some([]))];
    var queue: seq<string>;
    t, queue := LinkRootChildren(t, kws);
    ghost var unset := t.Keys;
    ghost var last: string := [];
    while queue != []
      invariant Expanding(t, kws, queue, last, {}) && t.Keys == t0.Keys
      invariant Covers(t, unset)
      decreases |unset|, |queue|
    {
      var current := queue[0];
      PopInv(t, kws, queue, last);
      queue := queue[1..];
      t, queue, unset := ExpandNode(t, queue, current, kws, unset);
      last := current;
    }
    AllLinked(t, last);
    TriePaths(t0, kws);
    FinishInv(t, kws);
  }
}
