/** The first pass of `compile()` (`src/llm_stream_processor/engine/registry.py`):
    inserting every keyword into a fresh trie. */
module TrieBuild {
  import opened Wrappers
  import opened Trie
  import opened Automaton

  /** State of the trie-building pass: the keywords in `done` are inserted and
      the prefixes of `kw` inserted so far are the only other paths. */
  ghost predicate Building(t: NodeMap, kws: map<string, seq<CallbackId>>, done: set<string>, kw: string) {
    && done <= kws.Keys
    && TrieShape(t)
    && NoLinks(t)
    && InsertedOutputs(t, kws, done)
    && HoldsPrefixes(t, done)
    && PathsWithin(t, done, kw)
  }

  /** No failure link is set yet. */
  ghost predicate NoLinks(t: NodeMap) {
    forall p :: p in t ==> t[p].fail == None
  }

  /** Each inserted keyword's node carries its own entry, and no other node has output. */
  ghost predicate InsertedOutputs(t: NodeMap, kws: map<string, seq<CallbackId>>, done: set<string>)
    requires done <= kws.Keys
  {
    forall p :: p in t ==> t[p].output == (if p in done then [Entry(p, kws[p])] else [])
  }

  /** Every prefix of every inserted keyword is a node. */
  ghost predicate HoldsPrefixes(t: NodeMap, done: set<string>) {
    forall k, j :: k in done && 0 <= j <= |k| ==> k[..j] in t
  }

  /** Every node is a prefix of an inserted keyword or of `kw`. */
  ghost predicate PathsWithin(t: NodeMap, done: set<string>, kw: string) {
    forall p :: p in t ==> IsTriePath(done, p) || p <= kw
  }

  /** A fresh root alone is the trie of no keywords. */
  lemma EmptyBuilding(kws: map<string, seq<CallbackId>>)
    ensures Building(map[[] := NewNode()], kws, {}, [])
  {
    var t := map[[] := NewNode()];
    assert PrefixClosed(t.Keys);
  }

  /** `node.children.setdefault(ch, _Node())` when `ch` is missing. */
  function AddChild(t: NodeMap, node: string, ch: char): NodeMap
    requires node in t
  {
    t[node := t[node].(children := t[node].children[ch := node + [ch]])][node + [ch] := NewNode()]
  }

  lemma AddChildShape(t: NodeMap, node: string, ch: char)
    requires TrieShape(t) && node in t && node + [ch] !in t
    ensures var t' := AddChild(t, node, ch);
      && TrieShape(t') && t'.Keys == t.Keys + {node + [ch]}
      && ch in t'[node].children && t'[node].children[ch] == node + [ch]
      && forall p :: p in t && p != node ==> t'[p] == t[p]
  {
    AddChildClosed(t, node, ch);
    AddChildLinks(t, node, ch);
    AddChildComplete(t, node, ch);
    AddChildKeeps(t, node, ch);
  }

  /** Adding a child changes no node but its parent. */
  lemma AddChildKeeps(t: NodeMap, node: string, ch: char)
    requires node in t && node + [ch] !in t
    ensures var t' := AddChild(t, node, ch);
      && t'.Keys == t.Keys + {node + [ch]}
      && ch in t'[node].children && t'[node].children[ch] == node + [ch]
      && forall p :: p in t && p != node ==> t'[p] == t[p]
  {
  }

  lemma AddChildClosed(t: NodeMap, node: string, ch: char)
    requires [] in t && PrefixClosed(t.Keys) && node in t
    ensures PrefixClosed(AddChild(t, node, ch).Keys)
  {
    var child := node + [ch];
    var t' := AddChild(t, node, ch);
    forall p | p in t'.Keys && p != [] ensures p[..|p| - 1] in t'.Keys {
      if p == child {
        assert child[..|child| - 1] == node;
      } else {
        assert p in t.Keys;
      }
    }
  }

  lemma AddChildLinks(t: NodeMap, node: string, ch: char)
    requires ChildLinks(t) && node in t
    ensures ChildLinks(AddChild(t, node, ch))
  {
    var child := node + [ch];
    var t' := AddChild(t, node, ch);
    forall p, c | p in t' && c in t'[p].children ensures t'[p].children[c] == p + [c] && p + [c] in t' {
      if p != child && p != node {
        assert t'[p] == t[p];
      }
    }
  }

  lemma AddChildComplete(t: NodeMap, node: string, ch: char)
    requires ChildrenComplete(t) && PrefixClosed(t.Keys) && node in t && node + [ch] !in t
    ensures ChildrenComplete(AddChild(t, node, ch))
  {
    var t' := AddChild(t, node, ch);
    forall p, c | p in t' && p + [c] in t' ensures c in t'[p].children {
      AddChildCompleteAt(t, node, ch, p, c);
    }
  }

  lemma AddChildCompleteAt(t: NodeMap, node: string, ch: char, p: string, c: char)
    requires node in t && node + [ch] !in t
    requires p in t && p + [c] in t ==> c in t[p].children
    requires forall q :: q in t && q != [] ==> q[..|q| - 1] in t
    requires p in AddChild(t, node, ch) && p + [c] in AddChild(t, node, ch)
    ensures c in AddChild(t, node, ch)[p].children
  {
    var child := node + [ch];
    if p + [c] == child {
      assert p == (p + [c])[..|p|] == child[..|node|] == node;
      assert c == (p + [c])[|p|] == child[|node|] == ch;
    }
  }

  lemma MissingChild(t: NodeMap, node: string, ch: char)
    requires ChildrenComplete(t) && node in t && ch !in t[node].children
    ensures node + [ch] !in t
  {
  }

  lemma AddChildKeepsBuilding(t: NodeMap, kws: map<string, seq<CallbackId>>, done: set<string>, kw: string, i: nat)
    requires Building(t, kws, done, kw) && i < |kw| && kw[..i] in t && kw !in done
    requires kw[i] !in t[kw[..i]].children
    ensures var t' := AddChild(t, kw[..i], kw[i]);
      && Building(t', kws, done, kw) && t.Keys + {kw[..i + 1]} == t'.Keys
      && kw[i] in t'[kw[..i]].children && t'[kw[..i]].children[kw[i]] == kw[..i + 1]
  {
    var node, ch := kw[..i], kw[i];
    var child := node + [ch];
    PrefixStep(kw, i);
    MissingChild(t, node, ch);
    AddChildShape(t, node, ch);
    AddChildNoLinks(t, node, ch);
    AddChildOutputs(t, kws, done, node, ch);
    AddChildPrefixes(t, done, node, ch);
    AddChildPaths(t, done, kw, i);
  }

  /** Adding a node keeps every node, so the prefixes of inserted keywords stay. */
  lemma AddChildPrefixes(t: NodeMap, done: set<string>, node: string, ch: char)
    requires HoldsPrefixes(t, done) && node in t
    ensures HoldsPrefixes(AddChild(t, node, ch), done)
  {
  }

  /** A new child has no failure link, so none is set yet. */
  lemma AddChildNoLinks(t: NodeMap, node: string, ch: char)
    requires NoLinks(t) && node in t
    ensures NoLinks(AddChild(t, node, ch))
  {
    var t' := AddChild(t, node, ch);
    forall p | p in t' ensures t'[p].fail == None {
      if p != node + [ch] && p != node {
        assert t'[p] == t[p];
      }
    }
  }

  /** A new child that is no inserted keyword has no output. */
  lemma AddChildOutputs(t: NodeMap, kws: map<string, seq<CallbackId>>, done: set<string>, node: string, ch: char)
    requires done <= kws.Keys && InsertedOutputs(t, kws, done) && HoldsPrefixes(t, done)
    requires node in t && node + [ch] !in t
    ensures InsertedOutputs(AddChild(t, node, ch), kws, done)
  {
    var t' := AddChild(t, node, ch);
    var child := node + [ch];
    assert child !in done by {
      assert child[..|child|] == child;
    }
    forall p | p in t' ensures t'[p].output == (if p in done then [Entry(p, kws[p])] else []) {
      if p != node + [ch] && p != node {
        assert t'[p] == t[p];
      }
    }
  }

  /** The child added along `kw` is a prefix of `kw`. */
  lemma AddChildPaths(t: NodeMap, done: set<string>, kw: string, i: nat)
    requires PathsWithin(t, done, kw) && i < |kw| && kw[..i] in t
    ensures PathsWithin(AddChild(t, kw[..i], kw[i]), done, kw)
  {
    var t' := AddChild(t, kw[..i], kw[i]);
    PrefixStep(kw, i);
    forall p | p in t' ensures IsTriePath(done, p) || p <= kw {
      if p == kw[..i] + [kw[i]] {
        assert p <= kw;
      }
    }
  }


  /** Marking the node of `kw` with its entry completes the insertion of `kw`. */
  lemma FinishKeyword(t: NodeMap, kws: map<string, seq<CallbackId>>, done: set<string>, kw: string)
    requires Building(t, kws, done, kw) && kw in kws && kw !in done && kw in t
    ensures var t' := t[kw := t[kw].(output := t[kw].output + [Entry(kw, kws[kw])])];
      Building(t', kws, done + {kw}, [])
  {
    var t' := t[kw := t[kw].(output := t[kw].output + [Entry(kw, kws[kw])])];
    SameLinks(t, t');
    FinishOutputs(t, kws, done, kw);
    FinishPrefixes(t, t', done, kw);
    PathsFinished(t, done, kw);
  }

  /** The entry of `kw` becomes the only output of its node. */
  lemma FinishOutputs(t: NodeMap, kws: map<string, seq<CallbackId>>, done: set<string>, kw: string)
    requires done <= kws.Keys && InsertedOutputs(t, kws, done) && kw in kws && kw !in done && kw in t
    ensures var t' := t[kw := t[kw].(output := t[kw].output + [Entry(kw, kws[kw])])];
      InsertedOutputs(t', kws, done + {kw})
  {
  }

  /** Every prefix of `kw` is already a node when its insertion completes. */
  lemma FinishPrefixes(t: NodeMap, t': NodeMap, done: set<string>, kw: string)
    requires HoldsPrefixes(t, done) && PrefixClosed(t.Keys) && kw in t && t'.Keys == t.Keys
    ensures HoldsPrefixes(t', done + {kw})
  {
    PrefixesIn(t.Keys, kw);
  }

  /** Changing outputs only keeps the shape of the trie and its missing links. */
  lemma SameLinks(t: NodeMap, t': NodeMap)
    requires TrieShape(t) && NoLinks(t) && t'.Keys == t.Keys
    requires forall p :: p in t ==> t'[p].children == t[p].children && t'[p].fail == t[p].fail
    ensures TrieShape(t') && NoLinks(t')
  {
    SameShape(t, t');
  }

  /** The shape of a trie is in its nodes and their children alone. */
  lemma SameShape(t: NodeMap, t': NodeMap)
    requires TrieShape(t) && t'.Keys == t.Keys
    requires forall p :: p in t ==> t'[p].children == t[p].children
    ensures TrieShape(t')
  {
    assert ChildLinks(t');
    assert ChildrenComplete(t');
  }

  /** Once `kw` is inserted, every node is a prefix of an inserted keyword. */
  lemma PathsFinished(t: NodeMap, done: set<string>, kw: string)
    requires PathsWithin(t, done, kw)
    ensures PathsWithin(t, done + {kw}, [])
  {
    forall p | p in t ensures IsTriePath(done + {kw}, p) || p <= [] {
      if !IsTriePath(done, p) {
        assert kw in done + {kw} && p <= kw;
      } else if p != [] {
        var k :| k in done && p <= k;
        assert k in done + {kw};
      }
    }
  }


  /** One round of `compile()`'s first loop: walk down from the root along `kw`,
      creating missing children, and append `kw`'s entry to the node reached. */
  method InsertKeyword(t0: NodeMap, kws: map<string, seq<CallbackId>>, ghost done: set<string>, kw: string)
    returns (t: NodeMap)
    requires Building(t0, kws, done, []) && kw in kws && kw !in done
    ensures Building(t, kws, done + {kw}, [])
  {
    t := t0;
    assert PathsWithin(t, done, kw);
    var node: string := [];
    for i := 0 to |kw|
      invariant node == kw[..i] && node in t
      invariant Building(t, kws, done, kw)
    {
      var ch := kw[i];
      if ch !in t[node].children {
        AddChildKeepsBuilding(t, kws, done, kw, i);
        t := AddChild(t, node, ch);
      }
      PrefixStep(kw, i);
      assert t[node].children[ch] == kw[..i + 1];
      node := t[node].children[ch];
    }
    assert node == kw;
    FinishKeyword(t, kws, done, kw);
    t := t[node := t[node].(output := t[node].output + [Entry(kw, kws[kw])])];
  }

  /** `n` is the length of the longest key, or 0 when there is none. */
  ghost predicate IsMaxLen(keys: set<string>, n: nat) {
    && (forall k :: k in keys ==> |k| <= n)
    && (keys == {} ==> n == 0)
    && (keys != {} ==> exists k :: k in keys && |k| == n)
  }

  /** `max_len = max(max_len, len(kw))` keeps `max_len` the longest length so far. */
  lemma MaxLenStep(done: set<string>, longest: nat, kw: string)
    requires IsMaxLen(done, longest)
    ensures IsMaxLen(done + {kw}, if |kw| > longest then |kw| else longest)
  {
    if |kw| <= longest && done == {} {
      assert longest == 0 && |kw| == 0;
    }
  }

  /** Moving one element from `todo` to `done` keeps the two a partition of `all`. */
  lemma MoveOne(todo: set<string>, done: set<string>, all: set<string>, x: string)
    requires todo !! done && todo + done == all && x in todo
    ensures (todo - {x}) !! (done + {x}) && (todo - {x}) + (done + {x}) == all
    ensures |todo - {x}| < |todo|
  {
  }

  /** `compile()`'s first loop: insert every keyword, in some order, into a fresh
      trie, tracking the longest keyword length. */
  method BuildTrie(kws: map<string, seq<CallbackId>>) returns (t: NodeMap, longest: nat)
    ensures Building(t, kws, kws.Keys, []) && IsMaxLen(kws.Keys, longest)
  {
    t := map[[] := NewNode()];
    EmptyBuilding(kws);
    longest := 0;
    var todo := kws.Keys;
    ghost var done: set<string> := {};
    while todo != {}
      invariant todo !! done && todo + done == kws.Keys
      invariant Building(t, kws, done, [])
      invariant IsMaxLen(done, longest)
      decreases |todo|
    {
      var kw :| kw in todo;
      MaxLenStep(done, longest, kw);
      longest := if |kw| > longest then |kw| else longest;
      t := InsertKeyword(t, kws, done, kw);
      MoveOne(todo, done, kws.Keys, kw);
      todo := todo - {kw};
      done := done + {kw};
    }
  }
}
