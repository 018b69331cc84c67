/** What a compiled Aho–Corasick trie means: the reference definitions that the
    registry's `compile` establishes and the processor's transition relies on. */
module Automaton {
  import opened Wrappers
  import opened Trie

  /** `s` is a suffix of `t`. */
  predicate IsSuffix<T(==)>(s: seq<T>, t: seq<T>) {
    |s| <= |t| && t[|t| - |s|..] == s
  }

  lemma SuffixOfTail<T>(x: seq<T>, s: seq<T>)
    requires IsSuffix(x, s) && x != s
    ensures |s| > 0 && IsSuffix(x, s[1..])
  {
  }

  lemma SuffixTrans<T>(x: seq<T>, y: seq<T>, z: seq<T>)
    requires IsSuffix(x, y) && IsSuffix(y, z)
    ensures IsSuffix(x, z)
  {
    assert z[|z| - |x|..] == z[|z| - |y|..][|y| - |x|..];
  }

  /** Of two suffixes of one sequence, the shorter is a suffix of the longer. */
  lemma SuffixesNest<T>(x: seq<T>, y: seq<T>, s: seq<T>)
    requires IsSuffix(x, s) && IsSuffix(y, s) && |x| <= |y|
    ensures IsSuffix(x, y)
  {
    assert y[|y| - |x|..] == s[|s| - |y|..][|y| - |x|..];
  }

  lemma SuffixAppend<T>(x: seq<T>, s: seq<T>, c: T)
    requires IsSuffix(x, s)
    ensures IsSuffix(x + [c], s + [c])
  {
    assert (s + [c])[|s| + 1 - (|x| + 1)..] == s[|s| - |x|..] + [c];
  }

  /** A non-empty suffix of `s + [c]` is a suffix of `s` followed by `c`. */
  lemma SuffixSplit<T>(x: seq<T>, s: seq<T>, c: T)
    requires IsSuffix(x, s + [c]) && x != []
    ensures x == x[..|x| - 1] + [c] && IsSuffix(x[..|x| - 1], s)
  {
    var y := x[..|x| - 1];
    assert x == y + [x[|x| - 1]];
    assert s[|s| - |y|..] == (s + [c])[|s| + 1 - |x|..][..|y|];
  }

  /** Dropping the first element commutes with appending one. */
  lemma TailAppend<T>(s: seq<T>, c: T)
    requires s != []
    ensures (s + [c])[1..] == s[1..] + [c]
  {
  }

  /** Extending a prefix by the next character gives the next prefix. */
  lemma PrefixStep<T>(s: seq<T>, i: nat)
    requires i < |s|
    ensures s[..i] + [s[i]] == s[..i + 1]
  {
  }

  /** Every non-empty member has its parent (the member minus its last character). */
  ghost predicate PrefixClosed(S: set<string>) {
    forall p :: p in S && p != [] ==> p[..|p| - 1] in S
  }

  /** Every prefix of a member of a prefix-closed set is a member. */
  lemma {:induction false} PrefixesIn(S: set<string>, p: string)
    requires PrefixClosed(S) && p in S
    ensures forall j :: 0 <= j <= |p| ==> p[..j] in S
    decreases |p|
  {
    if p != [] {
      var q := p[..|p| - 1];
      PrefixesIn(S, q);
      forall j | 0 <= j <= |p| ensures p[..j] in S {
        if j < |p| {
          assert p[..j] == q[..j];
        } else {
          assert p[..j] == p;
        }
      }
    }
  }

  /** The longest suffix of `s` that belongs to `S`. */
  function LongestSuffixIn(S: set<string>, s: string): (r: string)
    requires [] in S
    ensures r in S && IsSuffix(r, s)
    ensures forall x :: IsSuffix(x, s) && x in S ==> |x| <= |r|
    decreases |s|
  {
    if s in S then s
    else
      var r := LongestSuffixIn(S, s[1..]);
      assert forall x :: IsSuffix(x, s) && x in S ==> IsSuffix(x, s[1..]) by {
        forall x | IsSuffix(x, s) && x in S ensures IsSuffix(x, s[1..]) {
          SuffixOfTail(x, s);
        }
      }
      SuffixTrans(r, s[1..], s);
      r
  }

  /** The contract above pins the function down: any suffix in `S` that no
      longer suffix in `S` beats is the result. */
  lemma LongestSuffixUnique(S: set<string>, s: string, r: string)
    requires [] in S && r in S && IsSuffix(r, s)
    requires forall x :: IsSuffix(x, s) && x in S ==> |x| <= |r|
    ensures LongestSuffixIn(S, s) == r
  {
    var l := LongestSuffixIn(S, s);
    assert |l| == |r|;
  }

  /** The entry a node contributes by itself: its keyword, if its path is one. */
  function Own(kws: map<string, seq<CallbackId>>, p: string): (r: seq<Entry>)
    ensures |r| <= 1
    ensures p in kws ==> r == [Entry(p, kws[p])]
    ensures p !in kws ==> r == []
  {
    if p in kws then [Entry(p, kws[p])] else []
  }

  /** The entries of every non-empty keyword that is a suffix of `p`, longest first. */
  function KeywordSuffixes(kws: map<string, seq<CallbackId>>, p: string): (r: seq<Entry>)
    ensures forall i :: 0 <= i < |r| ==>
      && r[i].keyword in kws && r[i].callbacks == kws[r[i].keyword]
      && IsSuffix(r[i].keyword, p) && r[i].keyword != []
    ensures forall i, j :: 0 <= i < j < |r| ==> |r[i].keyword| > |r[j].keyword|
    ensures forall k :: k in kws && k != [] && IsSuffix(k, p) ==> Entry(k, kws[k]) in r
    decreases |p|
  {
    if p == [] then []
    else
      var rest := KeywordSuffixes(kws, p[1..]);
      forall k | k in kws && k != [] && IsSuffix(k, p) && k != p ensures Entry(k, kws[k]) in rest {
        SuffixOfTail(k, p);
      }
      forall i | 0 <= i < |rest| ensures IsSuffix(rest[i].keyword, p) {
        SuffixTrans(rest[i].keyword, p[1..], p);
      }
      Own(kws, p) + rest
  }

  /** Walking down to the longest suffix that is a trie path loses no keyword:
      every keyword is a trie path. */
  lemma {:induction false} KeywordSuffixesOfLongest(kws: map<string, seq<CallbackId>>, S: set<string>, s: string)
    requires [] in S
    requires forall k :: k in kws ==> k in S
    ensures KeywordSuffixes(kws, LongestSuffixIn(S, s)) == KeywordSuffixes(kws, s)
    decreases |s|
  {
    if s !in S {
      assert s != [] && s !in kws;
      assert LongestSuffixIn(S, s) == LongestSuffixIn(S, s[1..]);
      assert KeywordSuffixes(kws, s) == [] + KeywordSuffixes(kws, s[1..]);
      KeywordSuffixesOfLongest(kws, S, s[1..]);
    }
  }

  /** Every member is `[]` or a prefix of some keyword. */
  ghost predicate IsTriePath(keys: set<string>, p: string) {
    p == [] || exists k :: k in keys && p <= k
  }

  /** The structural invariant of a trie: a root, closed under parents, and a
      child under `c` exactly where the path extended by `c` is a node. */
  ghost predicate TrieShape(t: NodeMap) {
    && [] in t
    && PrefixClosed(t.Keys)
    && ChildLinks(t)
    && ChildrenComplete(t)
  }

  /** Each child entry `c` of node `p` leads to the node `p + [c]`. */
  ghost predicate ChildLinks(t: NodeMap) {
    forall p, c :: p in t && c in t[p].children ==> t[p].children[c] == p + [c] && p + [c] in t
  }

  /** Every node one character below `p` is listed among `p`'s children. */
  ghost predicate ChildrenComplete(t: NodeMap) {
    forall p, c :: p in t && p + [c] in t ==> c in t[p].children
  }

  /** Node `p` of `t` is linked as in the compiled automaton: its failure link
      is the longest proper suffix of `p` that is a path, and its output lists
      the keywords that are suffixes of `p`. */
  ghost predicate Linked(t: NodeMap, kws: map<string, seq<CallbackId>>, p: string)
    requires [] in t && p in t && p != []
  {
    t[p].fail == Some(LongestSuffixIn(t.Keys, p[1..])) && t[p].output == KeywordSuffixes(kws, p)
  }

  /** `t` is the compiled automaton of the keyword table `kws`: its paths are
      the prefixes of the keywords, the root links to itself with no output,
      and every other node is linked. */
  ghost predicate Compiled(t: NodeMap, kws: map<string, seq<CallbackId>>) {
    && [] !in kws
    && TrieShape(t)
    && (forall p :: p in t <==> IsTriePath(kws.Keys, p))
    && t[[]].fail == Some([]) && t[[]].output == []
    && (forall p {:trigger Linked(t, kws, p)} :: p in t && p != [] ==> Linked(t, kws, p))
  }

  /** What `Compiled` says about one node. */
  lemma CompiledNode(t: NodeMap, kws: map<string, seq<CallbackId>>, p: string)
    requires Compiled(t, kws) && p in t
    ensures t[p].output == KeywordSuffixes(kws, p)
    ensures p != [] ==> t[p].fail == Some(LongestSuffixIn(t.Keys, p[1..]))
    ensures p == [] ==> t[p].fail == Some([])
  {
    if p != [] {
      assert Linked(t, kws, p);
    }
  }

  lemma KeywordsAreNodes(t: NodeMap, kws: map<string, seq<CallbackId>>)
    requires Compiled(t, kws)
    ensures forall k :: k in kws ==> k in t
  {
    forall k | k in kws ensures k in t {
      assert IsTriePath(kws.Keys, k);
    }
  }

  /** The state of the failure-link walk looking for a node to extend by `c`:
      `f` is a suffix of `u` in `S`, and no longer suffix of `u` in `S` can be
      extended by `c` within `S`. */
  ghost predicate Searching(S: set<string>, u: string, c: char, f: string) {
    && f in S && IsSuffix(f, u)
    && forall x :: IsSuffix(x, u) && |f| < |x| && x in S ==> x + [c] !in S
  }

  lemma SearchStart(S: set<string>, u: string, c: char)
    requires [] in S
    ensures Searching(S, u, c, LongestSuffixIn(S, u))
  {
  }

  /** Following the failure link of `f` keeps the walk's invariant. */
  lemma SearchStep(S: set<string>, u: string, c: char, f: string)
    requires [] in S
    requires Searching(S, u, c, f) && f != [] && f + [c] !in S
    ensures Searching(S, u, c, LongestSuffixIn(S, f[1..]))
  {
    var g := LongestSuffixIn(S, f[1..]);
    SuffixTrans(g, f[1..], f);
    SuffixTrans(g, f, u);
    forall x | IsSuffix(x, u) && |g| < |x| && x in S
      ensures x + [c] !in S
    {
      if |x| < |f| {
        SuffixesNest(x, f, u);
        SuffixOfTail(x, f);
      } else if |x| == |f| {
        SuffixesNest(x, f, u);
      }
    }
  }

  /** A suffix of `u + [c]` in `S` is at most one longer than where the walk stands. */
  lemma ExtensionBound(S: set<string>, u: string, c: char, f: string, x: string)
    requires PrefixClosed(S) && Searching(S, u, c, f)
    requires IsSuffix(x, u + [c]) && x in S && x != []
    ensures |x| <= |f| + 1 && x == x[..|x| - 1] + [c]
  {
    SuffixSplit(x, u, c);
    var y := x[..|x| - 1];
    assert y in S && y + [c] == x;
  }

  /** When the walk stops, the node it reaches is the longest suffix of `u + [c]`
      in `S`. */
  lemma SearchDone(S: set<string>, u: string, c: char, f: string)
    requires [] in S && PrefixClosed(S)
    requires Searching(S, u, c, f) && (f == [] || f + [c] in S)
    ensures LongestSuffixIn(S, u + [c]) == (if f + [c] in S then f + [c] else [])
  {
    var r := if f + [c] in S then f + [c] else [];
    if f + [c] in S {
      SuffixAppend(f, u, c);
    }
    forall x | IsSuffix(x, u + [c]) && x in S
      ensures |x| <= |r|
    {
      if x != [] {
        ExtensionBound(S, u, c, f, x);
      }
    }
    LongestSuffixUnique(S, u + [c], r);
  }

  /** The transition taken from the longest path-suffix of `s` is the longest
      path-suffix of `s + [c]`. */
  lemma LongestSuffixExtend(S: set<string>, s: string, c: char)
    requires [] in S && PrefixClosed(S)
    ensures LongestSuffixIn(S, LongestSuffixIn(S, s) + [c]) == LongestSuffixIn(S, s + [c])
  {
    var n := LongestSuffixIn(S, s);
    var r := LongestSuffixIn(S, n + [c]);
    SuffixAppend(n, s, c);
    SuffixTrans(r, n + [c], s + [c]);
    forall x | IsSuffix(x, s + [c]) && x in S
      ensures |x| <= |r|
    {
      if x != [] {
        SuffixSplit(x, s, c);
        var y := x[..|x| - 1];
        assert y in S;
        SuffixesNest(y, n, s);
        SuffixAppend(y, n, c);
      }
    }
    LongestSuffixUnique(S, s + [c], r);
  }
}
