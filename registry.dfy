/** The keyword registry and its Aho–Corasick compilation
    (`src/llm_stream_processor/engine/registry.py`). */
module Registry {
  import opened Wrappers
  import opened Trie
  import opened Automaton
  import opened TrieBuild
  import opened FailureLinks

  /** `ValueError("keyword must be a non-empty string")`. */
  datatype RegistryError = EmptyKeyword

  /** The callbacks registered for `k`, in registration order; empty when unknown. */
  function Lookup(kws: map<string, seq<CallbackId>>, k: string): seq<CallbackId> {
    if k in kws then kws[k] else []
  }

  /** The index of the first occurrence of `x` in `s`. */
  function IndexOf(s: seq<CallbackId>, x: CallbackId): (i: nat)
    requires x in s
    ensures i < |s| && s[i] == x && x !in s[..i]
  {
    if s[0] == x then 0
    else
      var j := IndexOf(s[1..], x);
      assert s[..j + 1] == [s[0]] + s[1..][..j];
      j + 1
  }

  /** Dropping element `j` of the tail of `s` drops element `j + 1` of `s`. */
  lemma DropAfterHead(s: seq<CallbackId>, j: nat)
    requires j + 1 < |s|
    ensures [s[0]] + (s[1..][..j] + s[1..][j + 1..]) == s[..j + 1] + s[j + 2..]
  {
    assert s[..j + 1] == [s[0]] + s[1..][..j];
    assert s[j + 2..] == s[1..][j + 1..];
  }

  /** `list.remove(x)`: drop the first occurrence of `x`; absent `x` leaves the list as is
      (the `ValueError` it raises is caught by `deregister`). */
  function RemoveFirst(s: seq<CallbackId>, x: CallbackId): (r: seq<CallbackId>)
    ensures x !in s ==> r == s
    ensures x in s ==> r == s[..IndexOf(s, x)] + s[IndexOf(s, x) + 1..]
  {
    if s == [] then []
    else if s[0] == x then s[1..]
    else
      var rest := RemoveFirst(s[1..], x);
      if x in s[1..] then
        var j := IndexOf(s[1..], x);
        assert IndexOf(s, x) == j + 1;
        DropAfterHead(s, j);
        [s[0]] + rest
      else
        assert s == [s[0]] + s[1..];
        [s[0]] + rest
  }

  /** The table after `register(keyword, callback)` succeeds. */
  function AddCallback(kws: map<string, seq<CallbackId>>, k: string, cb: CallbackId): (r: map<string, seq<CallbackId>>)
    ensures Lookup(r, k) == Lookup(kws, k) + [cb]
    ensures r.Keys == kws.Keys + {k}
    ensures forall k' :: k' != k ==> Lookup(r, k') == Lookup(kws, k')
  {
    kws[k := Lookup(kws, k) + [cb]]
  }

  /** The table after `deregister(keyword, callback)` finds `keyword`. */
  function RemoveCallback(kws: map<string, seq<CallbackId>>, k: string, cb: Option<CallbackId>): (r: map<string, seq<CallbackId>>)
    requires k in kws && kws[k] != []
    ensures cb.None? ==> k !in r
    ensures cb.Some? ==> Lookup(r, k) == RemoveFirst(kws[k], cb.value)
    ensures cb.Some? && RemoveFirst(kws[k], cb.value) == [] ==> k !in r
    ensures forall k' :: k' != k ==> Lookup(r, k') == Lookup(kws, k')
    ensures r.Keys <= kws.Keys
  {
    match cb
    case None => kws - {k}
    case Some(c) =>
      if c !in kws[k] then kws
      else
        var rest := RemoveFirst(kws[k], c);
        if rest == [] then kws - {k} else kws[k := rest]
  }

  /** Registering a callback and then deregistering it gives back the table,
      provided it was not registered for that keyword already. */
  lemma RegisterThenDeregister(kws: map<string, seq<CallbackId>>, k: string, cb: CallbackId)
    requires cb !in Lookup(kws, k)
    requires k in kws ==> kws[k] != []
    ensures RemoveCallback(AddCallback(kws, k, cb), k, Some(cb)) == kws
  {
    var added := AddCallback(kws, k, cb);
    var l := Lookup(kws, k);
    assert added[k] == l + [cb];
    assert IndexOf(added[k], cb) == |l| by {
      var i := IndexOf(added[k], cb);
      assert added[k][..|l|] == l;
    }
    assert RemoveFirst(added[k], cb) == l;
    var r := RemoveCallback(added, k, Some(cb));
    assert r.Keys == kws.Keys;
  }

  /** Registering the callbacks `cbs` one after another lists them in that order. */
  lemma {:induction false} RegistrationOrder(kws: map<string, seq<CallbackId>>, k: string, cbs: seq<CallbackId>)
    ensures Lookup(RegisterAll(kws, k, cbs), k) == Lookup(kws, k) + cbs
    decreases |cbs|
  {
    if cbs != [] {
      RegistrationOrder(AddCallback(kws, k, cbs[0]), k, cbs[1..]);
      assert Lookup(kws, k) + [cbs[0]] + cbs[1..] == Lookup(kws, k) + cbs;
    }
  }

  function RegisterAll(kws: map<string, seq<CallbackId>>, k: string, cbs: seq<CallbackId>): map<string, seq<CallbackId>>
    decreases |cbs|
  {
    if cbs == [] then kws else RegisterAll(AddCallback(kws, k, cbs[0]), k, cbs[1..])
  }

  /** The automaton `compile()` builds from the table `kws`, and the longest keyword length. */
  method CompileTrie(kws: map<string, seq<CallbackId>>) returns (t: NodeMap, longest: nat)
    requires [] !in kws
    ensures Compiled(t, kws) && IsMaxLen(kws.Keys, longest)
  {
    t, longest := BuildTrie(kws);
    t := LinkFailures(t, kws);
  }

  /** `KeywordRegistry`: keywords with ordered callback lists, and the compiled automaton. */
  class KeywordRegistry {
    var keywords: map<string, seq<CallbackId>>
    var compiled: bool
    var root: Option<NodeMap>
    var maxLen: nat

    ghost predicate Valid()
      reads this
    {
      && [] !in keywords
      && (forall k :: k in keywords ==> keywords[k] != [])
      && (compiled ==> root.Some? && Compiled(root.value, keywords) && IsMaxLen(keywords.Keys, maxLen))
    }

    constructor ()
      ensures Valid()
      ensures keywords == map[] && !compiled && root == None && maxLen == 0
    {
      keywords, compiled, root, maxLen := map[], false, None, 0;
    }

    method Register(keyword: string, callback: CallbackId) returns (r: Result<(), RegistryError>)
      requires Valid()
      modifies this
      ensures Valid()
      ensures keyword == [] ==> r == Err(EmptyKeyword) && unchanged(this)
      ensures keyword != [] ==> r == Ok(()) && keywords == AddCallback(old(keywords), keyword, callback)
      ensures keyword != [] ==> !compiled && root == old(root) && maxLen == old(maxLen)
    {
      if keyword == [] {
        return Err(EmptyKeyword);
      }
      ghost var expected := AddCallback(keywords, keyword, callback);
      if keyword in keywords {
        assert Lookup(keywords, keyword) == keywords[keyword];
        keywords := keywords[keyword := keywords[keyword] + [callback]];
      } else {
        assert Lookup(keywords, keyword) + [callback] == [callback];
        keywords := keywords[keyword := [callback]];
      }
      assert keywords == expected;
      compiled := false;
      r := Ok(());
    }

    method Deregister(keyword: string, callback: Option<CallbackId>) returns (r: Result<(), RegistryError>)
      requires Valid()
      modifies this
      ensures Valid()
      ensures keyword == [] ==> r == Err(EmptyKeyword) && unchanged(this)
      ensures keyword != [] ==> r == Ok(())
      ensures keyword != [] && keyword !in old(keywords) ==> unchanged(this)
      ensures keyword != [] && keyword in old(keywords) ==>
                keywords == RemoveCallback(old(keywords), keyword, callback)
                && !compiled && root == old(root) && maxLen == old(maxLen)
    {
      if keyword == [] {
        return Err(EmptyKeyword);
      }
      r := Ok(());
      if keyword !in keywords {
        return;
      }
      match callback {
        case None =>
          keywords := keywords - {keyword};
        case Some(cb) =>
          if cb in keywords[keyword] {
            keywords := keywords[keyword := RemoveFirst(keywords[keyword], cb)];
            if keywords[keyword] == [] {
              keywords := keywords - {keyword};
            }
          }
      }
      compiled := false;
    }

    /** `max_len()`: compiles on demand. */
    method MaxLen() returns (n: nat)
      requires Valid()
      modifies this
      ensures Valid() && compiled && keywords == old(keywords)
      ensures n == maxLen && IsMaxLen(keywords.Keys, n)
      ensures old(compiled) ==> unchanged(this)
    {
      if !compiled {
        Compile();
      }
      n := maxLen;
    }

    /** `compile()`: insert every keyword into a fresh trie, then set failure
        links and merge outputs breadth-first. */
    method Compile()
      requires Valid()
      modifies this
      ensures Valid() && compiled && keywords == old(keywords)
      ensures root.Some? && Compiled(root.value, keywords) && IsMaxLen(keywords.Keys, maxLen)
    {
      var t, longest := CompileTrie(keywords);
      root, maxLen := Some(t), longest;
      compiled := true;
    }
  }
}
