/** Worked examples: the reference semantics of `process` and `flush` on small
    compiled tries, computed for the inputs of the project's unit tests
    (`tests/test_stream_processor.py`). Each trie is any compiled automaton of
    the registered keyword; the history is disabled, so the examples speak only
    of the buffer, the flags and what is returned. */
module Scenarios {
  import opened Wrappers
  import opened Types
  import opened Context
  import opened Trie
  import opened Automaton
  import opened ProcessorSpec
  import opened Decorator
  import opened History
  import Actions

  /** The nodes of the trie of a single keyword are its prefixes. */
  lemma SingleKeywordNodes(t: NodeMap, k: string, cbs: seq<CallbackId>)
    requires Compiled(t, map[k := cbs])
    ensures forall p :: p in t <==> p <= k
  {
    assert map[k := cbs].Keys == {k};
    forall p ensures p in t <==> p <= k {
      assert IsTriePath(map[k := cbs].Keys, p) <==> p <= k;
    }
  }

  /** At any node of the trie of a single keyword, the output is that keyword
      when it ends the node's path, and nothing otherwise. */
  lemma SingleKeywordOutput(t: NodeMap, k: string, cbs: seq<CallbackId>, p: string)
    requires Compiled(t, map[k := cbs]) && p in t
    ensures t[p].output == if IsSuffix(k, p) then [Entry(k, cbs)] else []
  {
    CompiledNode(t, map[k := cbs], p);
    SingleSuffixes(k, cbs, p);
  }

  /** With a single non-empty keyword, the keyword suffixes of a path are that
      keyword when it ends the path, and nothing otherwise. */
  lemma SingleSuffixes(k: string, cbs: seq<CallbackId>, p: string)
    requires k != []
    ensures KeywordSuffixes(map[k := cbs], p) == if IsSuffix(k, p) then [Entry(k, cbs)] else []
  {
    var kws := map[k := cbs];
    var r := KeywordSuffixes(kws, p);
    if r != [] {
      assert r[0].keyword in kws;
      assert r == [r[0]];
    }
  }

  /** The trie of the single keyword `k` with callbacks `cbs`, as far as the
      examples need it: its nodes are the prefixes of `k`, and a node's output is
      `k` exactly when `k` ends its path. */
  ghost predicate SingleTrie(t: NodeMap, k: string, cbs: seq<CallbackId>) {
    && (forall p :: p in t <==> p <= k)
    && (forall p :: p in t ==> t[p].output == if IsSuffix(k, p) then [Entry(k, cbs)] else [])
  }

  /** A compiled trie of a single keyword is such a trie. */
  lemma CompiledSingle(t: NodeMap, k: string, cbs: seq<CallbackId>)
    requires Compiled(t, map[k := cbs])
    ensures SingleTrie(t, k, cbs)
  {
    SingleKeywordNodes(t, k, cbs);
    forall p | p in t ensures t[p].output == if IsSuffix(k, p) then [Entry(k, cbs)] else [] {
      SingleKeywordOutput(t, k, cbs, p);
    }
  }

  /** `drop` registered as the callback. */
  function DropAll(id: CallbackId, ctx: ActionContext): Option<ActionDecision> {
    Some(Actions.Drop(Some(ctx)))
  }

  /** `halt` registered as the callback. */
  function HaltAll(id: CallbackId, ctx: ActionContext): Option<ActionDecision> {
    Some(Actions.Halt(Some(ctx)))
  }

  /** `lambda ctx: replace('X')` registered as the callback. */
  function ReplaceX(id: CallbackId, ctx: ActionContext): Option<ActionDecision> {
    Some(Actions.Replace("X"))
  }

  /** A call in which no keyword ends and the buffer stays within `max_len`:
      the character is buffered and nothing is returned. */
  lemma Quiet(cfg: Config, s: ProcState, ch: char, n: string, b: string, invoke: Invoke)
    requires [] in cfg.trie && !cfg.recording
    requires LongestSuffixIn(cfg.trie.Keys, s.node + [ch]) == n && cfg.trie[n].output == []
    requires b == s.buffer + [ch] && |b| <= cfg.maxLen
    ensures ProcessSpec(cfg, s, ch, invoke) == (s.(node := n, buffer := b, pos := s.pos + 1), Emitted([]))
  {
  }

  /** A call in which no keyword ends and the buffer outgrows `max_len`: the
      oldest character is returned. */
  lemma Spill(cfg: Config, s: ProcState, ch: char, n: string, b: string, invoke: Invoke)
    requires [] in cfg.trie && !cfg.recording && !s.dropMode
    requires LongestSuffixIn(cfg.trie.Keys, s.node + [ch]) == n && cfg.trie[n].output == []
    requires |s.buffer| + 1 > cfg.maxLen && b == s.buffer + [ch]
    ensures ProcessSpec(cfg, s, ch, invoke) == (s.(node := n, buffer := b[1..], pos := s.pos + 1), Emitted([b[0]]))
  {
    assert [] + [b[0]] == [b[0]];
    assert ProcessSpec(cfg, s, ch, invoke) == Settle(cfg, s, n, Consume(cfg, s, ch));
  }

  /** The text a DROP or REPLACE leaves in place of the keyword. */
  function Injected(d: ActionDecision): string {
    if d.kind == Replace then ReplacementText(d) else []
  }

  /** A lone callback deciding DROP or REPLACE rewrites the end of the buffer
      and lets the call go on. */
  lemma LoneRewrite(invoke: Invoke, kw: string, pos: nat, e: Effects, d: ActionDecision)
    requires invoke(0, MatchContext(kw, pos, e)) == Some(d)
    requires d.kind == Drop || d.kind == Replace
    ensures ApplyCallbacks(invoke, kw, [0], pos, false, e) == Go(e.(buffer := DropRight(e.buffer, |kw|) + Injected(d)))
  {
    var e1 := e.(buffer := DropRight(e.buffer, |kw|) + Injected(d));
    assert ApplyDecision(e, kw, d, false) == Go(e1);
    assert [0][1..] == [];
  }

  /** A lone callback deciding HALT pops the keyword and stops the call. */
  lemma LoneHalt(invoke: Invoke, kw: string, pos: nat, e: Effects, d: ActionDecision)
    requires invoke(0, MatchContext(kw, pos, e)) == Some(d) && d.kind == Halt
    ensures ApplyCallbacks(invoke, kw, [0], pos, false, e) == Stop(e.(buffer := DropRight(e.buffer, |kw|)))
  {
    assert ApplyDecision(e, kw, d, false) == Stop(e.(buffer := DropRight(e.buffer, |kw|)));
  }

  /** A call whose callbacks let it go on settles at the root. */
  lemma FireGoes(cfg: Config, s: ProcState, ch: char, n: string, m: Entry, invoke: Invoke, f: Effects)
    requires ApplyCallbacks(invoke, m.keyword, m.callbacks, s.pos + 1, cfg.recording, Consume(cfg, s, ch)) == Go(f)
    requires |f.buffer| <= cfg.maxLen
    ensures Fire(cfg, s, ch, n, m, invoke) == (ProcState([], f.buffer, s.pos + 1, f.dropMode, s.halted, f.log), Emitted(f.out))
  {
    assert Fire(cfg, s, ch, n, m, invoke) == Settle(cfg, s, [], f);
  }

  /** A call whose callbacks halt it stays at the matched node. */
  lemma FireStops(cfg: Config, s: ProcState, ch: char, n: string, m: Entry, invoke: Invoke, f: Effects)
    requires ApplyCallbacks(invoke, m.keyword, m.callbacks, s.pos + 1, cfg.recording, Consume(cfg, s, ch)) == Stop(f)
    ensures Fire(cfg, s, ch, n, m, invoke) == (ProcState(n, f.buffer, s.pos + 1, f.dropMode, true, f.log), Halted)
  {
  }

  /** A match of a keyword whose one callback decides DROP or REPLACE: the
      keyword leaves the end of the buffer, the replacement takes its place, the
      automaton is reset, and nothing is returned. */
  lemma Rewrites(cfg: Config, s: ProcState, ch: char, kw: string, invoke: Invoke, d: ActionDecision, b: string)
    requires [] in cfg.trie && !cfg.recording
    requires invoke(0, MatchContext(kw, s.pos + 1, Consume(cfg, s, ch))) == Some(d)
    requires d.kind == Drop || d.kind == Replace
    requires cfg.trie[Target(cfg, s, ch)].output == [Entry(kw, [0])]
    requires b == DropRight(s.buffer + [ch], |kw|) + Injected(d) && |b| <= cfg.maxLen
    ensures ProcessSpec(cfg, s, ch, invoke) == (s.(node := [], buffer := b, pos := s.pos + 1), Emitted([]))
  {
    var n := Target(cfg, s, ch);
    var m := Entry(kw, [0]);
    var e0 := Consume(cfg, s, ch);
    LoneRewrite(invoke, kw, s.pos + 1, e0, d);
    FireGoes(cfg, s, ch, n, m, invoke, e0.(buffer := b));
    assert Longest(cfg.trie[n].output) == m;
  }

  /** A match of a keyword whose one callback decides HALT: the keyword leaves
      the end of the buffer, the halt flag is set, and the call raises. */
  lemma Halts(cfg: Config, s: ProcState, ch: char, kw: string, invoke: Invoke, d: ActionDecision, b: string)
    requires [] in cfg.trie && !cfg.recording && d.kind == Halt
    requires invoke(0, MatchContext(kw, s.pos + 1, Consume(cfg, s, ch))) == Some(d)
    requires cfg.trie[Target(cfg, s, ch)].output == [Entry(kw, [0])]
    requires b == DropRight(s.buffer + [ch], |kw|)
    ensures ProcessSpec(cfg, s, ch, invoke)
            == (s.(node := Target(cfg, s, ch), buffer := b, pos := s.pos + 1, halted := true), Halted)
  {
    var n := Target(cfg, s, ch);
    var m := Entry(kw, [0]);
    var e0 := Consume(cfg, s, ch);
    LoneHalt(invoke, kw, s.pos + 1, e0, d);
    FireStops(cfg, s, ch, n, m, invoke, e0.(buffer := b));
    assert Longest(cfg.trie[n].output) == m;
  }

  /** A state of the examples: no drop mode, and an empty history. */
  function At(node: string, buffer: string, pos: nat, halted: bool := false): ProcState {
    ProcState(node, buffer, pos, false, halted, EmptyLog)
  }

  /** Prefix safety, run as the unit tests run it (`process` on each character,
      then `flush`): with `abc` dropped, `xabc` returns nothing until the
      flush, which returns `x`. The characters `a` and `b` are held back until
      the match resolves, and then dropped with `c`. */
  lemma PrefixSafetyExample(t: NodeMap, input: string)
    requires Compiled(t, map["abc" := [0]]) && input == "xabc"
    ensures var cfg := Config(t, 3, false);
            && ProcessSpec(cfg, Initial, input[0], DropAll) == (At([], "x", 1), Emitted([]))
            && ProcessSpec(cfg, At([], "x", 1), input[1], DropAll) == (At("a", "xa", 2), Emitted([]))
            && ProcessSpec(cfg, At("a", "xa", 2), input[2], DropAll) == (At("ab", "xab", 3), Emitted([]))
            && ProcessSpec(cfg, At("ab", "xab", 3), input[3], DropAll) == (At([], "x", 4), Emitted([]))
            && FlushSpec(cfg, At([], "x", 4)).1 == "x"
  {
    CompiledSingle(t, "abc", [0]);
    AbcFacts(t);
    PrefixSafetyRun(t, input);
  }

  /** The run of `xabc`, on any trie that agrees with the trie of `abc` along it. */
  lemma PrefixSafetyRun(t: NodeMap, input: string)
    requires AbcAlongXabc(t) && input == "xabc"
    ensures var cfg := Config(t, 3, false);
            && ProcessSpec(cfg, Initial, input[0], DropAll) == (At([], "x", 1), Emitted([]))
            && ProcessSpec(cfg, At([], "x", 1), input[1], DropAll) == (At("a", "xa", 2), Emitted([]))
            && ProcessSpec(cfg, At("a", "xa", 2), input[2], DropAll) == (At("ab", "xab", 3), Emitted([]))
            && ProcessSpec(cfg, At("ab", "xab", 3), input[3], DropAll) == (At([], "x", 4), Emitted([]))
            && FlushSpec(cfg, At([], "x", 4)).1 == "x"
  {
    assert Initial == At([], [], 0);
    PrefixSafetyRunHead(t, input);
    PrefixSafetyRunTail(t, input);
  }

  /** The first and second halves of the run, each from only the trie facts it reads. */
  lemma PrefixSafetyRunHead(t: NodeMap, input: string)
    requires [] in t && LongestSuffixIn(t.Keys, "x") == [] && LongestSuffixIn(t.Keys, "a") == "a"
    requires t[[]].output == [] && t["a"].output == []
    requires input == "xabc"
    ensures var cfg := Config(t, 3, false);
            && ProcessSpec(cfg, At([], [], 0), input[0], DropAll) == (At([], "x", 1), Emitted([]))
            && ProcessSpec(cfg, At([], "x", 1), input[1], DropAll) == (At("a", "xa", 2), Emitted([]))
  {
    XabcStep0(t, At([], [], 0), input[0]);
    XabcStep1(t, At([], "x", 1), input[1]);
  }

  lemma PrefixSafetyRunTail(t: NodeMap, input: string)
    requires [] in t && LongestSuffixIn(t.Keys, "ab") == "ab" && LongestSuffixIn(t.Keys, "abc") == "abc"
    requires t["ab"].output == [] && t["abc"].output == [Entry("abc", [0])]
    requires input == "xabc"
    ensures var cfg := Config(t, 3, false);
            && ProcessSpec(cfg, At("a", "xa", 2), input[2], DropAll) == (At("ab", "xab", 3), Emitted([]))
            && ProcessSpec(cfg, At("ab", "xab", 3), input[3], DropAll) == (At([], "x", 4), Emitted([]))
            && FlushSpec(cfg, At([], "x", 4)).1 == "x"
  {
    XabcStep2(t, At("a", "xa", 2), input[2]);
    XabcStep3(t, At("ab", "xab", 3), input[3]);
  }

  /** What the trie of `abc` holds along `xabc`. */
  ghost predicate AbcAlongXabc(t: NodeMap) {
    && [] in t && "a" in t && "ab" in t && "abc" in t
    && LongestSuffixIn(t.Keys, "x") == [] && LongestSuffixIn(t.Keys, "a") == "a"
    && LongestSuffixIn(t.Keys, "ab") == "ab" && LongestSuffixIn(t.Keys, "abc") == "abc"
    && t[[]].output == [] && t["a"].output == [] && t["ab"].output == []
    && t["abc"].output == [Entry("abc", [0])]
  }

  /** The trie of `abc` agrees with these facts. */
  lemma AbcFacts(t: NodeMap)
    requires SingleTrie(t, "abc", [0])
    ensures AbcAlongXabc(t)
  {
    assert [] <= "abc" && "a" <= "abc" && "ab" <= "abc";
    assert "x" !in t by {
      assert "x"[0] != "abc"[0];
    }
    assert "x"[1..] == [];
    assert !IsSuffix("abc", "ab") && !IsSuffix("abc", "a") && !IsSuffix("abc", []);
  }

  /** The calls of the run, one lemma each: from the state before the call
      to the state after it and what the call returns. */
  lemma XabcStep0(t: NodeMap, s: ProcState, ch: char)
    requires [] in t && LongestSuffixIn(t.Keys, "x") == [] && t[[]].output == []
    requires s == At([], [], 0) && ch == 'x'
    ensures ProcessSpec(Config(t, 3, false), s, ch, DropAll) == (At([], "x", 1), Emitted([]))
  {
    assert s.node + [ch] == "x" && s.buffer + [ch] == "x";
    Quiet(Config(t, 3, false), s, ch, [], "x", DropAll);
  }

  lemma XabcStep1(t: NodeMap, s: ProcState, ch: char)
    requires [] in t && LongestSuffixIn(t.Keys, "a") == "a" && t["a"].output == []
    requires s == At([], "x", 1) && ch == 'a'
    ensures ProcessSpec(Config(t, 3, false), s, ch, DropAll) == (At("a", "xa", 2), Emitted([]))
  {
    assert s.node + [ch] == "a" && s.buffer + [ch] == "xa";
    Quiet(Config(t, 3, false), s, ch, "a", "xa", DropAll);
  }

  lemma XabcStep2(t: NodeMap, s: ProcState, ch: char)
    requires [] in t && LongestSuffixIn(t.Keys, "ab") == "ab" && t["ab"].output == []
    requires s == At("a", "xa", 2) && ch == 'b'
    ensures ProcessSpec(Config(t, 3, false), s, ch, DropAll) == (At("ab", "xab", 3), Emitted([]))
  {
    assert s.node + [ch] == "ab" && s.buffer + [ch] == "xab";
    Quiet(Config(t, 3, false), s, ch, "ab", "xab", DropAll);
  }

  lemma XabcStep3(t: NodeMap, s: ProcState, ch: char)
    requires [] in t && LongestSuffixIn(t.Keys, "abc") == "abc" && t["abc"].output == [Entry("abc", [0])]
    requires s == At("ab", "xab", 3) && ch == 'c'
    ensures ProcessSpec(Config(t, 3, false), s, ch, DropAll) == (At([], "x", 4), Emitted([]))
  {
    assert s.node + [ch] == "abc" && s.buffer + [ch] == "xabc";
    Rewrites(Config(t, 3, false), s, ch, "abc", DropAll, Actions.Drop(), "x");
  }

  /** Halting, run as the unit tests run it: with `halt` on `stop`, feeding
      `abstop` returns `a` once the buffer outgrows four characters, then raises
      at `p` with `stop` popped off the buffer; the flush that follows returns
      the `b` still buffered, so the run yields `ab`. */
  lemma HaltExample(t: NodeMap, input: string)
    requires Compiled(t, map["stop" := [0]]) && input == "abstop"
    ensures var cfg := Config(t, 4, false);
            && ProcessSpec(cfg, Initial, input[0], HaltAll) == (At([], "a", 1), Emitted([]))
            && ProcessSpec(cfg, At([], "a", 1), input[1], HaltAll) == (At([], "ab", 2), Emitted([]))
            && ProcessSpec(cfg, At([], "ab", 2), input[2], HaltAll) == (At("s", "abs", 3), Emitted([]))
            && ProcessSpec(cfg, At("s", "abs", 3), input[3], HaltAll) == (At("st", "abst", 4), Emitted([]))
            && ProcessSpec(cfg, At("st", "abst", 4), input[4], HaltAll) == (At("sto", "bsto", 5), Emitted("a"))
            && ProcessSpec(cfg, At("sto", "bsto", 5), input[5], HaltAll) == (At("stop", "b", 6, true), Halted)
            && FlushSpec(cfg, At("stop", "b", 6, true)).1 == "b"
  {
    CompiledSingle(t, "stop", [0]);
    StopFacts(t);
    HaltRun(t, input);
  }

  /** The run of `abstop`, on any trie that agrees with the trie of `stop` along it. */
  lemma HaltRun(t: NodeMap, input: string)
    requires StopAlongAbstop(t) && input == "abstop"
    ensures var cfg := Config(t, 4, false);
            && ProcessSpec(cfg, Initial, input[0], HaltAll) == (At([], "a", 1), Emitted([]))
            && ProcessSpec(cfg, At([], "a", 1), input[1], HaltAll) == (At([], "ab", 2), Emitted([]))
            && ProcessSpec(cfg, At([], "ab", 2), input[2], HaltAll) == (At("s", "abs", 3), Emitted([]))
            && ProcessSpec(cfg, At("s", "abs", 3), input[3], HaltAll) == (At("st", "abst", 4), Emitted([]))
            && ProcessSpec(cfg, At("st", "abst", 4), input[4], HaltAll) == (At("sto", "bsto", 5), Emitted("a"))
            && ProcessSpec(cfg, At("sto", "bsto", 5), input[5], HaltAll) == (At("stop", "b", 6, true), Halted)
            && FlushSpec(cfg, At("stop", "b", 6, true)).1 == "b"
  {
    assert Initial == At([], [], 0);
    HaltRunHead(t, input);
    HaltRunTail(t, input);
  }

  /** The first and second halves of the run, each from only the trie facts it reads. */
  lemma HaltRunHead(t: NodeMap, input: string)
    requires [] in t && LongestSuffixIn(t.Keys, "a") == [] && LongestSuffixIn(t.Keys, "b") == [] && LongestSuffixIn(t.Keys, "s") == "s"
    requires t[[]].output == [] && t["s"].output == []
    requires input == "abstop"
    ensures var cfg := Config(t, 4, false);
            && ProcessSpec(cfg, At([], [], 0), input[0], HaltAll) == (At([], "a", 1), Emitted([]))
            && ProcessSpec(cfg, At([], "a", 1), input[1], HaltAll) == (At([], "ab", 2), Emitted([]))
            && ProcessSpec(cfg, At([], "ab", 2), input[2], HaltAll) == (At("s", "abs", 3), Emitted([]))
  {
    AbstopStep0(t, At([], [], 0), input[0]);
    AbstopStep1(t, At([], "a", 1), input[1]);
    AbstopStep2(t, At([], "ab", 2), input[2]);
  }

  lemma HaltRunTail(t: NodeMap, input: string)
    requires [] in t && LongestSuffixIn(t.Keys, "st") == "st" && LongestSuffixIn(t.Keys, "sto") == "sto" && LongestSuffixIn(t.Keys, "stop") == "stop"
    requires t["st"].output == [] && t["sto"].output == [] && t["stop"].output == [Entry("stop", [0])]
    requires input == "abstop"
    ensures var cfg := Config(t, 4, false);
            && ProcessSpec(cfg, At("s", "abs", 3), input[3], HaltAll) == (At("st", "abst", 4), Emitted([]))
            && ProcessSpec(cfg, At("st", "abst", 4), input[4], HaltAll) == (At("sto", "bsto", 5), Emitted("a"))
            && ProcessSpec(cfg, At("sto", "bsto", 5), input[5], HaltAll) == (At("stop", "b", 6, true), Halted)
            && FlushSpec(cfg, At("stop", "b", 6, true)).1 == "b"
  {
    AbstopStep3(t, At("s", "abs", 3), input[3]);
    AbstopStep4(t, At("st", "abst", 4), input[4]);
    AbstopStep5(t, At("sto", "bsto", 5), input[5]);
  }

  /** What the trie of `stop` holds along `abstop`. */
  ghost predicate StopAlongAbstop(t: NodeMap) {
    && [] in t && "s" in t && "st" in t && "sto" in t && "stop" in t
    && LongestSuffixIn(t.Keys, "a") == [] && LongestSuffixIn(t.Keys, "b") == []
    && LongestSuffixIn(t.Keys, "s") == "s" && LongestSuffixIn(t.Keys, "st") == "st"
    && LongestSuffixIn(t.Keys, "sto") == "sto" && LongestSuffixIn(t.Keys, "stop") == "stop"
    && t[[]].output == [] && t["s"].output == [] && t["st"].output == [] && t["sto"].output == []
    && t["stop"].output == [Entry("stop", [0])]
  }

  /** The trie of `stop` agrees with these facts. */
  lemma StopFacts(t: NodeMap)
    requires SingleTrie(t, "stop", [0])
    ensures StopAlongAbstop(t)
  {
    assert [] <= "stop" && "s" <= "stop" && "st" <= "stop" && "sto" <= "stop";
    assert "a" !in t by {
      assert "a"[0] != "stop"[0];
    }
    assert "b" !in t by {
      assert "b"[0] != "stop"[0];
    }
    assert "a"[1..] == [] && "b"[1..] == [];
    assert !IsSuffix("stop", "sto") && !IsSuffix("stop", "st") && !IsSuffix("stop", "s") && !IsSuffix("stop", []);
  }

  /** The calls of the run, one lemma each: from the state before the call
      to the state after it and what the call returns. */
  lemma AbstopStep0(t: NodeMap, s: ProcState, ch: char)
    requires [] in t && LongestSuffixIn(t.Keys, "a") == [] && t[[]].output == []
    requires s == At([], [], 0) && ch == 'a'
    ensures ProcessSpec(Config(t, 4, false), s, ch, HaltAll) == (At([], "a", 1), Emitted([]))
  {
    assert s.node + [ch] == "a" && s.buffer + [ch] == "a";
    Quiet(Config(t, 4, false), s, ch, [], "a", HaltAll);
  }

  lemma AbstopStep1(t: NodeMap, s: ProcState, ch: char)
    requires [] in t && LongestSuffixIn(t.Keys, "b") == [] && t[[]].output == []
    requires s == At([], "a", 1) && ch == 'b'
    ensures ProcessSpec(Config(t, 4, false), s, ch, HaltAll) == (At([], "ab", 2), Emitted([]))
  {
    assert s.node + [ch] == "b" && s.buffer + [ch] == "ab";
    Quiet(Config(t, 4, false), s, ch, [], "ab", HaltAll);
  }

  lemma AbstopStep2(t: NodeMap, s: ProcState, ch: char)
    requires [] in t && LongestSuffixIn(t.Keys, "s") == "s" && t["s"].output == []
    requires s == At([], "ab", 2) && ch == 's'
    ensures ProcessSpec(Config(t, 4, false), s, ch, HaltAll) == (At("s", "abs", 3), Emitted([]))
  {
    assert s.node + [ch] == "s" && s.buffer + [ch] == "abs";
    Quiet(Config(t, 4, false), s, ch, "s", "abs", HaltAll);
  }

  lemma AbstopStep3(t: NodeMap, s: ProcState, ch: char)
    requires [] in t && LongestSuffixIn(t.Keys, "st") == "st" && t["st"].output == []
    requires s == At("s", "abs", 3) && ch == 't'
    ensures ProcessSpec(Config(t, 4, false), s, ch, HaltAll) == (At("st", "abst", 4), Emitted([]))
  {
    assert s.node + [ch] == "st" && s.buffer + [ch] == "abst";
    Quiet(Config(t, 4, false), s, ch, "st", "abst", HaltAll);
  }

  lemma AbstopStep4(t: NodeMap, s: ProcState, ch: char)
    requires [] in t && LongestSuffixIn(t.Keys, "sto") == "sto" && t["sto"].output == []
    requires s == At("st", "abst", 4) && ch == 'o'
    ensures ProcessSpec(Config(t, 4, false), s, ch, HaltAll) == (At("sto", "bsto", 5), Emitted("a"))
  {
    assert s.node + [ch] == "sto" && s.buffer + [ch] == "absto";
    assert "absto"[1..] == "bsto" && ["absto"[0]] == "a";
    Spill(Config(t, 4, false), s, ch, "sto", "absto", HaltAll);
  }

  lemma AbstopStep5(t: NodeMap, s: ProcState, ch: char)
    requires [] in t && LongestSuffixIn(t.Keys, "stop") == "stop" && t["stop"].output == [Entry("stop", [0])]
    requires s == At("sto", "bsto", 5) && ch == 'p'
    ensures ProcessSpec(Config(t, 4, false), s, ch, HaltAll) == (At("stop", "b", 6, true), Halted)
  {
    var cfg := Config(t, 4, false);
    assert s.node + [ch] == "stop" && s.buffer + [ch] == "bstop";
    Halts(cfg, s, ch, "stop", HaltAll, Actions.Halt(Some(MatchContext("stop", 6, Consume(cfg, s, ch)))), "b");
  }

  /** The context of a match, run as the unit tests run it: with `ab`
      replaced by `X`, reading `b` of `xabcd` hands the callback the keyword
      `ab`, position 3 and the buffer `xab`; the calls return `x` and `X`, and
      the flush returns `cd`, so the run yields `xXcd`. */
  lemma ContextExample(t: NodeMap, input: string)
    requires Compiled(t, map["ab" := [0]]) && input == "xabcd"
    ensures var cfg := Config(t, 2, false);
            && ProcessSpec(cfg, Initial, input[0], ReplaceX) == (At([], "x", 1), Emitted([]))
            && ProcessSpec(cfg, At([], "x", 1), input[1], ReplaceX) == (At("a", "xa", 2), Emitted([]))
            && MatchContext("ab", 3, Consume(cfg, At("a", "xa", 2), input[2])) == ActionContext("ab", "xab", 3, EmptyLog)
            && ProcessSpec(cfg, At("a", "xa", 2), input[2], ReplaceX) == (At([], "xX", 3), Emitted([]))
            && ProcessSpec(cfg, At([], "xX", 3), input[3], ReplaceX) == (At([], "Xc", 4), Emitted("x"))
            && ProcessSpec(cfg, At([], "Xc", 4), input[4], ReplaceX) == (At([], "cd", 5), Emitted("X"))
            && FlushSpec(cfg, At([], "cd", 5)).1 == "cd"
  {
    CompiledSingle(t, "ab", [0]);
    AbFacts(t);
    ContextRun(t, input);
  }

  /** The run of `xabcd`, on any trie that agrees with the trie of `ab` along it. */
  lemma ContextRun(t: NodeMap, input: string)
    requires AbAlongXabcd(t) && input == "xabcd"
    ensures var cfg := Config(t, 2, false);
            && ProcessSpec(cfg, Initial, input[0], ReplaceX) == (At([], "x", 1), Emitted([]))
            && ProcessSpec(cfg, At([], "x", 1), input[1], ReplaceX) == (At("a", "xa", 2), Emitted([]))
            && MatchContext("ab", 3, Consume(cfg, At("a", "xa", 2), input[2])) == ActionContext("ab", "xab", 3, EmptyLog)
            && ProcessSpec(cfg, At("a", "xa", 2), input[2], ReplaceX) == (At([], "xX", 3), Emitted([]))
            && ProcessSpec(cfg, At([], "xX", 3), input[3], ReplaceX) == (At([], "Xc", 4), Emitted("x"))
            && ProcessSpec(cfg, At([], "Xc", 4), input[4], ReplaceX) == (At([], "cd", 5), Emitted("X"))
            && FlushSpec(cfg, At([], "cd", 5)).1 == "cd"
  {
    assert Initial == At([], [], 0);
    ContextRunHead(t, input);
    ContextRunTail(t, input);
  }

  /** The first and second halves of the run, each from only the trie facts it reads. */
  lemma ContextRunHead(t: NodeMap, input: string)
    requires [] in t && LongestSuffixIn(t.Keys, "x") == [] && LongestSuffixIn(t.Keys, "a") == "a"
    requires t[[]].output == [] && t["a"].output == []
    requires input == "xabcd"
    ensures var cfg := Config(t, 2, false);
            && ProcessSpec(cfg, At([], [], 0), input[0], ReplaceX) == (At([], "x", 1), Emitted([]))
            && ProcessSpec(cfg, At([], "x", 1), input[1], ReplaceX) == (At("a", "xa", 2), Emitted([]))
  {
    XabcdStep0(t, At([], [], 0), input[0]);
    XabcdStep1(t, At([], "x", 1), input[1]);
  }

  lemma ContextRunTail(t: NodeMap, input: string)
    requires [] in t && LongestSuffixIn(t.Keys, "ab") == "ab" && LongestSuffixIn(t.Keys, "c") == [] && LongestSuffixIn(t.Keys, "d") == []
    requires t[[]].output == [] && t["ab"].output == [Entry("ab", [0])]
    requires input == "xabcd"
    ensures var cfg := Config(t, 2, false);
            && MatchContext("ab", 3, Consume(cfg, At("a", "xa", 2), input[2])) == ActionContext("ab", "xab", 3, EmptyLog)
            && ProcessSpec(cfg, At("a", "xa", 2), input[2], ReplaceX) == (At([], "xX", 3), Emitted([]))
            && ProcessSpec(cfg, At([], "xX", 3), input[3], ReplaceX) == (At([], "Xc", 4), Emitted("x"))
            && ProcessSpec(cfg, At([], "Xc", 4), input[4], ReplaceX) == (At([], "cd", 5), Emitted("X"))
            && FlushSpec(cfg, At([], "cd", 5)).1 == "cd"
  {
    XabcdStep2(t, At("a", "xa", 2), input[2]);
    XabcdStep3(t, At([], "xX", 3), input[3]);
    XabcdStep4(t, At([], "Xc", 4), input[4]);
  }

  /** What the trie of `ab` holds along `xabcd`. */
  ghost predicate AbAlongXabcd(t: NodeMap) {
    && [] in t && "a" in t && "ab" in t
    && LongestSuffixIn(t.Keys, "x") == [] && LongestSuffixIn(t.Keys, "a") == "a" && LongestSuffixIn(t.Keys, "ab") == "ab"
    && LongestSuffixIn(t.Keys, "c") == [] && LongestSuffixIn(t.Keys, "d") == []
    && t[[]].output == [] && t["a"].output == []
    && t["ab"].output == [Entry("ab", [0])]
  }

  /** The trie of `ab` agrees with these facts. */
  lemma AbFacts(t: NodeMap)
    requires SingleTrie(t, "ab", [0])
    ensures AbAlongXabcd(t)
  {
    assert [] <= "ab" && "a" <= "ab";
    assert "x" !in t by {
      assert "x"[0] != "ab"[0];
    }
    assert "c" !in t by {
      assert "c"[0] != "ab"[0];
    }
    assert "d" !in t by {
      assert "d"[0] != "ab"[0];
    }
    assert "x"[1..] == [] && "c"[1..] == [] && "d"[1..] == [];
    assert !IsSuffix("ab", "a") && !IsSuffix("ab", []);
  }

  /** The calls of the run, one lemma each: from the state before the call
      to the state after it and what the call returns; the third one also
      names the node reached, the keyword fired and the context handed over. */
  lemma XabcdStep0(t: NodeMap, s: ProcState, ch: char)
    requires [] in t && LongestSuffixIn(t.Keys, "x") == [] && t[[]].output == []
    requires s == At([], [], 0) && ch == 'x'
    ensures ProcessSpec(Config(t, 2, false), s, ch, ReplaceX) == (At([], "x", 1), Emitted([]))
  {
    assert s.node + [ch] == "x" && s.buffer + [ch] == "x";
    Quiet(Config(t, 2, false), s, ch, [], "x", ReplaceX);
  }

  lemma XabcdStep1(t: NodeMap, s: ProcState, ch: char)
    requires [] in t && LongestSuffixIn(t.Keys, "a") == "a" && t["a"].output == []
    requires s == At([], "x", 1) && ch == 'a'
    ensures ProcessSpec(Config(t, 2, false), s, ch, ReplaceX) == (At("a", "xa", 2), Emitted([]))
  {
    assert s.node + [ch] == "a" && s.buffer + [ch] == "xa";
    Quiet(Config(t, 2, false), s, ch, "a", "xa", ReplaceX);
  }

  lemma XabcdStep2(t: NodeMap, s: ProcState, ch: char)
    requires [] in t && LongestSuffixIn(t.Keys, "ab") == "ab" && t["ab"].output == [Entry("ab", [0])]
    requires s == At("a", "xa", 2) && ch == 'b'
    ensures var cfg := Config(t, 2, false);
            && Target(cfg, s, ch) == "ab"
            && Longest(t["ab"].output).keyword == "ab"
            && MatchContext("ab", 3, Consume(cfg, s, ch)) == ActionContext("ab", "xab", 3, EmptyLog)
            && ProcessSpec(cfg, s, ch, ReplaceX) == (At([], "xX", 3), Emitted([]))
  {
    var cfg := Config(t, 2, false);
    assert s.node + [ch] == "ab" && s.buffer + [ch] == "xab";
    assert Longest([Entry("ab", [0])]) == Entry("ab", [0]);
    Rewrites(cfg, s, ch, "ab", ReplaceX, Actions.Replace("X"), "xX");
  }

  lemma XabcdStep3(t: NodeMap, s: ProcState, ch: char)
    requires [] in t && LongestSuffixIn(t.Keys, "c") == [] && t[[]].output == []
    requires s == At([], "xX", 3) && ch == 'c'
    ensures ProcessSpec(Config(t, 2, false), s, ch, ReplaceX) == (At([], "Xc", 4), Emitted("x"))
  {
    assert s.node + [ch] == "c" && s.buffer + [ch] == "xXc";
    assert "xXc"[1..] == "Xc" && ["xXc"[0]] == "x";
    Spill(Config(t, 2, false), s, ch, [], "xXc", ReplaceX);
  }

  lemma XabcdStep4(t: NodeMap, s: ProcState, ch: char)
    requires [] in t && LongestSuffixIn(t.Keys, "d") == [] && t[[]].output == []
    requires s == At([], "Xc", 4) && ch == 'd'
    ensures ProcessSpec(Config(t, 2, false), s, ch, ReplaceX) == (At([], "cd", 5), Emitted("X"))
  {
    assert s.node + [ch] == "d" && s.buffer + [ch] == "Xcd";
    assert "Xcd"[1..] == "cd" && ["Xcd"[0]] == "X";
    Spill(Config(t, 2, false), s, ch, [], "Xcd", ReplaceX);
  }
}
