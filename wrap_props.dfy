/** Properties of the generator wrapper `sync_wrap` (`stream_processor/api/decorator.py`),
    stated over its reference semantics in module `Decorator`. */
module WrapProps {
  import opened Wrappers
  import opened History
  import opened Trie
  import opened Automaton
  import opened TrieBuild
  import opened ProcessorSpec
  import opened Decorator

  // ---------------------------------------------------------------------------
  // Feeding and flushing

  /** Feeding a token reads its characters up to the first halt: the position
      advances by one per character read, the halt flag is set exactly when a
      call halted, and the history only grows, recording every input character
      when the token is read to the end. */
  lemma {:induction false} FeedConsumes(cfg: Config, s: ProcState, cs: seq<char>, invoke: Invoke)
    requires [] in cfg.trie
    ensures var f := Feed(cfg, s, cs, invoke);
            && f.state.pos <= s.pos + |cs|
            && (!f.halted ==> f.state.pos == s.pos + |cs| && f.state.halted == s.halted)
            && (f.halted ==> f.state.halted && cs != [])
            && (cfg.recording && !f.halted ==> f.state.log.inputs == s.log.inputs + cs)
            && s.log.GrowsTo(f.state.log)
    decreases |cs|
  {
    if cs == [] {
      assert s.log.inputs + cs == s.log.inputs;
    } else {
      var c, rest := cs[0], cs[1..];
      assert s.log.inputs + cs == (s.log.inputs + [c]) + rest by {
        assert cs == [c] + rest;
      }
      var (s1, r) := ProcessSpec(cfg, s, c, invoke);
      ProcessConsumesOne(cfg, s, c, invoke);
      HaltFlag(cfg, s, c, invoke);
      if r.Emitted? {
        FeedConsumes(cfg, s1, rest, invoke);
        GrowsTransitive(s.log, s1.log, Feed(cfg, s1, rest, invoke).state.log);
      }
    }
  }

  /** `flush()` empties the buffer and leaves the automaton state, the position,
      the flags and the recorded inputs alone. */
  lemma FlushKeeps(cfg: Config, s: ProcState)
    ensures var s' := FlushSpec(cfg, s).0;
            && s'.buffer == []
            && s'.node == s.node && s'.pos == s.pos && s'.dropMode == s.dropMode && s'.halted == s.halted
            && s'.log.inputs == s.log.inputs && s.log.GrowsTo(s'.log)
  {
  }

  // ---------------------------------------------------------------------------
  // Token mode

  /** `''.join` distributes over a first token and the rest. */
  lemma ConcatCons(tokens: seq<string>)
    requires tokens != []
    ensures Concat(tokens) == tokens[0] + Concat(tokens[1..])
  {
  }

  lemma SeqAssoc(a: seq<char>, b: seq<char>, c: seq<char>)
    ensures a + (b + c) == (a + b) + c
  {
  }

  /** One token in token mode reads the token up to the first halt, as `Feed`
      does, and leaves the buffer empty. */
  lemma FeedAndFlushConsumes(cfg: Config, s: ProcState, t: seq<char>, invoke: Invoke)
    requires [] in cfg.trie
    ensures var g := FeedAndFlush(cfg, s, t, invoke);
            && g.state.buffer == []
            && (!g.halted ==> g.state.pos == s.pos + |t| && g.state.halted == s.halted)
            && (g.halted ==> g.state.halted)
            && (cfg.recording && !g.halted ==> g.state.log.inputs == s.log.inputs + t)
  {
    var f := Feed(cfg, s, t, invoke);
    FeedConsumes(cfg, s, t, invoke);
    FlushKeeps(cfg, f.state);
    var (s2, rem) := FlushSpec(cfg, f.state);
    FeedThenFlush(cfg, s, t, invoke, f, s2, rem);
  }

  /** Token mode yields at most one text per token, and exactly one per token
      when no halt happens. */
  lemma {:induction false} TokenModeCount(cfg: Config, s: ProcState, tokens: seq<string>, invoke: Invoke)
    requires [] in cfg.trie
    ensures var r := TokenMode(cfg, s, tokens, invoke);
            && |r.items| <= |tokens|
            && (!r.halted ==> |r.items| == |tokens|)
    decreases |tokens|
  {
    if tokens != [] {
      TokenModeCons(cfg, s, tokens, invoke);
      var g := FeedAndFlush(cfg, s, tokens[0], invoke);
      if !g.halted {
        TokenModeCount(cfg, g.state, tokens[1..], invoke);
      }
    }
  }

  /** When no halt happens, token mode reads and records every input character;
      a halt is remembered by the processor; and after the last token's flush
      the buffer is empty. */
  lemma {:induction false} TokenModeConsumes(cfg: Config, s: ProcState, tokens: seq<string>, invoke: Invoke)
    requires [] in cfg.trie
    ensures var r := TokenMode(cfg, s, tokens, invoke);
            && (!r.halted ==> r.state.pos == s.pos + |Concat(tokens)|)
            && (!r.halted && cfg.recording ==> r.state.log.inputs == s.log.inputs + Concat(tokens))
            && (r.halted ==> r.state.halted)
            && (tokens != [] ==> r.state.buffer == [])
    decreases |tokens|
  {
    if tokens != [] {
      var t0, rest := tokens[0], tokens[1..];
      ConcatCons(tokens);
      FeedAndFlushConsumes(cfg, s, t0, invoke);
      TokenModeCons(cfg, s, tokens, invoke);
      var g := FeedAndFlush(cfg, s, t0, invoke);
      if !g.halted {
        TokenModeConsumes(cfg, g.state, rest, invoke);
        SeqAssoc(s.log.inputs, t0, Concat(rest));
      }
    }
  }

  // ---------------------------------------------------------------------------
  // Character and chunk modes

  /** With a yield mode `_repack` accepts, the wrapper never raises. */
  lemma {:induction false} ValidModeNeverRaises(cfg: Config, s: ProcState, tokens: seq<string>, mode: string, invoke: Invoke)
    requires [] in cfg.trie && Repack([], mode).Ok?
    ensures StreamMode(cfg, s, tokens, mode, invoke).error == None
    decreases |tokens|
  {
    if tokens == [] {
      RepackErrorIgnoresInput(FlushSpec(cfg, s).1, mode);
    } else {
      var f := Feed(cfg, s, tokens[0], invoke);
      RepackErrorIgnoresInput(f.out, mode);
      if !f.halted {
        ValidModeNeverRaises(cfg, f.state, tokens[1..], mode, invoke);
      }
    }
  }

  /** With a yield mode `_repack` refuses, the wrapper yields nothing: it raises
      that `ValueError` as soon as the first token is read without a halt (or at
      the final flush when it has something to repack), and otherwise ends
      silently. */
  lemma InvalidModeYieldsNothing(cfg: Config, s: ProcState, tokens: seq<string>, mode: string, invoke: Invoke)
    requires [] in cfg.trie && Repack([], mode).Err?
    ensures var y := StreamMode(cfg, s, tokens, mode, invoke);
            && y.items == []
            && (y.error == None || y.error == Some(Repack([], mode).error))
            && (tokens != [] && !Feed(cfg, s, tokens[0], invoke).halted ==> y.error == Some(Repack([], mode).error))
            && (tokens == [] && FlushSpec(cfg, s).1 != [] ==> y.error == Some(Repack([], mode).error))
  {
    if tokens == [] {
      RepackErrorIgnoresInput(FlushSpec(cfg, s).1, mode);
    } else {
      RepackErrorIgnoresInput(Feed(cfg, s, tokens[0], invoke).out, mode);
    }
  }

  /** The text delivered does not depend on the yield mode: any two modes that
      `_repack` accepts yield items that join to the same characters. */
  lemma {:induction false} ModeIndependentText(cfg: Config, s: ProcState, tokens: seq<string>, m1: string, m2: string, invoke: Invoke)
    requires [] in cfg.trie && Repack([], m1).Ok? && Repack([], m2).Ok?
    ensures Concat(StreamMode(cfg, s, tokens, m1, invoke).items) == Concat(StreamMode(cfg, s, tokens, m2, invoke).items)
    decreases |tokens|
  {
    if tokens == [] {
      var rem := FlushSpec(cfg, s).1;
      RepackErrorIgnoresInput(rem, m1);
      RepackErrorIgnoresInput(rem, m2);
    } else {
      var f := Feed(cfg, s, tokens[0], invoke);
      if !f.halted {
        RepackErrorIgnoresInput(f.out, m1);
        RepackErrorIgnoresInput(f.out, m2);
        var v1, v2 := Repack(f.out, m1).value, Repack(f.out, m2).value;
        var r1 := StreamMode(cfg, f.state, tokens[1..], m1, invoke);
        var r2 := StreamMode(cfg, f.state, tokens[1..], m2, invoke);
        ModeIndependentText(cfg, f.state, tokens[1..], m1, m2, invoke);
        ConcatAppend(v1, r1.items);
        ConcatAppend(v2, r2.items);
      }
    }
  }

  /** Every item holds between one and `n` characters. */
  predicate Sized(items: seq<string>, n: nat) {
    forall i :: 0 <= i < |items| ==> 0 < |items[i]| <= n
  }

  lemma SizedAppend(a: seq<string>, b: seq<string>, n: nat)
    requires Sized(a, n) && Sized(b, n)
    ensures Sized(a + b, n)
  {
    forall i | 0 <= i < |a + b| ensures 0 < |(a + b)[i]| <= n {
      if i >= |a| {
        assert (a + b)[i] == b[i - |a|];
      }
    }
  }

  /** The repacking of each piece of output, in a mode whose items are all sized. */
  ghost predicate SizedMode(mode: string, n: nat) {
    forall chars: seq<char> {:trigger Repack(chars, mode)} :: Repack(chars, mode).Ok? && Sized(Repack(chars, mode).value, n)
  }

  lemma {:induction false} SizedItems(cfg: Config, s: ProcState, tokens: seq<string>, mode: string, n: nat, invoke: Invoke)
    requires [] in cfg.trie && SizedMode(mode, n)
    ensures var y := StreamMode(cfg, s, tokens, mode, invoke);
            y.error == None && Sized(y.items, n)
    decreases |tokens|
  {
    if tokens == [] {
      var rem := FlushSpec(cfg, s).1;
      assert Repack(rem, mode).Ok? && Sized(Repack(rem, mode).value, n);
    } else {
      StreamModeCons(cfg, s, tokens, mode, invoke);
      var f := Feed(cfg, s, tokens[0], invoke);
      if !f.halted {
        assert Repack(f.out, mode).Ok? && Sized(Repack(f.out, mode).value, n);
        SizedItems(cfg, f.state, tokens[1..], mode, n, invoke);
        SizedAppend(Repack(f.out, mode).value, StreamMode(cfg, f.state, tokens[1..], mode, invoke).items, n);
      }
    }
  }

  /** In character mode every item is a single character. */
  lemma CharModeItems(cfg: Config, s: ProcState, tokens: seq<string>, invoke: Invoke)
    requires [] in cfg.trie
    ensures var y := StreamMode(cfg, s, tokens, "char", invoke);
            y.error == None && forall i :: 0 <= i < |y.items| ==> |y.items[i]| == 1
  {
    forall chars: seq<char> ensures Repack(chars, "char").Ok? && Sized(Repack(chars, "char").value, 1) {
    }
    SizedItems(cfg, s, tokens, "char", 1, invoke);
  }

  /** In `chunk:n` mode every item holds between one and `n` characters. */
  lemma ChunkModeItems(cfg: Config, s: ProcState, tokens: seq<string>, d: string, invoke: Invoke)
    requires [] in cfg.trie && IsNumeral(d) && DigitsValue(d) > 0
    ensures var y := StreamMode(cfg, s, tokens, "chunk:" + d, invoke);
            y.error == None && Sized(y.items, DigitsValue(d))
  {
    var mode, n := "chunk:" + d, DigitsValue(d);
    forall chars: seq<char> ensures Repack(chars, mode).Ok? && Sized(Repack(chars, mode).value, n) {
      ChunkMode(chars, d);
    }
    SizedItems(cfg, s, tokens, mode, n, invoke);
  }


  // ---------------------------------------------------------------------------
  // A registry without keywords passes the stream through

  /** The keyword table of a registry with nothing registered. */
  const NoEntries: map<string, seq<CallbackId>> := map[]

  /** The configuration a registry with no keywords compiles to. */
  ghost predicate NoKeywords(cfg: Config) {
    Compiled(cfg.trie, NoEntries) && cfg.maxLen == 0
  }

  /** A processor at the root with nothing buffered and drop mode off. */
  predicate AtRest(s: ProcState) {
    s.node == [] && s.buffer == [] && !s.dropMode
  }

  /** With no keywords, the trie is the root alone. */
  lemma RootOnly(cfg: Config)
    requires NoKeywords(cfg)
    ensures cfg.trie.Keys == {[]} && cfg.trie[[]].output == []
  {
    forall p | p in cfg.trie ensures p == [] {
      assert IsTriePath(NoEntries.Keys, p);
    }
  }

  /** With no keywords, `process(ch)` returns `ch` at once and stays at rest. */
  lemma IdleStep(cfg: Config, s: ProcState, ch: char, invoke: Invoke)
    requires NoKeywords(cfg) && AtRest(s)
    ensures [] in cfg.trie
    ensures var (s', r) := ProcessSpec(cfg, s, ch, invoke);
            r == Emitted([ch]) && AtRest(s') && s'.halted == s.halted && s'.pos == s.pos + 1
  {
    RootOnly(cfg);
    var n := Target(cfg, s, ch);
    assert n == [];
    var e := Consume(cfg, s, ch);
    assert ProcessSpec(cfg, s, ch, invoke) == Settle(cfg, s, [], e);
    assert e.buffer == [ch];
  }

  /** With no keywords, feeding a token returns it unchanged. */
  lemma {:induction false} IdleFeed(cfg: Config, s: ProcState, cs: seq<char>, invoke: Invoke)
    requires NoKeywords(cfg) && AtRest(s)
    ensures [] in cfg.trie
    ensures var f := Feed(cfg, s, cs, invoke);
            f.out == cs && !f.halted && AtRest(f.state) && f.state.halted == s.halted
    decreases |cs|
  {
    RootOnly(cfg);
    if cs != [] {
      assert cs == [cs[0]] + cs[1..];
      IdleStep(cfg, s, cs[0], invoke);
      FeedCons(cfg, s, cs, invoke);
      var s1 := ProcessSpec(cfg, s, cs[0], invoke).0;
      IdleFeed(cfg, s1, cs[1..], invoke);
    }
  }

  /** With no keywords, one token of token mode comes back unchanged. */
  lemma IdleFeedAndFlush(cfg: Config, s: ProcState, t: string, invoke: Invoke)
    requires NoKeywords(cfg) && AtRest(s)
    ensures [] in cfg.trie
    ensures var g := FeedAndFlush(cfg, s, t, invoke);
            g.out == t && !g.halted && AtRest(g.state)
  {
    IdleFeed(cfg, s, t, invoke);
    var f := Feed(cfg, s, t, invoke);
    var (s2, rem) := FlushSpec(cfg, f.state);
    assert rem == [] && AtRest(s2);
    FeedThenFlush(cfg, s, t, invoke, f, s2, rem);
    assert f.out + rem == t;
  }

  /** With no keywords, token mode yields the tokens as they came. */
  lemma {:induction false} IdleTokens(cfg: Config, s: ProcState, tokens: seq<string>, invoke: Invoke)
    requires NoKeywords(cfg) && AtRest(s)
    ensures [] in cfg.trie
    ensures TokenMode(cfg, s, tokens, invoke).items == tokens
    decreases |tokens|
  {
    RootOnly(cfg);
    if tokens != [] {
      IdleFeedAndFlush(cfg, s, tokens[0], invoke);
      TokenModeCons(cfg, s, tokens, invoke);
      var g := FeedAndFlush(cfg, s, tokens[0], invoke);
      IdleTokens(cfg, g.state, tokens[1..], invoke);
      assert tokens == [tokens[0]] + tokens[1..];
    }
  }

  /** With no keywords, character mode yields the characters of the tokens one by one. */
  lemma {:induction false} IdleChars(cfg: Config, s: ProcState, tokens: seq<string>, invoke: Invoke)
    requires NoKeywords(cfg) && AtRest(s)
    ensures [] in cfg.trie
    ensures StreamMode(cfg, s, tokens, "char", invoke) == Yielded(Singletons(Concat(tokens)), None)
    decreases |tokens|
  {
    RootOnly(cfg);
    if tokens != [] {
      IdleFeed(cfg, s, tokens[0], invoke);
      var f := Feed(cfg, s, tokens[0], invoke);
      IdleChars(cfg, f.state, tokens[1..], invoke);
      SingletonsAppend(tokens[0], Concat(tokens[1..]));
      ConcatCons(tokens);
    }
  }

  /** A wrapper over a registry with no keywords passes the stream through: token
      mode yields the tokens and character mode their characters. */
  lemma PassThrough(cfg: Config, tokens: seq<string>, invoke: Invoke)
    requires NoKeywords(cfg)
    ensures [] in cfg.trie
    ensures WrapSpec(cfg, tokens, "token", invoke) == Yielded(tokens, None)
    ensures WrapSpec(cfg, tokens, "char", invoke) == Yielded(Singletons(Concat(tokens)), None)
  {
    RootOnly(cfg);
    IdleTokens(cfg, Initial, tokens, invoke);
    IdleChars(cfg, Initial, tokens, invoke);
  }

  /** A registry with nothing registered, once compiled, gives a configuration
      under which the wrapper passes every token through unchanged. */
  lemma EmptyRegistryPassesThrough(t: NodeMap, maxLen: nat, recording: bool, tokens: seq<string>, invoke: Invoke)
    requires Compiled(t, NoEntries) && IsMaxLen(NoEntries.Keys, maxLen)
    ensures [] in t
    ensures WrapSpec(Config(t, maxLen, recording), tokens, "token", invoke) == Yielded(tokens, None)
  {
    PassThrough(Config(t, maxLen, recording), tokens, invoke);
  }
}
