/** `StreamProcessor` (`stream_processor/engine/processor.py`): the buffer, the
    automaton state, the position and the two flags, updated in place by
    `process` and `flush`. Each method is proved against the reference
    semantics in `ProcessorSpec`. */
module Processor {
  import opened Wrappers
  import opened Types
  import opened History
  import opened Context
  import opened Trie
  import opened Automaton
  import opened TrieBuild
  import opened Registry
  import opened ProcessorSpec

  /** The history a processor records into: a real one or the no-op stub. */
  datatype Recorder = Full(h: StreamHistory) | Null(n: NullHistory)
  {
    ghost function Repr(): set<object> {
      if Full? then {h} else {}
    }

    function Log(): HistoryLog
      reads Repr()
    {
      match this
      case Full(h) => h.Log()
      case Null(n) => n.Log()
    }
  }

  /** Step 2 of `process`: from trie node `u`, follow failure links until a
      node has a child for `ch` or the root is reached, then take that child, or
      stay at the root. The result is the longest trie path ending `u + [ch]`. */
  method NextNode(trie: NodeMap, ghost keywords: map<string, seq<CallbackId>>, u: string, ch: char) returns (n: string)
    requires Compiled(trie, keywords) && u in trie
    ensures n == LongestSuffixIn(trie.Keys, u + [ch])
  {
    var S := trie.Keys;
    assert LongestSuffixIn(S, u) == u;
    SearchStart(S, u, ch);
    var f := u;
    while ch !in trie[f].children && f != []
      invariant f in trie && Searching(S, u, ch, f)
      decreases |f|
    {
      MissingChild(trie, f, ch);
      SearchStep(S, u, ch, f);
      CompiledNode(trie, keywords, f);
      f := trie[f].fail.value;
    }
    if ch !in trie[f].children {
      MissingChild(trie, f, ch);
    }
    SearchDone(S, u, ch, f);
    n := if ch in trie[f].children then trie[f].children[ch] else [];
  }

  /** The automaton a processor runs: the registry's, compiled first if needed. */
  method CompiledTrie(registry: KeywordRegistry) returns (t: NodeMap, longest: nat)
    requires registry.Valid()
    modifies registry
    ensures registry.Valid() && registry.compiled && registry.keywords == old(registry.keywords)
    ensures registry.root == Some(t) && longest == registry.maxLen
    ensures Compiled(t, registry.keywords) && IsMaxLen(registry.keywords.Keys, longest)
  {
    if !registry.compiled {
      registry.Compile();
    }
    t := registry.root.value;
    longest := registry.maxLen;
  }

  /** `StreamHistory()` when recording, `NullHistory()` otherwise, both empty. */
  method NewRecorder(recordHistory: bool) returns (rec: Recorder)
    ensures rec.Full? == recordHistory && fresh(rec.Repr()) && rec.Log() == EmptyLog
  {
    if recordHistory {
      var h := new StreamHistory();
      rec := Full(h);
    } else {
      var n := new NullHistory();
      rec := Null(n);
    }
  }

  /** After reading `ch` the automaton state follows the characters read since the
      last reset, and both candidate histories still end what was consumed. */
  lemma TrackingStep(S: set<string>, since: string, all: string, ch: char)
    requires [] in S && PrefixClosed(S) && IsSuffix(since, all)
    ensures LongestSuffixIn(S, LongestSuffixIn(S, since) + [ch]) == LongestSuffixIn(S, since + [ch])
    ensures IsSuffix(since + [ch], all + [ch]) && IsSuffix([], all + [ch])
    ensures LongestSuffixIn(S, []) == []
  {
    LongestSuffixExtend(S, since, ch);
    SuffixAppend(since, all, ch);
    var all' := all + [ch];
    assert all'[|all'|..] == [];
  }

  class StreamProcessor {
    const trie: NodeMap
    const maxLen: nat
    const history: Recorder
    /** The keyword table the trie was compiled from. */
    ghost const keywords: map<string, seq<CallbackId>>

    var node: string
    var buffer: seq<char>
    var pos: nat
    var dropMode: bool
    var halted: bool

    /** Every character ever passed to `process`. */
    ghost var consumed: seq<char>
    /** The characters read since the automaton was last reset to the root. */
    ghost var sinceReset: seq<char>

    function Cfg(): Config {
      Config(trie, maxLen, history.Full?)
    }

    function State(): ProcState
      reads this, history.Repr()
    {
      ProcState(node, buffer, pos, dropMode, halted, history.Log())
    }

    /** The trie is compiled from `keywords`, and `maxLen` is its longest keyword. */
    ghost predicate Ready() {
      && Compiled(trie, keywords) && IsMaxLen(keywords.Keys, maxLen)
      && this !in history.Repr()
    }

    /** The automaton state is the longest trie path ending the characters read
        since the last reset, and the position counts the characters read. */
    ghost predicate Tracking()
      reads this`node, this`pos, this`consumed, this`sinceReset
      requires Ready()
    {
      && node == LongestSuffixIn(trie.Keys, sinceReset)
      && IsSuffix(sinceReset, consumed) && pos == |consumed|
    }

    ghost predicate Valid()
      reads this`node, this`pos, this`consumed, this`sinceReset
    {
      Ready() && Tracking()
    }

    /** Prefix safety: the characters of the current trie path are all still buffered. */
    ghost predicate Aligned()
      reads this
    {
      IsSuffix(node, buffer)
    }

    /** `StreamProcessor(registry, record_history=...)`: compiles the registry if
        needed and starts at the root with an empty buffer. */
    constructor (registry: KeywordRegistry, recordHistory: bool)
      requires registry.Valid()
      modifies registry
      ensures registry.Valid() && registry.compiled && registry.keywords == old(registry.keywords)
      ensures registry.root == Some(trie) && maxLen == registry.maxLen && keywords == registry.keywords
      ensures Valid() && Aligned() && State() == Initial
      ensures history.Full? == recordHistory && fresh(history.Repr())
      ensures consumed == [] && sinceReset == []
    {
      var t, longest := CompiledTrie(registry);
      trie := t;
      maxLen := longest;
      keywords := registry.keywords;
      node := [];
      buffer := [];
      pos := 0;
      var rec := NewRecorder(recordHistory);
      history := rec;
      dropMode := false;
      halted := false;
      consumed := [];
      sinceReset := [];
      new;
      assert LongestSuffixIn(trie.Keys, []) == [];
      assert IsSuffix(sinceReset, consumed);
      assert State() == ProcState([], [], 0, false, false, EmptyLog);
    }

    method RecordInput(ch: char)
      modifies history.Repr()
      ensures history.Log() == Recorded(Cfg().recording, old(history.Log()), old(history.Log()).AddInput(ch))
    {
      match history
      case Full(h) => h.RecordInput(ch);
      case Null(n) => n.RecordInput(ch);
    }

    method RecordOutput(ch: char)
      modifies history.Repr()
      ensures history.Log() == Recorded(Cfg().recording, old(history.Log()), old(history.Log()).AddOutputs([ch]))
    {
      match history
      case Full(h) => h.RecordOutput(ch);
      case Null(n) => n.RecordOutput(ch);
    }

    method RecordAction(p: nat, kw: string, d: ActionDecision)
      modifies history.Repr()
      ensures history.Log() == Recorded(Cfg().recording, old(history.Log()), old(history.Log()).AddAction(ActionRecord(p, kw, d)))
    {
      match history
      case Full(h) => h.RecordAction(p, kw, d);
      case Null(n) => n.RecordAction(p, kw, d);
    }

    /** `for _ in range(n): if self._buffer: self._buffer.pop()`. */
    method PopRight(n: nat)
      modifies this`buffer
      ensures buffer == DropRight(old(buffer), n)
    {
      for i := 0 to n
        invariant buffer == DropRight(old(buffer), i)
      {
        if buffer != [] {
          buffer := buffer[..|buffer| - 1];
        }
      }
    }

    /** `for rc in text: self._buffer.append(rc)`. */
    method AppendAll(text: seq<char>)
      modifies this`buffer
      ensures buffer == old(buffer) + text
    {
      for i := 0 to |text|
        invariant buffer == old(buffer) + text[..i]
      {
        PrefixStep(text, i);
        buffer := buffer + [text[i]];
      }
    }

    /** `for c in cs: self._history.record_output(c); out.append(c)`. */
    method Emit(cs: seq<char>, out0: seq<char>) returns (out: seq<char>)
      modifies history.Repr()
      ensures out == out0 + cs
      ensures history.Log() == Recorded(Cfg().recording, old(history.Log()), old(history.Log()).AddOutputs(cs))
    {
      out := out0;
      for i := 0 to |cs|
        invariant out == out0 + cs[..i]
        invariant history.Log() == Recorded(Cfg().recording, old(history.Log()), old(history.Log()).AddOutputs(cs[..i]))
      {
        PrefixStep(cs, i);
        RecordOutput(cs[i]);
        out := out + [cs[i]];
      }
    }

    /** One decision applied to the buffer, the drop flag and the output. */
    method ApplyOne(kw: string, d: ActionDecision, out0: seq<char>) returns (stop: bool, out: seq<char>)
      modifies this`buffer, this`dropMode, history.Repr()
      ensures var a := ApplyDecision(Effects(old(buffer), old(dropMode), out0, old(history.Log())), kw, d, Cfg().recording);
              stop == a.Stop? && Effects(buffer, dropMode, out, history.Log()) == a.effects
    {
      stop := false;
      out := out0;
      match d.kind
      case ContinueDrop =>
        if !dropMode {
          var all := buffer;
          buffer := [];
          var prior := if |kw| <= |all| then WithoutLast(all, |kw|) else [];
          out := Emit(prior, out);
        }
        dropMode := true;
      case ContinuePass =>
        if dropMode {
          var all := buffer;
          buffer := [];
          var marker := if |kw| <= |all| then LastN(all, |kw|) else all;
          out := Emit(marker, out);
        }
        dropMode := false;
      case Drop =>
        PopRight(|kw|);
      case Replace =>
        PopRight(|kw|);
        AppendAll(ReplacementText(d));
      case Pass =>
      case Halt =>
        PopRight(|kw|);
        stop := true;
    }

    /** Step 3 of `process`: the callbacks of the matched keyword, in order; a
        `None` decision is skipped unrecorded, the others are recorded and applied,
        and a HALT ends the loop. */
    method RunCallbacks(kw: string, cbs: seq<CallbackId>, invoke: Invoke) returns (stop: bool, out: seq<char>)
      modifies this`buffer, this`dropMode, history.Repr()
      ensures var a := ApplyCallbacks(invoke, kw, cbs, pos, Cfg().recording, Effects(old(buffer), old(dropMode), [], old(history.Log())));
              stop == a.Stop? && Effects(buffer, dropMode, out, history.Log()) == a.effects
    {
      out := [];
      stop := false;
      ghost var e0 := Effects(buffer, dropMode, [], history.Log());
      ghost var rec := Cfg().recording;
      for i := 0 to |cbs|
        invariant ApplyCallbacks(invoke, kw, cbs, pos, rec, e0)
                  == ApplyCallbacks(invoke, kw, cbs[i..], pos, rec, Effects(buffer, dropMode, out, history.Log()))
      {
        assert cbs[i..][0] == cbs[i] && cbs[i..][1..] == cbs[i + 1..];
        var ctx := NewActionContext(kw, buffer, pos, history.Log());
        var decision := invoke(cbs[i], ctx);
        if decision.Some? {
          RecordAction(pos, kw, decision.value);
          stop, out := ApplyOne(kw, decision.value, out);
          if stop {
            return;
          }
        }
      }
    }

    /** Step 5 of `process`: the lazy flush. */
    method LazyFlushStep(out0: seq<char>) returns (out: seq<char>)
      modifies this`buffer, history.Repr()
      ensures (State(), out) == LazyFlush(Cfg(), old(State()), out0)
    {
      out := out0;
      if |buffer| > maxLen {
        var c := buffer[0];
        buffer := buffer[1..];
        if !dropMode {
          RecordOutput(c);
          out := out + [c];
        }
      }
    }

    /** Steps 1 and 2 of `process(ch)`: record and buffer `ch`, advance the
        position and move to the automaton state `n`. */
    method Admit(ch: char, n: string)
      requires this !in history.Repr()
      modifies this`buffer, this`pos, this`node, this`consumed, this`sinceReset, history.Repr()
      ensures Effects(buffer, dropMode, [], history.Log()) == Consume(Cfg(), old(State()), ch)
      ensures pos == old(pos) + 1 && node == n
      ensures consumed == old(consumed) + [ch] && sinceReset == old(sinceReset) + [ch]
    {
      RecordInput(ch);
      buffer := buffer + [ch];
      pos := pos + 1;
      node := n;
      consumed := consumed + [ch];
      sinceReset := sinceReset + [ch];
    }

    /** Steps 3 and 5 of `process(ch)` after a match at state `n`: the callbacks
        of its longest keyword run; a HALT sets the halt flag and ends the call,
        otherwise the automaton is reset to the root and the lazy flush runs.
        `s0` is the state the call started from. */
    method RunMatch(ch: char, n: string, invoke: Invoke, ghost s0: ProcState) returns (r: Outcome)
      requires n in trie && trie[n].output != []
      requires this !in history.Repr()
      requires Effects(buffer, dropMode, [], history.Log()) == Consume(Cfg(), s0, ch)
      requires pos == s0.pos + 1 && halted == s0.halted && node == n
      modifies this, history.Repr()
      ensures (State(), r) == Fire(Cfg(), s0, ch, n, Longest(trie[n].output), invoke)
      ensures consumed == old(consumed)
      ensures r.Emitted? ==> node == [] && sinceReset == []
      ensures r.Halted? ==> sinceReset == old(sinceReset)
    {
      var m := Longest(trie[n].output);
      var stop, out := RunCallbacks(m.keyword, m.callbacks, invoke);
      if stop {
        halted := true;
        return Halted;
      }
      node := [];
      sinceReset := [];
      out := LazyFlushStep(out);
      r := Emitted(out);
    }

    /** Steps 1 and 3 to 5 of `process(ch)`, once step 2 has found the next
        automaton state `n`. */
    method Step(ch: char, n: string, invoke: Invoke) returns (r: Outcome)
      requires n in trie
      requires this !in history.Repr()
      modifies this, history.Repr()
      ensures (State(), r) == StepSpec(Cfg(), old(State()), ch, n, invoke)
      ensures pos == old(pos) + 1
      ensures consumed == old(consumed) + [ch]
      ensures trie[n].output != [] && r.Emitted? ==> node == [] && sinceReset == []
      ensures !(trie[n].output != [] && r.Emitted?) ==> node == n && sinceReset == old(sinceReset) + [ch]
    {
      ghost var s0 := State();
      Admit(ch, n);
      if trie[n].output != [] {
        r := RunMatch(ch, n, invoke, s0);
      } else {
        var out := LazyFlushStep([]);
        r := Emitted(out);
      }
    }

    /** `process(ch)`. The result and the new state are those of `ProcessSpec`;
        a call that does not halt keeps every character of the current trie path
        in the buffer. */
    method Process(ch: char, invoke: Invoke) returns (r: Outcome)
      requires Valid()
      modifies this, history.Repr()
      ensures Valid()
      ensures (State(), r) == ProcessSpec(Cfg(), old(State()), ch, invoke)
      ensures consumed == old(consumed) + [ch] && pos == |consumed|
      ensures old(Aligned()) && r.Emitted? ==> Aligned()
    {
      ghost var s0 := State();
      ghost var cfg := Cfg();
      ghost var S := trie.Keys;
      ghost var since := sinceReset + [ch];
      ghost var all := consumed + [ch];
      var n := NextNode(trie, keywords, node, ch);
      TrackingStep(S, sinceReset, consumed, ch);
      CompiledBounded(trie, keywords, maxLen, cfg.recording);
      StaysAligned(cfg, s0, ch, invoke);
      assert n == Target(cfg, s0, ch);
      r := Step(ch, n, invoke);
      assert consumed == all && pos == |all|;
      if trie[n].output != [] && r.Emitted? {
        assert node == LongestSuffixIn(S, sinceReset) && IsSuffix(sinceReset, all);
      } else {
        assert node == LongestSuffixIn(S, sinceReset) && IsSuffix(sinceReset, all);
      }
    }

    /** `flush()`. The result and the new state are those of `FlushSpec`. */
    method Flush() returns (r: seq<char>)
      modifies this`buffer, history.Repr()
      ensures (State(), r) == FlushSpec(Cfg(), old(State()))
    {
      if halted {
        var rem := buffer;
        buffer := [];
        if dropMode {
          return [];
        }
        return rem;
      }
      if dropMode {
        buffer := [];
        return [];
      }
      var rem := buffer;
      for i := 0 to |rem|
        modifies history.Repr()
        invariant history.Log() == Recorded(Cfg().recording, old(history.Log()), old(history.Log()).AddOutputs(rem[..i]))
      {
        PrefixStep(rem, i);
        RecordOutput(rem[i]);
      }
      assert rem[..|rem|] == rem;
      buffer := [];
      r := rem;
    }
  }
}
