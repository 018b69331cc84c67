/** Reference semantics of `StreamProcessor.process` and `flush`
    (`stream_processor/engine/processor.py`), on values: one call maps a
    processor state to the next state and what the call returns. */
module ProcessorSpec {
  import opened Wrappers
  import opened Types
  import opened History
  import opened Context
  import opened Trie
  import opened Automaton
  import opened TrieBuild

  /** A callback, applied to its id and the context of a match; `None` means PASS. */
  type Invoke = (CallbackId, ActionContext) -> Option<ActionDecision>

  /** What `process` ends with: the characters it returns, or `StreamHalted`. */
  datatype Outcome = Emitted(chars: seq<char>) | Halted

  /** The fixed parts of a processor: the compiled trie, `max_len`, and whether a
      real history (rather than the no-op stub) is kept. */
  datatype Config = Config(trie: NodeMap, maxLen: nat, recording: bool)

  /** The mutable parts of a processor, and the history as a value. */
  datatype ProcState = ProcState(node: string, buffer: seq<char>, pos: nat, dropMode: bool, halted: bool, log: HistoryLog)

  /** What the callback loop works on: the buffer, the drop flag, the characters
      collected for this call, and the history. */
  datatype Effects = Effects(buffer: seq<char>, dropMode: bool, out: seq<char>, log: HistoryLog)

  /** The loop goes on, or a HALT stopped it. */
  datatype Applied = Go(effects: Effects) | Stop(effects: Effects)

  /** The state of a freshly constructed processor. */
  const Initial := ProcState([], [], 0, false, false, EmptyLog)

  function Min(a: nat, b: nat): nat {
    if a <= b then a else b
  }

  /** A recording call on the history: takes effect only on a real history. */
  function Recorded(recording: bool, log: HistoryLog, updated: HistoryLog): HistoryLog {
    if recording then updated else log
  }

  /** `n` times `if buffer: buffer.pop()`. */
  function DropRight(buffer: seq<char>, n: nat): (r: seq<char>)
    ensures |r| == |buffer| - Min(n, |buffer|)
    ensures r == buffer[..|r|]
  {
    buffer[..|buffer| - Min(n, |buffer|)]
  }

  /** Python's `a[:-n]`: all but the last `n` items, where `a[:-0]` is empty. */
  function WithoutLast(a: seq<char>, n: nat): seq<char>
    requires n <= |a|
  {
    if n == 0 then [] else a[..|a| - n]
  }

  /** Python's `a[-n:]`: the last `n` items, where `a[-0:]` is all of `a`. */
  function LastN(a: seq<char>, n: nat): seq<char>
    requires n <= |a|
  {
    if n == 0 then a else a[|a| - n..]
  }

  /** For a keyword, which is never empty, the part CONTINUE_DROP emits and the
      marker CONTINUE_PASS emits split the buffer. */
  lemma PriorAndMarker(a: seq<char>, n: nat)
    requires 0 < n <= |a|
    ensures WithoutLast(a, n) + LastN(a, n) == a
    ensures |LastN(a, n)| == n
  {
  }

  /** Python's `max(output, key=len(keyword))`: the first entry of greatest keyword length. */
  function Longest(es: seq<Entry>): (e: Entry)
    requires es != []
    ensures e in es
    ensures forall x :: x in es ==> |x.keyword| <= |e.keyword|
    ensures exists i :: 0 <= i < |es| && es[i] == e && forall j :: 0 <= j < i ==> |es[j].keyword| < |e.keyword|
    decreases |es|
  {
    if |es| == 1 then es[0]
    else
      var init := es[..|es| - 1];
      var m := Longest(init);
      var last := es[|es| - 1];
      assert es == init + [last];
      if |last.keyword| > |m.keyword| then last else m
  }

  /** On a list sorted by strictly decreasing length the longest entry is the head. */
  lemma LongestOfSorted(es: seq<Entry>)
    requires es != []
    requires forall i, j :: 0 <= i < j < |es| ==> |es[i].keyword| > |es[j].keyword|
    ensures Longest(es) == es[0]
  {
    var e := Longest(es);
    assert |es[0].keyword| <= |e.keyword| by {
      assert es[0] in es;
    }
    var i :| 0 <= i < |es| && es[i] == e;
    assert i == 0;
  }

  /** One callback decision applied to the buffer, the drop flag and the output. */
  function ApplyDecision(e: Effects, kw: string, d: ActionDecision, recording: bool): (a: Applied)
    ensures d.kind == Halt <==> a.Stop?
  {
    match d.kind
    case ContinueDrop =>
      if e.dropMode then Go(e)
      else
        var prior := if |kw| <= |e.buffer| then WithoutLast(e.buffer, |kw|) else [];
        Go(Effects([], true, e.out + prior, Recorded(recording, e.log, e.log.AddOutputs(prior))))
    case ContinuePass =>
      if !e.dropMode then Go(e)
      else
        var marker := if |kw| <= |e.buffer| then LastN(e.buffer, |kw|) else e.buffer;
        Go(Effects([], false, e.out + marker, Recorded(recording, e.log, e.log.AddOutputs(marker))))
    case Drop => Go(e.(buffer := DropRight(e.buffer, |kw|)))
    case Replace => Go(e.(buffer := DropRight(e.buffer, |kw|) + ReplacementText(d)))
    case Pass => Go(e)
    case Halt => Stop(e.(buffer := DropRight(e.buffer, |kw|)))
  }

  /** The context a callback of a match is handed: the matched keyword, the
      buffer and history as the callbacks before it left them, and the 1-based
      position of the character just read. */
  function MatchContext(kw: string, pos: nat, e: Effects): ActionContext {
    NewActionContext(kw, e.buffer, pos, e.log)
  }

  /** The callbacks of the matched keyword, applied in order, each seeing the
      buffer and history as the previous ones left them. */
  function ApplyCallbacks(invoke: Invoke, kw: string, cbs: seq<CallbackId>, pos: nat, recording: bool, e: Effects): Applied
    decreases |cbs|
  {
    if cbs == [] then Go(e)
    else
      match invoke(cbs[0], MatchContext(kw, pos, e))
      case None => ApplyCallbacks(invoke, kw, cbs[1..], pos, recording, e)
      case Some(d) =>
        var e1 := e.(log := Recorded(recording, e.log, e.log.AddAction(ActionRecord(pos, kw, d))));
        match ApplyDecision(e1, kw, d, recording)
        case Stop(f) => Stop(f)
        case Go(f) => ApplyCallbacks(invoke, kw, cbs[1..], pos, recording, f)
  }

  /** The lazy flush: when the buffer is longer than `max_len`, its oldest character
      leaves it, and is emitted and recorded unless drop mode is on. */
  function LazyFlush(cfg: Config, s: ProcState, out: seq<char>): (r: (ProcState, seq<char>))
    ensures |s.buffer| <= cfg.maxLen ==> r == (s, out)
    ensures |s.buffer| > cfg.maxLen ==> r.0.buffer == s.buffer[1..]
    ensures |s.buffer| > cfg.maxLen && !s.dropMode ==>
              r.1 == out + [s.buffer[0]] && r.0.log == Recorded(cfg.recording, s.log, s.log.AddOutputs([s.buffer[0]]))
    ensures |s.buffer| > cfg.maxLen && s.dropMode ==> r.1 == out && r.0.log == s.log
    ensures r.0.(buffer := s.buffer, log := s.log) == s
  {
    if |s.buffer| > cfg.maxLen then
      var c := s.buffer[0];
      if !s.dropMode then
        (s.(buffer := s.buffer[1..], log := Recorded(cfg.recording, s.log, s.log.AddOutputs([c]))), out + [c])
      else
        (s.(buffer := s.buffer[1..]), out)
    else
      (s, out)
  }

  /** The state `process(ch)` moves to along the trie: the longest path of the
      trie that is a suffix of the current path followed by `ch`. */
  function Target(cfg: Config, s: ProcState, ch: char): (n: string)
    requires [] in cfg.trie
    ensures n in cfg.trie
  {
    LongestSuffixIn(cfg.trie.Keys, s.node + [ch])
  }

  /** Steps 1 and 2 of `process(ch)`: the input is recorded and buffered and the
      position advances. */
  function Consume(cfg: Config, s: ProcState, ch: char): Effects {
    Effects(s.buffer + [ch], s.dropMode, [], Recorded(cfg.recording, s.log, s.log.AddInput(ch)))
  }

  /** The end of a call that did not halt: the automaton state becomes `node`,
      then the lazy flush runs; the call returns what was collected. */
  function Settle(cfg: Config, s: ProcState, node: string, e: Effects): (ProcState, Outcome) {
    var r := LazyFlush(cfg, ProcState(node, e.buffer, s.pos + 1, e.dropMode, s.halted, e.log), e.out);
    (r.0, Emitted(r.1))
  }

  /** A match of entry `m` at state `n`: the callbacks run; a HALT aborts the call
      with the state left at `n`, otherwise the state is reset to the root. */
  function Fire(cfg: Config, s: ProcState, ch: char, n: string, m: Entry, invoke: Invoke): (ProcState, Outcome) {
    match ApplyCallbacks(invoke, m.keyword, m.callbacks, s.pos + 1, cfg.recording, Consume(cfg, s, ch))
    case Stop(f) => (ProcState(n, f.buffer, s.pos + 1, f.dropMode, true, f.log), Halted)
    case Go(f) => Settle(cfg, s, [], f)
  }

  /** `process(ch)` once step 2 has found the next automaton state `n`: a node
      without output settles there, otherwise its longest keyword fires. */
  function StepSpec(cfg: Config, s: ProcState, ch: char, n: string, invoke: Invoke): (ProcState, Outcome)
    requires n in cfg.trie
  {
    if cfg.trie[n].output == [] then Settle(cfg, s, n, Consume(cfg, s, ch))
    else Fire(cfg, s, ch, n, Longest(cfg.trie[n].output), invoke)
  }

  /** `process(ch)`: the next state and the result. */
  function ProcessSpec(cfg: Config, s: ProcState, ch: char, invoke: Invoke): (ProcState, Outcome)
    requires [] in cfg.trie
  {
    StepSpec(cfg, s, ch, Target(cfg, s, ch), invoke)
  }

  /** `flush()`: what it returns and the state it leaves. */
  function FlushSpec(cfg: Config, s: ProcState): (ProcState, seq<char>) {
    if s.halted then
      (s.(buffer := []), if s.dropMode then [] else s.buffer)
    else if s.dropMode then
      (s.(buffer := []), [])
    else
      (s.(buffer := [], log := Recorded(cfg.recording, s.log, s.log.AddOutputs(s.buffer))), s.buffer)
  }

  // ---------------------------------------------------------------------------
  // Properties of a single decision

  /** DROP takes `min(len(kw), len(buffer))` characters off the right end of the
      buffer and changes nothing else; REPLACE then appends the replacement. */
  lemma DropAndReplaceEffect(e: Effects, kw: string, d: ActionDecision, recording: bool)
    requires d.kind == Drop || d.kind == Replace
    ensures var f := ApplyDecision(e, kw, d, recording).effects;
            var kept := |e.buffer| - Min(|kw|, |e.buffer|);
            && ApplyDecision(e, kw, d, recording).Go?
            && f.buffer[..kept] == e.buffer[..kept]
            && (d.kind == Drop ==> |f.buffer| == kept)
            && (d.kind == Replace ==> f.buffer[kept..] == ReplacementText(d))
            && f.dropMode == e.dropMode && f.out == e.out && f.log == e.log
  {
  }

  /** HALT takes `min(len(kw), len(buffer))` characters off the right end of the
      buffer, stops the callback loop and changes nothing else. */
  lemma HaltEffect(e: Effects, kw: string, d: ActionDecision, recording: bool)
    requires d.kind == Halt
    ensures var a := ApplyDecision(e, kw, d, recording);
            && a.Stop?
            && |a.effects.buffer| == |e.buffer| - Min(|kw|, |e.buffer|)
            && a.effects.buffer == e.buffer[..|a.effects.buffer|]
            && a.effects.(buffer := e.buffer) == e
  {
  }

  /** PASS changes nothing. */
  lemma PassEffect(e: Effects, kw: string, d: ActionDecision, recording: bool)
    requires d.kind == Pass
    ensures ApplyDecision(e, kw, d, recording) == Go(e)
  {
  }

  /** CONTINUE_DROP outside drop mode emits (and, on a real history, records as
      output) the buffer without the matched keyword and empties the buffer;
      inside drop mode it does nothing. */
  lemma ContinueDropEffect(e: Effects, kw: string, d: ActionDecision, recording: bool)
    requires d.kind == ContinueDrop && kw != []
    ensures var f := ApplyDecision(e, kw, d, recording).effects;
            && f.dropMode
            && (e.dropMode ==> f == e.(dropMode := true))
            && (!e.dropMode ==> f.buffer == [] && f.out == e.out + (if |kw| <= |e.buffer| then e.buffer[..|e.buffer| - |kw|] else []))
            && (recording ==> f.log.outputs == e.log.outputs + f.out[|e.out|..])
            && (recording ==> f.log.inputs == e.log.inputs && f.log.actions == e.log.actions)
            && (!recording ==> f.log == e.log)
  {
  }

  /** CONTINUE_PASS inside drop mode emits (and, on a real history, records as
      output) exactly the matched marker (the last `len(kw)` characters of the
      buffer, or all of a shorter buffer) and empties the buffer; outside drop
      mode it does nothing. */
  lemma ContinuePassEffect(e: Effects, kw: string, d: ActionDecision, recording: bool)
    requires d.kind == ContinuePass && kw != []
    ensures var f := ApplyDecision(e, kw, d, recording).effects;
            && !f.dropMode
            && (!e.dropMode ==> f == e)
            && (e.dropMode ==> f.buffer == [] && f.out == e.out + (if |kw| <= |e.buffer| then e.buffer[|e.buffer| - |kw|..] else e.buffer))
            && (e.dropMode && |kw| <= |e.buffer| ==> |f.out| == |e.out| + |kw|)
            && (recording ==> f.log.outputs == e.log.outputs + f.out[|e.out|..])
            && (recording ==> f.log.inputs == e.log.inputs && f.log.actions == e.log.actions)
            && (!recording ==> f.log == e.log)
  {
  }

  /** A callback returning `None` is skipped: no action is recorded and nothing changes. */
  lemma NoneIsSkipped(invoke: Invoke, kw: string, cb: CallbackId, rest: seq<CallbackId>, pos: nat, recording: bool, e: Effects)
    requires invoke(cb, MatchContext(kw, pos, e)) == None
    ensures ApplyCallbacks(invoke, kw, [cb] + rest, pos, recording, e) == ApplyCallbacks(invoke, kw, rest, pos, recording, e)
  {
    assert ([cb] + rest)[1..] == rest;
  }

  /** Several callbacks deciding DROP pop one keyword length each: two pop `2*len(kw)`. */
  lemma TwoDrops(invoke: Invoke, kw: string, cb1: CallbackId, cb2: CallbackId, pos: nat, recording: bool, e: Effects)
    requires |e.buffer| >= 2 * |kw|
    requires forall ctx :: invoke(cb1, ctx) == Some(NewActionDecision(Drop))
    requires forall ctx :: invoke(cb2, ctx) == Some(NewActionDecision(Drop))
    ensures var a := ApplyCallbacks(invoke, kw, [cb1, cb2], pos, recording, e);
            a.Go? && a.effects.buffer == e.buffer[..|e.buffer| - 2 * |kw|]
  {
    var e1 := e.(log := Recorded(recording, e.log, e.log.AddAction(ActionRecord(pos, kw, NewActionDecision(Drop)))));
    var f1 := e1.(buffer := DropRight(e1.buffer, |kw|));
    assert ApplyCallbacks(invoke, kw, [cb1, cb2], pos, recording, e) == ApplyCallbacks(invoke, kw, [cb2], pos, recording, f1);
    var e2 := f1.(log := Recorded(recording, f1.log, f1.log.AddAction(ActionRecord(pos, kw, NewActionDecision(Drop)))));
    var f2 := e2.(buffer := DropRight(e2.buffer, |kw|));
    assert ApplyCallbacks(invoke, kw, [cb2], pos, recording, f1) == ApplyCallbacks(invoke, kw, [], pos, recording, f2);
  }

  /** The callback loop only appends to the history and to the collected
      output, and never records input. */
  lemma {:induction false} CallbacksGrowLog(invoke: Invoke, kw: string, cbs: seq<CallbackId>, pos: nat, recording: bool, e: Effects)
    ensures e.log.GrowsTo(ApplyCallbacks(invoke, kw, cbs, pos, recording, e).effects.log)
    ensures e.out <= ApplyCallbacks(invoke, kw, cbs, pos, recording, e).effects.out
    ensures ApplyCallbacks(invoke, kw, cbs, pos, recording, e).effects.log.inputs == e.log.inputs
    decreases |cbs|
  {
    if cbs != [] {
      match invoke(cbs[0], MatchContext(kw, pos, e))
      case None =>
        CallbacksGrowLog(invoke, kw, cbs[1..], pos, recording, e);
      case Some(d) =>
        var e1 := e.(log := Recorded(recording, e.log, e.log.AddAction(ActionRecord(pos, kw, d))));
        match ApplyDecision(e1, kw, d, recording)
        case Stop(f) =>
        case Go(f) =>
          CallbacksGrowLog(invoke, kw, cbs[1..], pos, recording, f);
    }
  }

  // ---------------------------------------------------------------------------
  // Properties of a whole call

  /** The end of a call takes one position step, and only appends outputs. */
  lemma SettleLog(cfg: Config, s: ProcState, node: string, e: Effects)
    ensures var r := Settle(cfg, s, node, e).0;
            && r.pos == s.pos + 1 && e.log.GrowsTo(r.log) && r.log.inputs == e.log.inputs
            && (!cfg.recording ==> r.log == e.log)
  {
    LazyFlushLog(cfg, ProcState(node, e.buffer, s.pos + 1, e.dropMode, s.halted, e.log), e.out);
  }

  /** A match takes one position step, and its callbacks only append actions and outputs. */
  lemma FireLog(cfg: Config, s: ProcState, ch: char, n: string, m: Entry, invoke: Invoke)
    ensures var e0 := Consume(cfg, s, ch);
            var r := Fire(cfg, s, ch, n, m, invoke).0;
            && r.pos == s.pos + 1 && e0.log.GrowsTo(r.log) && r.log.inputs == e0.log.inputs
            && (!cfg.recording ==> r.log == e0.log)
  {
    var e0 := Consume(cfg, s, ch);
    var a := ApplyCallbacks(invoke, m.keyword, m.callbacks, s.pos + 1, cfg.recording, e0);
    CallbacksGrowLog(invoke, m.keyword, m.callbacks, s.pos + 1, cfg.recording, e0);
    if !cfg.recording {
      CallbacksKeepNullLog(invoke, m.keyword, m.callbacks, s.pos + 1, e0);
    }
    if a.Go? {
      SettleLog(cfg, s, [], a.effects);
      GrowsTransitive(e0.log, a.effects.log, Settle(cfg, s, [], a.effects).0.log);
    }
  }

  /** Every `process` call records its character as input (on a real history),
      advances the position by exactly one, and only ever appends to the history;
      with the no-op history nothing is recorded. */
  lemma ProcessConsumesOne(cfg: Config, s: ProcState, ch: char, invoke: Invoke)
    requires [] in cfg.trie
    ensures var s' := ProcessSpec(cfg, s, ch, invoke).0;
            && s'.pos == s.pos + 1
            && (cfg.recording ==> s'.log.inputs == s.log.inputs + [ch])
            && (!cfg.recording ==> s'.log == s.log)
            && s.log.GrowsTo(s'.log)
  {
    var e0 := Consume(cfg, s, ch);
    var n := Target(cfg, s, ch);
    var r := ProcessSpec(cfg, s, ch, invoke).0;
    if cfg.trie[n].output == [] {
      SettleLog(cfg, s, n, e0);
    } else {
      FireLog(cfg, s, ch, n, Longest(cfg.trie[n].output), invoke);
    }
    GrowsTransitive(s.log, e0.log, r.log);
  }

  /** A call that halts sets the halt flag; a call that returns leaves it as it was. */
  lemma HaltFlag(cfg: Config, s: ProcState, ch: char, invoke: Invoke)
    requires [] in cfg.trie
    ensures var (s', r) := ProcessSpec(cfg, s, ch, invoke);
            s'.halted == (s.halted || r.Halted?)
  {
    var e0 := Consume(cfg, s, ch);
    var n := Target(cfg, s, ch);
    if cfg.trie[n].output == [] {
      assert ProcessSpec(cfg, s, ch, invoke) == Settle(cfg, s, n, e0);
    } else {
      var m := Longest(cfg.trie[n].output);
      assert ProcessSpec(cfg, s, ch, invoke) == Fire(cfg, s, ch, n, m, invoke);
    }
  }

  /** Without a real history, the callback loop leaves the log as it was. */
  lemma {:induction false} CallbacksKeepNullLog(invoke: Invoke, kw: string, cbs: seq<CallbackId>, pos: nat, e: Effects)
    ensures ApplyCallbacks(invoke, kw, cbs, pos, false, e).effects.log == e.log
    decreases |cbs|
  {
    if cbs != [] {
      match invoke(cbs[0], MatchContext(kw, pos, e))
      case None =>
        CallbacksKeepNullLog(invoke, kw, cbs[1..], pos, e);
      case Some(d) =>
        match ApplyDecision(e, kw, d, false)
        case Stop(f) =>
        case Go(f) =>
          CallbacksKeepNullLog(invoke, kw, cbs[1..], pos, f);
    }
  }

  /** The lazy flush only appends to the output log, and only on a real history. */
  lemma LazyFlushLog(cfg: Config, s: ProcState, out: seq<char>)
    ensures var l := LazyFlush(cfg, s, out).0.log;
            s.log.GrowsTo(l) && l.inputs == s.log.inputs && (!cfg.recording ==> l == s.log)
  {
  }

  /** A call in which no keyword ends appends `ch` to the buffer, and the lazy
      flush then removes at most the oldest character, only when the buffer is
      longer than `max_len`; that character is returned iff drop mode is off. */
  lemma QuietStep(cfg: Config, s: ProcState, ch: char, invoke: Invoke)
    requires [] in cfg.trie
    requires cfg.trie[Target(cfg, s, ch)].output == []
    ensures var (s', r) := ProcessSpec(cfg, s, ch, invoke);
            var b := s.buffer + [ch];
            && r.Emitted? && s'.node == Target(cfg, s, ch) && s'.dropMode == s.dropMode && s'.halted == s.halted
            && (|b| <= cfg.maxLen ==> s'.buffer == b && r.chars == [])
            && (|b| > cfg.maxLen ==> s'.buffer == b[1..] && r.chars == (if s.dropMode then [] else [b[0]]))
  {
    var e0 := Consume(cfg, s, ch);
    var n := Target(cfg, s, ch);
    assert ProcessSpec(cfg, s, ch, invoke) == Settle(cfg, s, n, e0);
    SettleState(cfg, s, n, e0);
  }

  /** With a compiled trie, the state after reading `ch` is the longest trie path
      ending the characters read since the last reset; a match fires exactly when
      a keyword ends there, and the keyword handed to the callbacks is the longest
      such keyword, with its own callbacks. */
  lemma MatchIsLongestKeyword(cfg: Config, kws: map<string, seq<CallbackId>>, s: ProcState, since: string, ch: char)
    requires Compiled(cfg.trie, kws)
    requires s.node == LongestSuffixIn(cfg.trie.Keys, since)
    ensures Target(cfg, s, ch) == LongestSuffixIn(cfg.trie.Keys, since + [ch])
    ensures var out := cfg.trie[Target(cfg, s, ch)].output;
            && (out != [] <==> exists k :: k in kws && IsSuffix(k, since + [ch]))
            && (out != [] ==>
                  var m := Longest(out);
                  && m.keyword in kws && m.callbacks == kws[m.keyword]
                  && IsSuffix(m.keyword, since + [ch])
                  && forall k :: k in kws && IsSuffix(k, since + [ch]) ==> |k| <= |m.keyword|)
  {
    var S := cfg.trie.Keys;
    LongestSuffixExtend(S, since, ch);
    var n := Target(cfg, s, ch);
    CompiledNode(cfg.trie, kws, n);
    KeywordsAreNodes(cfg.trie, kws);
    KeywordSuffixesOfLongest(kws, S, since + [ch]);
    var out := cfg.trie[n].output;
    assert out == KeywordSuffixes(kws, since + [ch]);
    if exists k :: k in kws && IsSuffix(k, since + [ch]) {
      var k :| k in kws && IsSuffix(k, since + [ch]);
      assert Entry(k, kws[k]) in out;
    }
    if out != [] {
      LongestOfSorted(out);
      forall k | k in kws && IsSuffix(k, since + [ch])
        ensures |k| <= |Longest(out).keyword|
      {
        assert Entry(k, kws[k]) in out;
      }
    }
  }

  /** Prefix safety: while the characters of the current trie path are all still
      buffered, a match hands its first callback the matched keyword, the buffer
      with the character just read (which ends with the keyword), and that
      character's 1-based position, one past the characters read before
      (`FirstCallbackHalts` shows the callbacks are handed this context). */
  lemma FirstContext(cfg: Config, kws: map<string, seq<CallbackId>>, s: ProcState, ch: char)
    requires Compiled(cfg.trie, kws) && s.node in cfg.trie
    requires IsSuffix(s.node, s.buffer)
    requires cfg.trie[Target(cfg, s, ch)].output != []
    ensures var m := Longest(cfg.trie[Target(cfg, s, ch)].output);
            var ctx := MatchContext(m.keyword, s.pos + 1, Consume(cfg, s, ch));
            && ctx.keyword == m.keyword
            && ctx.buffer == s.buffer + [ch] && IsSuffix(m.keyword, ctx.buffer)
            && ctx.absolutePos == s.pos + 1
  {
    var n := Target(cfg, s, ch);
    CompiledNode(cfg.trie, kws, n);
    var m := Longest(cfg.trie[n].output);
    SuffixAppend(s.node, s.buffer, ch);
    SuffixTrans(n, s.node + [ch], s.buffer + [ch]);
    SuffixTrans(m.keyword, n, s.buffer + [ch]);
  }

  /** The first callback of a match is handed the context `FirstContext`
      describes: one that decides HALT on it halts the call. */
  lemma FirstCallbackHalts(cfg: Config, s: ProcState, ch: char, invoke: Invoke)
    requires [] in cfg.trie
    requires cfg.trie[Target(cfg, s, ch)].output != []
    ensures var m := Longest(cfg.trie[Target(cfg, s, ch)].output);
            var ctx := MatchContext(m.keyword, s.pos + 1, Consume(cfg, s, ch));
            m.callbacks != [] && invoke(m.callbacks[0], ctx).Some? && invoke(m.callbacks[0], ctx).value.kind == Halt ==>
              ProcessSpec(cfg, s, ch, invoke).1 == Halted
  {
    var n := Target(cfg, s, ch);
    var m := Longest(cfg.trie[n].output);
    var e0 := Consume(cfg, s, ch);
    var ctx := MatchContext(m.keyword, s.pos + 1, e0);
    assert ProcessSpec(cfg, s, ch, invoke) == Fire(cfg, s, ch, n, m, invoke);
    if m.callbacks != [] && invoke(m.callbacks[0], ctx).Some? && invoke(m.callbacks[0], ctx).value.kind == Halt {
      FirstDecisionHalts(invoke, m.keyword, m.callbacks, s.pos + 1, cfg.recording, e0);
      FireHalts(cfg, s, ch, n, m, invoke);
    }
  }

  lemma FireHalts(cfg: Config, s: ProcState, ch: char, n: string, m: Entry, invoke: Invoke)
    requires ApplyCallbacks(invoke, m.keyword, m.callbacks, s.pos + 1, cfg.recording, Consume(cfg, s, ch)).Stop?
    ensures Fire(cfg, s, ch, n, m, invoke).1 == Halted
  {
  }

  /** A callback loop whose first decision is HALT stops. */
  lemma FirstDecisionHalts(invoke: Invoke, kw: string, cbs: seq<CallbackId>, pos: nat, recording: bool, e: Effects)
    requires cbs != []
    requires invoke(cbs[0], MatchContext(kw, pos, e)).Some? && invoke(cbs[0], MatchContext(kw, pos, e)).value.kind == Halt
    ensures ApplyCallbacks(invoke, kw, cbs, pos, recording, e).Stop?
  {
    var d := invoke(cbs[0], MatchContext(kw, pos, e)).value;
    var e1 := e.(log := Recorded(recording, e.log, e.log.AddAction(ActionRecord(pos, kw, d))));
    assert ApplyDecision(e1, kw, d, recording).Stop?;
  }

  /** Prefix safety is kept: if the current trie path is a suffix of the buffer
      before a call that does not halt, it is one after it. The lazy flush never
      removes a character of a pending match, since no trie path is longer than
      `max_len`. */
  lemma StaysAligned(cfg: Config, s: ProcState, ch: char, invoke: Invoke)
    requires PathsBounded(cfg)
    ensures var (s', r) := ProcessSpec(cfg, s, ch, invoke);
            IsSuffix(s.node, s.buffer) && r.Emitted? ==> IsSuffix(s'.node, s'.buffer)
  {
    if IsSuffix(s.node, s.buffer) {
      QuietAligned(cfg, s, ch, invoke);
    }
    FireAligned(cfg, s, ch, invoke);
  }

  lemma QuietAligned(cfg: Config, s: ProcState, ch: char, invoke: Invoke)
    requires PathsBounded(cfg)
    requires IsSuffix(s.node, s.buffer)
    ensures var s' := ProcessSpec(cfg, s, ch, invoke).0;
            cfg.trie[Target(cfg, s, ch)].output == [] ==> IsSuffix(s'.node, s'.buffer)
  {
    var n := Target(cfg, s, ch);
    if cfg.trie[n].output == [] {
      var e0 := Consume(cfg, s, ch);
      assert ProcessSpec(cfg, s, ch, invoke) == Settle(cfg, s, n, e0);
      SuffixAppend(s.node, s.buffer, ch);
      SuffixTrans(n, s.node + [ch], e0.buffer);
      SettleAligned(cfg, s, n, e0);
    }
  }

  lemma FireAligned(cfg: Config, s: ProcState, ch: char, invoke: Invoke)
    requires [] in cfg.trie
    ensures var s' := ProcessSpec(cfg, s, ch, invoke).0;
            cfg.trie[Target(cfg, s, ch)].output != [] && ProcessSpec(cfg, s, ch, invoke).1.Emitted? ==>
              s'.node == [] && IsSuffix(s'.node, s'.buffer)
  {
    var n := Target(cfg, s, ch);
    if cfg.trie[n].output != [] {
      var m := Longest(cfg.trie[n].output);
      assert ProcessSpec(cfg, s, ch, invoke) == Fire(cfg, s, ch, n, m, invoke);
      var s' := ProcessSpec(cfg, s, ch, invoke).0;
      if Fire(cfg, s, ch, n, m, invoke).1.Emitted? {
        FireResets(cfg, s, ch, n, m, invoke);
        assert s'.buffer[|s'.buffer|..] == [];
      }
    }
  }

  /** The trie has a root and no path longer than `max_len`. */
  ghost predicate PathsBounded(cfg: Config) {
    [] in cfg.trie && forall p :: p in cfg.trie ==> |p| <= cfg.maxLen
  }

  /** A compiled trie with its `max_len` is bounded: no trie path is longer than
      the longest keyword. */
  lemma CompiledBounded(t: NodeMap, kws: map<string, seq<CallbackId>>, maxLen: nat, recording: bool)
    requires Compiled(t, kws) && IsMaxLen(kws.Keys, maxLen)
    ensures PathsBounded(Config(t, maxLen, recording))
  {
    forall p | p in t
      ensures |p| <= maxLen
    {
      assert IsTriePath(kws.Keys, p);
      if p != [] {
        var k :| k in kws.Keys && p <= k;
      }
    }
  }

  /** The end of a call moves to `node`, keeps the flags, and lets the oldest
      buffered character go once the buffer outgrows `max_len`. */
  lemma SettleState(cfg: Config, s: ProcState, node: string, e: Effects)
    ensures var (s', r) := Settle(cfg, s, node, e);
            && r.Emitted? && s'.node == node && s'.dropMode == e.dropMode && s'.halted == s.halted
            && (|e.buffer| <= cfg.maxLen ==> s'.buffer == e.buffer && r.chars == e.out)
            && (|e.buffer| > cfg.maxLen ==> s'.buffer == e.buffer[1..])
            && (|e.buffer| > cfg.maxLen ==> r.chars == e.out + (if e.dropMode then [] else [e.buffer[0]]))
  {
  }

  /** The lazy flush keeps a path of at most `max_len` characters that ends the buffer. */
  lemma SettleAligned(cfg: Config, s: ProcState, node: string, e: Effects)
    requires IsSuffix(node, e.buffer) && |node| <= cfg.maxLen
    ensures IsSuffix(Settle(cfg, s, node, e).0.node, Settle(cfg, s, node, e).0.buffer)
  {
    if |e.buffer| > cfg.maxLen {
      SuffixOfTail(node, e.buffer);
    }
  }

  /** A match that does not halt leaves the automaton at the root. */
  lemma FireResets(cfg: Config, s: ProcState, ch: char, n: string, m: Entry, invoke: Invoke)
    requires Fire(cfg, s, ch, n, m, invoke).1.Emitted?
    ensures Fire(cfg, s, ch, n, m, invoke).0.node == []
  {
  }

  /** After HALT the call returns `Halted` (`HaltEffect` says what the buffer
      lost), the flag is set, and the characters collected in that call are
      gone; a following flush returns what is left of the buffer, or nothing in
      drop mode. */
  lemma HaltThenFlush(cfg: Config, s: ProcState, ch: char, invoke: Invoke)
    requires [] in cfg.trie
    requires ProcessSpec(cfg, s, ch, invoke).1 == Halted
    ensures var s' := ProcessSpec(cfg, s, ch, invoke).0;
            && s'.halted
            && FlushSpec(cfg, s').1 == (if s'.dropMode then [] else s'.buffer)
            && FlushSpec(cfg, s').0.buffer == []
            && FlushSpec(cfg, s').0.log == s'.log
  {
  }

  /** A normal flush returns the buffer in order, records it as output and empties
      it; in drop mode it returns nothing. */
  lemma FlushEffect(cfg: Config, s: ProcState)
    requires !s.halted
    ensures var (s', r) := FlushSpec(cfg, s);
            && s'.buffer == []
            && (s.dropMode ==> r == [] && s'.log == s.log)
            && (!s.dropMode ==> r == s.buffer && (cfg.recording ==> s'.log.outputs == s.log.outputs + s.buffer))
  {
  }
}
