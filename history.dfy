/** Append-only records of a stream run (`llm_stream_processor/engine/history.py`). */
module History {
  import opened Types

  /** One `record_action` entry: the triple (pos, keyword, decision). */
  datatype ActionRecord = ActionRecord(pos: int, keyword: string, decision: ActionDecision)

  /** The three logs of a history, as a value: what a callback can read. */
  datatype HistoryLog = HistoryLog(inputs: seq<char>, outputs: seq<char>, actions: seq<ActionRecord>)
  {
    function AddInput(ch: char): (h: HistoryLog)
      ensures h.inputs == inputs + [ch] && h.outputs == outputs && h.actions == actions
    {
      this.(inputs := inputs + [ch])
    }

    function AddOutputs(cs: seq<char>): (h: HistoryLog)
      ensures h.outputs == outputs + cs && h.inputs == inputs && h.actions == actions
    {
      this.(outputs := outputs + cs)
    }

    function AddAction(a: ActionRecord): (h: HistoryLog)
      ensures h.actions == actions + [a] && h.inputs == inputs && h.outputs == outputs
    {
      this.(actions := actions + [a])
    }

    /** Each log of `h` extends the corresponding log of this one. */
    predicate GrowsTo(h: HistoryLog) {
      inputs <= h.inputs && outputs <= h.outputs && actions <= h.actions
    }
  }

  /** Growing is transitive: appending twice is appending. */
  lemma GrowsTransitive(a: HistoryLog, b: HistoryLog, c: HistoryLog)
    requires a.GrowsTo(b) && b.GrowsTo(c)
    ensures a.GrowsTo(c)
  {
    assert a.inputs == c.inputs[..|a.inputs|] by {
      assert b.inputs == c.inputs[..|b.inputs|];
    }
    assert a.outputs == c.outputs[..|a.outputs|] by {
      assert b.outputs == c.outputs[..|b.outputs|];
    }
    assert a.actions == c.actions[..|a.actions|] by {
      assert b.actions == c.actions[..|b.actions|];
    }
  }

  /** The view of a disabled history. */
  const EmptyLog := HistoryLog([], [], [])

  /** `StreamHistory`: three lists appended in place. */
  class StreamHistory {
    var inputs: seq<char>
    var outputs: seq<char>
    var actions: seq<ActionRecord>

    function Log(): HistoryLog
      reads this
    {
      HistoryLog(inputs, outputs, actions)
    }

    constructor ()
      ensures Log() == EmptyLog
    {
      inputs, outputs, actions := [], [], [];
    }

    method RecordInput(ch: char)
      modifies this
      ensures Log() == old(Log()).AddInput(ch)
      ensures old(Log()).GrowsTo(Log())
    {
      inputs := inputs + [ch];
    }

    method RecordOutput(ch: char)
      modifies this
      ensures Log() == old(Log()).AddOutputs([ch])
      ensures old(Log()).GrowsTo(Log())
    {
      outputs := outputs + [ch];
    }

    method RecordAction(pos: int, keyword: string, decision: ActionDecision)
      modifies this
      ensures Log() == old(Log()).AddAction(ActionRecord(pos, keyword, decision))
      ensures old(Log()).GrowsTo(Log())
    {
      actions := actions + [ActionRecord(pos, keyword, decision)];
    }

    /** The getters hand out the logs as values: later recording does not change them. */
    method GetInputs() returns (r: seq<char>)
      ensures r == inputs
    {
      r := inputs;
    }

    method GetOutputs() returns (r: seq<char>)
      ensures r == outputs
    {
      r := outputs;
    }

    method GetActions() returns (r: seq<ActionRecord>)
      ensures r == actions
    {
      r := actions;
    }
  }

  /** `NullHistory`: stateless; recording does nothing and every getter is empty. */
  class NullHistory {
    constructor ()
    {
    }

    function Log(): HistoryLog
    {
      EmptyLog
    }

    method RecordInput(ch: char)
    {
    }

    method RecordOutput(ch: char)
    {
    }

    method RecordAction(pos: int, keyword: string, decision: ActionDecision)
    {
    }

    method GetInputs() returns (r: seq<char>)
      ensures r == []
    {
      r := [];
    }

    method GetOutputs() returns (r: seq<char>)
      ensures r == []
    {
      r := [];
    }

    method GetActions() returns (r: seq<ActionRecord>)
      ensures r == []
    {
      r := [];
    }
  }
}
