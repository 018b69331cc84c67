/** The record handed to a callback on a match (`src/llm_stream_processor/engine/context.py`). */
module Context {
  import opened History

  /** `ActionContext`: the matched keyword, the buffer (which includes the keyword),
      the 1-based position of the last consumed character, and the history as the
      callback sees it. */
  datatype ActionContext = ActionContext(keyword: string, buffer: seq<char>, absolutePos: int, history: HistoryLog)

  function NewActionContext(keyword: string, buffer: seq<char>, absolutePos: int, history: HistoryLog): (c: ActionContext)
    ensures c.keyword == keyword && c.buffer == buffer
    ensures c.absolutePos == absolutePos && c.history == history
  {
    ActionContext(keyword, buffer, absolutePos, history)
  }

  /** A context built over a disabled history reports no inputs, outputs or actions. */
  lemma DisabledHistoryIsEmpty(n: NullHistory, keyword: string, buffer: seq<char>, absolutePos: int)
    ensures var c := NewActionContext(keyword, buffer, absolutePos, n.Log());
            c.history.inputs == [] && c.history.outputs == [] && c.history.actions == []
  {
  }
}
