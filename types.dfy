/** Action types and decisions returned by keyword callbacks
    (`stream_processor/engine/types.py`). */
module Types {
  import opened Wrappers

  /** The closed set of outcomes a callback may choose (`ActionType`). */
  datatype ActionType = Pass | Drop | Replace | Halt | ContinueDrop | ContinuePass

  /** A callback's choice, with the optional replacement text (`ActionDecision`). */
  datatype ActionDecision = ActionDecision(kind: ActionType, replacement: Option<string>)

  /** `ActionDecision(type, replacement=None)`: the replacement defaults to `None`. */
  function NewActionDecision(kind: ActionType, replacement: Option<string> := None): (d: ActionDecision)
    ensures d.kind == kind
    ensures d.replacement == replacement
  {
    ActionDecision(kind, replacement)
  }

  /** The text a decision injects into the buffer: Python's truthiness test
      `if decision.replacement:` treats `None` and `""` alike. */
  function ReplacementText(d: ActionDecision): (text: string)
    ensures d.replacement.None? ==> text == []
    ensures d.replacement.Some? ==> text == d.replacement.value
  {
    match d.replacement
    case None => []
    case Some(r) => r
  }

  /** Every action type is one of the six listed cases, and the six are distinct. */
  lemma ActionTypeCases(t: ActionType)
    ensures t in {Pass, Drop, Replace, Halt, ContinueDrop, ContinuePass}
    ensures |{Pass, Drop, Replace, Halt, ContinueDrop, ContinuePass}| == 6
  {
    var s := {Pass, Drop, Replace, Halt, ContinueDrop, ContinuePass};
    assert s == {Pass} + {Drop} + {Replace} + {Halt} + {ContinueDrop} + {ContinuePass};
  }
}
