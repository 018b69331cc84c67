/** Stateless decision constructors offered to callback authors
    (`src/llm_stream_processor/api/actions.py`). Each ignores its context. */
module Actions {
  import opened Wrappers
  import Types
  import opened Context

  /** `drop(ctx=None)`: remove the matched keyword. */
  function Drop(ctx: Option<ActionContext> := None): (d: Types.ActionDecision)
    ensures d.kind == Types.Drop && d.replacement == None
  {
    Types.NewActionDecision(Types.Drop)
  }

  /** `continuous_drop(ctx=None)`: start suppressing output. */
  function ContinuousDrop(ctx: Option<ActionContext> := None): (d: Types.ActionDecision)
    ensures d.kind == Types.ContinueDrop && d.replacement == None
  {
    Types.NewActionDecision(Types.ContinueDrop)
  }

  /** `continuous_pass(ctx=None)`: resume output after a drop segment. */
  function ContinuousPass(ctx: Option<ActionContext> := None): (d: Types.ActionDecision)
    ensures d.kind == Types.ContinuePass && d.replacement == None
  {
    Types.NewActionDecision(Types.ContinuePass)
  }

  /** `replace(text)`: replace the matched keyword with `text`. */
  function Replace(text: string): (d: Types.ActionDecision)
    ensures d.kind == Types.Replace && d.replacement == Some(text)
    ensures Types.ReplacementText(d) == text
  {
    Types.NewActionDecision(Types.Replace, Some(text))
  }

  /** `passthrough(ctx=None)`: leave the matched keyword in place. */
  function Passthrough(ctx: Option<ActionContext> := None): (d: Types.ActionDecision)
    ensures d.kind == Types.Pass && d.replacement == None
  {
    Types.NewActionDecision(Types.Pass)
  }

  /** `halt(ctx=None)`: abort the stream. */
  function Halt(ctx: Option<ActionContext> := None): (d: Types.ActionDecision)
    ensures d.kind == Types.Halt && d.replacement == None
  {
    Types.NewActionDecision(Types.Halt)
  }

  /** No helper looks at its context: any two contexts give the same decision. */
  lemma HelpersIgnoreContext(c1: Option<ActionContext>, c2: Option<ActionContext>)
    ensures Drop(c1) == Drop(c2) && ContinuousDrop(c1) == ContinuousDrop(c2)
    ensures ContinuousPass(c1) == ContinuousPass(c2) && Passthrough(c1) == Passthrough(c2)
    ensures Halt(c1) == Halt(c2)
  {
  }
}
