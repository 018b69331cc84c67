# llm_stream_processor in Dafny

A model of the keyword sanitiser `llm_stream_processor`. The system takes a
stream of characters produced by a language model and finds registered keywords
in it with an Aho–Corasick automaton. On each match it asks the keyword's
callbacks for a decision: pass, drop, replace, halt, start dropping or stop
dropping. It holds characters back in a buffer. At the end of each call, the
lazy flush releases at most one character: the oldest, and only once the
buffer holds more than `max_len` characters (`max_len` is the longest keyword's
length). Otherwise only the continuous-drop decisions and `flush()` emit text. Text that might still
become a keyword is therefore never emitted early (`StaysAligned`). The buffer
is not bounded by `max_len`: a replacement longer than its keyword can leave
more than `max_len` characters buffered until `flush()`.

Modules, in dependency order:

| file | module | models |
|---|---|---|
| `wrappers.dfy` | `Wrappers` | `Option` and `Result` |
| `types.dfy` | `Types` | `ActionType`, `ActionDecision` |
| `history.dfy` | `History` | `StreamHistory` (a class with three logs appended in place), `NullHistory`, and the log as a value |
| `context.dfy` | `Context` | `ActionContext` |
| `actions.dfy` | `Actions` | the decision constructors `drop`, `replace`, `halt`, … |
| `trie.dfy` | `Trie` | `_Node` |
| `automaton.dfy` | `Automaton` | what a compiled automaton means: the longest-suffix definitions behind failure links and merged outputs |
| `trie_build.dfy` | `TrieBuild` | the keyword-insertion loop of `compile()` and `max_len` |
| `failure_links.dfy` | `FailureLinks` | the breadth-first failure-link loop of `compile()` |
| `registry.dfy` | `Registry` | `KeywordRegistry`: `register`, `deregister`, `compile`, `max_len` |
| `processor_spec.dfy` | `ProcessorSpec` | a reference semantics of `process` and `flush` on a value state, with its properties |
| `processor.dfy` | `Processor` | `StreamProcessor` as a class; its methods are proved equal to the reference semantics |
| `decorator.dfy` | `Decorator` | `_repack`, a reference semantics of `sync_wrap`, and the `SyncWrap` method with its loops proved against it |
| `wrap_props.dfy` | `WrapProps` | properties of the wrapper: what token, char and chunk modes yield |
| `scenarios.dfy` | `Scenarios` | the reference semantics run on three of the processor's test scenarios over concrete compiled tries |

How the source is represented:

- **Trie nodes.** A trie node is named by the path it spells from the root. The
  compiled trie is a `map<string, Node>`. A child or failure "reference" is the
  path of the target node.
- **Correctness of `compile()`.** It is stated against reference definitions.
  The failure link of node `p` is the longest proper suffix of `p` that is a
  trie path. A node's output is every keyword that ends the path, longest
  first.
- **Callbacks.** They are identities (`CallbackId = nat`). Running one is the
  parameter `invoke(id, ctx)`, which returns an `Option<ActionDecision>`;
  `None` stands for a callback returning `None`.
- **History seen by callbacks.** A callback receives the history's contents at
  the time of the call, as a value.
- **Halting.** `StreamHalted` is the outcome `Halted` of `process`.
- **Generator.** The wrapped generator's tokens are a `seq<string>`. The
  `ValueError` that `_repack` can raise in the middle of a stream is the
  `error` field of the result.

Where the prose description of the system and the code differ, the model
follows the code:

- **Flush after a halt.** `flush()` after a halt returns the remaining buffer
  unless drop mode is on, and token mode yields it. The buffer is not
  discarded.
- **Several callbacks on one match.** Their decisions are not merged. Each one
  is applied to the buffer in turn: two DROPs remove the keyword's length twice
  (`TwoDrops`).
- **Emitting text.** DROP, REPLACE, PASS and HALT emit nothing on the match;
  DROP, REPLACE and HALT only take the keyword off the buffer's end. A character
  is emitted only by the lazy flush once the buffer grows past `max_len`, by the
  two continuous-drop decisions, or by `flush()`.
- **Halt in char and chunk modes.** The text of the halting token is lost, and
  the processor is not flushed.

## Model

| member | source | states |
|---|---|---|
| Types.NewActionDecision | stream_processor/engine/types.py:30-32 | a decision carries the type it is built with; the replacement defaults to none |
| Types.ReplacementText | stream_processor/engine/processor.py:141-143 | the text a REPLACE injects: nothing for a missing replacement, the replacement otherwise |
| Types.ActionTypeCases | stream_processor/engine/types.py:12-18 | every action type is one of six distinct cases |
| History.HistoryLog.AddInput | llm_stream_processor/engine/history.py:19-20 | appending an input character leaves the other two logs alone |
| History.HistoryLog.AddOutputs | llm_stream_processor/engine/history.py:22-23 | appending output characters leaves the other two logs alone |
| History.HistoryLog.AddAction | llm_stream_processor/engine/history.py:25-26 | appending an action record leaves the other two logs alone |
| History.GrowsTransitive | llm_stream_processor/engine/history.py:7-35 | the logs are append-only: growth composes |
| History.StreamHistory.constructor | llm_stream_processor/engine/history.py:14-17 | a new history has three empty logs |
| History.StreamHistory.RecordInput | llm_stream_processor/engine/history.py:19-20 | appends the character to the inputs and nothing else |
| History.StreamHistory.RecordOutput | llm_stream_processor/engine/history.py:22-23 | appends the character to the outputs and nothing else |
| History.StreamHistory.RecordAction | llm_stream_processor/engine/history.py:25-26 | appends `(pos, keyword, decision)` to the actions and nothing else |
| History.StreamHistory.GetInputs | llm_stream_processor/engine/history.py:28-29 | returns the input log as a copy |
| History.StreamHistory.GetOutputs | llm_stream_processor/engine/history.py:31-32 | returns the output log as a copy |
| History.StreamHistory.GetActions | llm_stream_processor/engine/history.py:34-35 | returns the action log as a copy |
| History.NullHistory.GetInputs | llm_stream_processor/engine/history.py:52-53 | a disabled history reports no inputs |
| History.NullHistory.GetOutputs | llm_stream_processor/engine/history.py:55-56 | a disabled history reports no outputs |
| History.NullHistory.GetActions | llm_stream_processor/engine/history.py:58-59 | a disabled history reports no actions |
| Context.NewActionContext | src/llm_stream_processor/engine/context.py:28-32 | the context holds the keyword, buffer, position and history it was given |
| Context.DisabledHistoryIsEmpty | llm_stream_processor/engine/history.py:37-59 | a callback handed a disabled history sees no inputs, outputs or actions |
| Actions.Drop | src/llm_stream_processor/api/actions.py:6-8 | a DROP decision without replacement |
| Actions.ContinuousDrop | src/llm_stream_processor/api/actions.py:10-12 | a CONTINUE_DROP decision without replacement |
| Actions.ContinuousPass | src/llm_stream_processor/api/actions.py:14-16 | a CONTINUE_PASS decision without replacement |
| Actions.Replace | src/llm_stream_processor/api/actions.py:18-20 | a REPLACE decision whose injected text is exactly `text` |
| Actions.Passthrough | src/llm_stream_processor/api/actions.py:22-24 | a PASS decision without replacement |
| Actions.Halt | src/llm_stream_processor/api/actions.py:26-28 | a HALT decision without replacement |
| Actions.HelpersIgnoreContext | src/llm_stream_processor/api/actions.py:6-28 | the helpers are stateless: the context never changes the decision |
| Trie.NewNode | llm_stream_processor/engine/trie.py:14-20 | a new node has no children, no failure link and no output |
| Automaton.LongestSuffixIn | src/llm_stream_processor/engine/registry.py:97-100 | the failure target: a member of the node set that is a suffix, and no member suffix is longer |
| Automaton.LongestSuffixUnique | src/llm_stream_processor/engine/registry.py:97-100 | that characterisation determines the failure target uniquely |
| Automaton.KeywordSuffixes | src/llm_stream_processor/engine/registry.py:101-102 | a node's merged output: every keyword ending the path, with its callbacks, strictly longest first, none missing |
| Automaton.KeywordSuffixesOfLongest | src/llm_stream_processor/engine/registry.py:100-102 | merging the failure target's output loses no keyword |
| Automaton.CompiledNode | src/llm_stream_processor/engine/registry.py:68-106 | in a compiled automaton each node's output and failure link are the reference ones, and the root links to itself |
| Automaton.KeywordsAreNodes | src/llm_stream_processor/engine/registry.py:76-83 | every registered keyword is a node of the compiled trie |
| Automaton.SearchStep | src/llm_stream_processor/engine/registry.py:98-99 | following a failure link while the child is missing skips no candidate target |
| Automaton.SearchDone | src/llm_stream_processor/engine/registry.py:98-100 | where the walk stops, the child (or the root) is the longest path-suffix of the extended path |
| Automaton.LongestSuffixExtend | stream_processor/engine/processor.py:88-91 | the transition from the longest path-suffix of `s` along `c` is the longest path-suffix of `s + [c]` |
| TrieBuild.AddChildShape | src/llm_stream_processor/engine/registry.py:81 | `setdefault` adds exactly the child node and links it from its parent |
| TrieBuild.AddChildKeepsBuilding | src/llm_stream_processor/engine/registry.py:79-81 | one step of the descent keeps the partial trie well formed |
| TrieBuild.FinishKeyword | src/llm_stream_processor/engine/registry.py:83 | attaching the keyword's callbacks at its node completes its insertion |
| TrieBuild.InsertKeyword | src/llm_stream_processor/engine/registry.py:78-83 | inserting one keyword extends the trie of the keywords inserted so far |
| TrieBuild.MaxLenStep | src/llm_stream_processor/engine/registry.py:77 | `max(max_len, len(kw))` stays the longest length so far |
| TrieBuild.BuildTrie | src/llm_stream_processor/engine/registry.py:73-83 | the trie holds exactly the keywords' prefixes, each keyword's own entry at its node, no links, and the longest keyword length |
| FailureLinks.FollowFailures | src/llm_stream_processor/engine/registry.py:97-100 | the inner walk returns the longest proper suffix of the child's path that is a trie path |
| FailureLinks.WalkStep | src/llm_stream_processor/engine/registry.py:98-99 | each failure step moves to a strictly shorter node and keeps the search invariant |
| FailureLinks.WalkDone | src/llm_stream_processor/engine/registry.py:98-100 | `failure.children.get(ch, root)` is the correct target when the walk stops |
| FailureLinks.RootChildLink | src/llm_stream_processor/engine/registry.py:88-90 | a child of the root fails to the root |
| FailureLinks.LinkRootChild | src/llm_stream_processor/engine/registry.py:89-90 | one child of the root gets the root as its link and joins the end of the queue; nothing else changes |
| FailureLinks.LinkRootChildren | src/llm_stream_processor/engine/registry.py:85-90 | the root links to itself and its children to the root, queued in order |
| FailureLinks.LinkedChild | src/llm_stream_processor/engine/registry.py:100-102 | setting the link and merging the target's output makes the node correctly linked |
| FailureLinks.LinkStep | src/llm_stream_processor/engine/registry.py:94-102 | linking one child keeps the breadth-first invariant |
| FailureLinks.LinkChild | src/llm_stream_processor/engine/registry.py:94-102 | one child is linked, its output merged and it is queued, and no other node changes |
| FailureLinks.ExpandNode | src/llm_stream_processor/engine/registry.py:93-102 | all children of a dequeued node are linked and queued |
| FailureLinks.LinkFailures | src/llm_stream_processor/engine/registry.py:84-102 | the breadth-first pass turns the inserted trie into the compiled automaton |
| Registry.IndexOf | src/llm_stream_processor/engine/registry.py:61 | the first occurrence of a callback |
| Registry.RemoveFirst | src/llm_stream_processor/engine/registry.py:60-65 | `list.remove` drops the first occurrence; an absent callback leaves the list as it is |
| Registry.AddCallback | src/llm_stream_processor/engine/registry.py:38-41 | the callback is appended to the keyword's list, and no other keyword changes |
| Registry.RemoveCallback | src/llm_stream_processor/engine/registry.py:53-65 | `None` removes the keyword; a callback is removed once, and an emptied keyword disappears; other keywords are kept |
| Registry.RegisterThenDeregister | src/llm_stream_processor/engine/registry.py:28-66 | registering a new callback and deregistering it restores the table |
| Registry.RegistrationOrder | src/llm_stream_processor/engine/registry.py:38-41 | callbacks are listed in registration order |
| Registry.CompileTrie | src/llm_stream_processor/engine/registry.py:68-106 | the result is the compiled automaton of the table and the longest keyword length |
| Registry.KeywordRegistry.constructor | src/llm_stream_processor/engine/registry.py:22-26 | empty, not compiled, no root, `max_len` 0 |
| Registry.KeywordRegistry.Register | src/llm_stream_processor/engine/registry.py:28-42 | the empty keyword raises and changes nothing; otherwise the callback is appended and the registry is marked uncompiled |
| Registry.KeywordRegistry.Deregister | src/llm_stream_processor/engine/registry.py:44-66 | the empty keyword raises; an unknown keyword is a no-op; otherwise the table becomes `RemoveCallback` of the old one and is marked uncompiled |
| Registry.KeywordRegistry.Compile | src/llm_stream_processor/engine/registry.py:68-106 | leaves the keywords alone and stores their compiled automaton and longest length |
| Registry.KeywordRegistry.MaxLen | src/llm_stream_processor/engine/registry.py:108-112 | compiles on demand and returns the longest keyword length; a compiled registry is untouched |
| ProcessorSpec.DropRight | stream_processor/engine/processor.py:133-135 | `len(kw)` guarded pops remove `min(len(kw), len(buffer))` characters from the right |
| ProcessorSpec.PriorAndMarker | stream_processor/engine/processor.py:116-126 | the prior text and the marker split the buffer, and the marker is the keyword's length |
| ProcessorSpec.Longest | stream_processor/engine/processor.py:96 | `max` by length picks an entry of maximal keyword length, the first such |
| ProcessorSpec.LongestOfSorted | stream_processor/engine/processor.py:96 | in a compiled output list it is the head |
| ProcessorSpec.ApplyDecision | stream_processor/engine/processor.py:111-153 | exactly a HALT decision aborts |
| ProcessorSpec.DropAndReplaceEffect | stream_processor/engine/processor.py:131-143 | DROP takes the keyword's length off the buffer's end and REPLACE then appends the replacement; nothing else changes |
| ProcessorSpec.HaltEffect | stream_processor/engine/processor.py:147-153 | HALT stops the callback loop and takes `min(len(kw), len(buffer))` characters off the buffer's end; nothing else changes |
| ProcessorSpec.PassEffect | stream_processor/engine/processor.py:144-146 | PASS changes nothing |
| ProcessorSpec.ContinueDropEffect | stream_processor/engine/processor.py:111-120 | drop mode is on afterwards; on first entry the text before the keyword is emitted and the buffer cleared; with history on, exactly the emitted text is recorded, as output |
| ProcessorSpec.ContinuePassEffect | stream_processor/engine/processor.py:121-130 | drop mode is off afterwards; on leaving it the keyword marker is emitted and the buffer cleared; with history on, exactly the emitted text is recorded, as output |
| ProcessorSpec.NoneIsSkipped | stream_processor/engine/processor.py:106-108 | a callback returning `None` is skipped without a trace |
| ProcessorSpec.TwoDrops | stream_processor/engine/processor.py:97-135 | two DROP callbacks on one match remove the keyword's length twice |
| ProcessorSpec.CallbacksGrowLog | stream_processor/engine/processor.py:97-153 | callbacks only append to the history and the output, and never record input |
| ProcessorSpec.CallbacksKeepNullLog | stream_processor/engine/processor.py:97-153 | with history disabled, callbacks leave the log as it was |
| ProcessorSpec.LazyFlush | stream_processor/engine/processor.py:157-162 | past `max_len` the oldest character leaves the buffer and is emitted and recorded unless drop mode is on |
| ProcessorSpec.LazyFlushLog | stream_processor/engine/processor.py:157-162 | the lazy flush records only outputs |
| ProcessorSpec.Target | stream_processor/engine/processor.py:88-91 | the transition always lands on a trie node |
| ProcessorSpec.ProcessConsumesOne | stream_processor/engine/processor.py:82-86 | each call reads one character: the position advances by one, and the input is recorded exactly when history is on |
| ProcessorSpec.HaltFlag | stream_processor/engine/processor.py:147-153 | the halt flag is set exactly when a call raises `StreamHalted`, and stays set |
| ProcessorSpec.SettleState | stream_processor/engine/processor.py:157-163 | the end of a call moves to the new state and lets the oldest buffered character go once the buffer outgrows `max_len` |
| ProcessorSpec.QuietStep | stream_processor/engine/processor.py:82-163 | a step with no match buffers the character and emits the oldest one exactly when the buffer outgrows `max_len` |
| ProcessorSpec.MatchIsLongestKeyword | stream_processor/engine/processor.py:88-96 | the callbacks run exactly when a keyword ends the text read since the last reset, and they are those of the longest such keyword |
| ProcessorSpec.FirstContext | stream_processor/engine/processor.py:99-104 | the first callback sees the matched keyword, the buffer with the new character, which ends with that keyword, and position `pos + 1`, the number of characters consumed |
| ProcessorSpec.FirstCallbackHalts | stream_processor/engine/processor.py:96-153 | when the first callback of the longest keyword returns HALT, `process` raises `StreamHalted` |
| ProcessorSpec.FireHalts | stream_processor/engine/processor.py:97-153 | a callback loop that stops makes the call halt |
| ProcessorSpec.FirstDecisionHalts | stream_processor/engine/processor.py:105-153 | a callback loop whose first decision is HALT stops |
| ProcessorSpec.CompiledBounded | src/llm_stream_processor/engine/registry.py:77 | no trie path is longer than `max_len` |
| ProcessorSpec.StaysAligned | stream_processor/engine/processor.py:154-163 | after a call that does not halt, the automaton state is a suffix of the buffer |
| ProcessorSpec.QuietAligned | stream_processor/engine/processor.py:157-163 | the same for a step without a match |
| ProcessorSpec.FireAligned | stream_processor/engine/processor.py:154-155 | after a match the state is reset to the root |
| ProcessorSpec.SettleAligned | stream_processor/engine/processor.py:157-162 | the lazy flush keeps the state a suffix of the buffer |
| ProcessorSpec.FireResets | stream_processor/engine/processor.py:154-155 | a match that does not halt resets the state to the root |
| ProcessorSpec.HaltThenFlush | stream_processor/engine/processor.py:178-183 | after a halt the state is marked halted, and flush empties the buffer, returns it unless drop mode is on, and records nothing; what the halt removed from the buffer is `HaltEffect` |
| ProcessorSpec.FlushEffect | stream_processor/engine/processor.py:184-193 | without a halt, flush discards the buffer in drop mode and otherwise returns and records it |
| Processor.NextNode | stream_processor/engine/processor.py:88-91 | the failure-link walk reaches the longest trie path ending the text read since the last reset |
| Processor.CompiledTrie | stream_processor/engine/processor.py:35-40 | the registry is compiled if it was not, its keywords are kept, and the automaton and `max_len` it holds are returned |
| Processor.NewRecorder | stream_processor/engine/processor.py:47-50 | a fresh, empty history of the chosen kind |
| Processor.StreamProcessor.constructor | stream_processor/engine/processor.py:24-54 | compiles the registry if needed; starts at the root with an empty buffer, position 0, no flags, and a fresh history of the chosen kind |
| Processor.StreamProcessor.RecordInput | stream_processor/engine/processor.py:84 | records the input only when history is on |
| Processor.StreamProcessor.PopRight | stream_processor/engine/processor.py:133-135 | the pop loop equals `DropRight` |
| Processor.StreamProcessor.AppendAll | stream_processor/engine/processor.py:142-143 | the replacement is appended character by character |
| Processor.StreamProcessor.Emit | stream_processor/engine/processor.py:117-119 | the characters are emitted and recorded in order |
| Processor.StreamProcessor.ApplyOne | stream_processor/engine/processor.py:110-153 | applying one decision equals `ApplyDecision` |
| Processor.StreamProcessor.RunCallbacks | stream_processor/engine/processor.py:97-153 | the callback loop equals `ApplyCallbacks` |
| Processor.StreamProcessor.LazyFlushStep | stream_processor/engine/processor.py:157-162 | equals `LazyFlush` |
| Processor.StreamProcessor.Admit | stream_processor/engine/processor.py:82-86 | records, buffers and counts the character |
| Processor.StreamProcessor.RunMatch | stream_processor/engine/processor.py:93-155 | the match handling equals `Fire` |
| Processor.StreamProcessor.Step | stream_processor/engine/processor.py:93-163 | steps 3 to 5 equal `StepSpec` |
| Processor.StreamProcessor.Process | stream_processor/engine/processor.py:56-163 | `process(ch)` equals `ProcessSpec` and keeps the automaton invariant |
| Processor.StreamProcessor.Flush | stream_processor/engine/processor.py:165-193 | `flush()` equals `FlushSpec` |
| Decorator.ConcatAppend | stream_processor/api/decorator.py:17 | joining distributes over concatenation |
| Decorator.StripLeft | stream_processor/api/decorator.py:21 | `int()` ignores leading whitespace |
| Decorator.StripRight | stream_processor/api/decorator.py:21 | `int()` ignores trailing whitespace |
| Decorator.Unpadded | stream_processor/api/decorator.py:21 | text without surrounding whitespace is parsed as it is |
| Decorator.SignedNumeral | stream_processor/api/decorator.py:21 | an optional sign before digits is parsed with that sign |
| Decorator.NumeralParses | stream_processor/api/decorator.py:21 | `int()` reads a string of digits, with or without a sign, as its value |
| Decorator.Chunks | stream_processor/api/decorator.py:26-27 | the chunks join back to the characters; each is non-empty and at most `size` long, and all but the last are exactly `size` |
| Decorator.Singletons | stream_processor/api/decorator.py:13-15 | one string per character, in order |
| Decorator.SingletonsAppend | stream_processor/api/decorator.py:13-15 | splitting into characters distributes over concatenation |
| Decorator.Repack | stream_processor/api/decorator.py:9-29 | a successful repack joins back to its input; char mode gives one string per character, token mode one string; a mode that is not `char`, `token` or `chunk:…` raises the unknown-mode error |
| Decorator.ChunkSpelling | stream_processor/api/decorator.py:18-27 | `chunk:` followed by text that does not parse is an invalid size, a parsed size of 0 or less is rejected, and any other size chunks |
| Decorator.ChunkMode | stream_processor/api/decorator.py:26-27 | `chunk:` followed by digits of a positive value `n` yields `Chunks(chars, n)`, and nothing for no characters |
| Decorator.NonPositiveChunk | stream_processor/api/decorator.py:24-25 | digits of value 0, and any negative numeral, raise the non-positive error |
| Decorator.ParseSignedFails | stream_processor/api/decorator.py:21 | `int()` fails exactly on text that is not a numeral with an optional sign |
| Decorator.InvalidChunk | stream_processor/api/decorator.py:19-23 | the invalid-size error is raised exactly when the text after `chunk:`, without surrounding whitespace, is not a numeral with an optional sign; an empty size raises it |
| Decorator.RepackErrorIgnoresInput | stream_processor/api/decorator.py:9-29 | whether and how a mode fails does not depend on the characters |
| Decorator.FeedToken | stream_processor/api/decorator.py:85-92 | the per-character loop equals `Feed` and stops at the first halt |
| Decorator.FlushValid | stream_processor/api/decorator.py:93 | a flush between tokens equals `FlushSpec` and keeps the processor invariant |
| Decorator.TokenStep | stream_processor/api/decorator.py:84-94 | one token in token mode equals `FeedAndFlush` |
| Decorator.TokenLoop | stream_processor/api/decorator.py:82-95 | the token-mode loop equals `TokenMode` |
| Decorator.StreamLoop | stream_processor/api/decorator.py:96-108 | the char and chunk loop, with its final flush, equals `StreamMode` |
| Decorator.TokenDrive | stream_processor/api/decorator.py:82-95 | the token-mode branch yields `TokenMode` and never raises |
| Decorator.Drive | stream_processor/api/decorator.py:82-108 | the wrapper body, once the processor is built, equals `WrapSpec` |
| Decorator.DriveBeside | stream_processor/api/decorator.py:82-108 | the wrapper body changes only the processor and its history: the registry is left as it was |
| Decorator.SyncWrap | stream_processor/api/decorator.py:80-108 | a wrapped generator yields `WrapSpec` of a fresh processor on the compiled registry |
| WrapProps.FeedConsumes | stream_processor/api/decorator.py:85-92 | feeding a token reads it up to the first halt; without a halt every character is read and recorded; the halt flag is kept; the history only grows |
| WrapProps.FlushKeeps | stream_processor/engine/processor.py:165-193 | flush empties the buffer, changes no other field and records no input |
| WrapProps.FeedAndFlushConsumes | stream_processor/api/decorator.py:84-94 | a token in token mode leaves the buffer empty and without a halt reads and records all of it |
| Decorator.TokenModeCons | stream_processor/api/decorator.py:83-95 | a halting token ends the output with at most one more text; otherwise its text comes first |
| WrapProps.TokenModeCount | stream_processor/api/decorator.py:82-95 | token mode yields at most one text per token, and exactly one per token when nothing halts |
| WrapProps.TokenModeConsumes | stream_processor/api/decorator.py:82-95 | without a halt every character of every token is read and recorded; a halt is remembered; the buffer ends empty |
| WrapProps.ValidModeNeverRaises | stream_processor/api/decorator.py:96-108 | with a yield mode `_repack` accepts, the wrapper never raises |
| WrapProps.InvalidModeYieldsNothing | stream_processor/api/decorator.py:96-108 | with a rejected mode nothing is yielded, and the error is raised as soon as the first token is read without a halt, even when that token produced no text; with no tokens, it is raised when the final flush has text |
| WrapProps.ModeIndependentText | stream_processor/api/decorator.py:96-108 | every accepted char or chunk mode yields the same text in total |
| Decorator.StreamModeCons | stream_processor/api/decorator.py:96-104 | a halting token ends the output silently, losing its text; otherwise its repacked text comes first |
| WrapProps.SizedItems | stream_processor/api/decorator.py:96-108 | a mode whose every repack is in pieces of 1 to `n` characters yields only such pieces |
| WrapProps.CharModeItems | stream_processor/api/decorator.py:13-15 | char mode yields single characters and never raises |
| WrapProps.ChunkModeItems | stream_processor/api/decorator.py:26-27 | `chunk:` followed by digits of a positive value `n` yields pieces of 1 to `n` characters and never raises |
| WrapProps.RootOnly | src/llm_stream_processor/engine/registry.py:68-106 | a registry with no keywords compiles to the root alone, with no output |
| WrapProps.IdleStep | stream_processor/engine/processor.py:82-163 | with no keywords, `process(ch)` returns `ch` at once |
| WrapProps.IdleFeed | stream_processor/api/decorator.py:85-92 | with no keywords, feeding a token returns it unchanged |
| WrapProps.IdleFeedAndFlush | stream_processor/api/decorator.py:84-94 | with no keywords, a token in token mode comes back unchanged |
| WrapProps.IdleTokens | stream_processor/api/decorator.py:82-95 | with no keywords, token mode yields the tokens as they came |
| WrapProps.IdleChars | stream_processor/api/decorator.py:96-108 | with no keywords, char mode yields the characters of the tokens one by one |
| WrapProps.PassThrough | stream_processor/api/decorator.py:80-108 | with no keywords, the wrapper passes the stream through in token and char modes |
| WrapProps.EmptyRegistryPassesThrough | stream_processor/api/decorator.py:80-108 | a compiled empty registry makes token mode yield the tokens unchanged |
| Scenarios.PrefixSafetyExample | tests/test_stream_processor.py:178-181 | with `abc` registered to DROP, `xabc` is held back character by character, the match removes `abc`, and flush returns `x` |
| Scenarios.HaltExample | tests/test_stream_processor.py:153-156 | with `stop` registered to HALT, `abstop` emits `a` once the buffer outgrows 4, halts on `p` with `stop` removed, and flush returns `b`: `ab` in all |
| Scenarios.ContextExample | tests/test_stream_processor.py:183-191 | with `ab` replaced by `X`, `xabcd` emits `x` and `X` and flush returns `cd`; the callback sees position 3 and buffer `xab` |

## Left out

- `async_wrap` (stream_processor/api/decorator.py:42-78) is not modelled. It has the same loops as `sync_wrap` over an asynchronous generator. Asynchrony is out of scope.
- Dispatch in the decorator is not modelled: `inspect`, the `TypeError` for non-generators, and the `registry` attribute set on the wrapper.
- Lazy evaluation of generators is not modelled. The model computes the whole output of a wrapped generator for a given token sequence. It does not capture that output is produced on demand, or that a consumer can stop early.
- The generator's arguments are not modelled; the token sequence is a parameter.
- Callbacks are not executed. Their results come from the parameter `invoke`, so exceptions raised by a callback and callbacks that mutate the registry are not modelled.
- Callables are identified by number. A callback that is registered twice counts as two occurrences of the same identity.
- The `isinstance` and `callable` checks in `register` and `deregister` are not modelled: Dafny's types rule out the values they reject.
- Dict iteration order in `compile()` is not modelled. The trie is built from the keyword set, in any order. Iteration order changes only the order in which nodes are visited, not the automaton's links or outputs.
- Object identity of nodes, deques and lists is not modelled. The trie is a value, and the processor's buffer is a `seq<char>` field that is reassigned.
- `ActionContext.history` is the history's contents at the time of the callback, not a live reference. The model therefore does not capture a callback keeping the object and reading it later.
- Decorator.ParseInt: `int()` is modelled for ASCII digits and ASCII whitespace only. Underscores between digits and non-ASCII digits or whitespace are treated as invalid sizes.
- ProcessorSpec.ContinueDropEffect, ProcessorSpec.ContinuePassEffect: stated for non-empty keywords only. The registry never holds an empty keyword.
- Decorator.FlushValid, Decorator.TokenStep, Decorator.TokenDrive, Decorator.Drive and Decorator.DriveBeside are proof-structuring pieces of `sync_wrap`'s body, not separate operations of the source.
- Scenarios.PrefixSafetyExample, Scenarios.HaltExample, Scenarios.ContextExample: run with history disabled, while the tests enable it. History changes only the log, and these tests read only the output and the callback's position and buffer. `HaltExample` reads `abstop`: the test's trailing `cd` is never read, because the loop stops at the halt.
- `exceptions.py` is not part of this model; `StreamHalted` is represented by the outcome `Halted`.
