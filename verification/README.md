# A verified model of oasmock's hard core

oasmock is a mock server for OpenAPI and AsyncAPI descriptions. This project models the parts of it whose
correctness is not evident from reading one function, and proves what they are for. Every `.dfy` file models one
source component; `dafny verify dfyconfig.toml` checks all of them.

- **Matching and scanning.** `Glob` (the greedy subscriber filter equals its declarative meaning), `Expressions`
  (escaped paths and runtime expressions), `ExpressionForms` (what each written form of an expression answers),
  `StringTemplating` (the brace-depth scanner computes the only good cut of a string), `ValueTemplating`
  (depth-bounded templating over unordered maps), `TemplateForms` (what texts, keys and nested values become),
  `SchemaInliner` (reference inlining over cyclic graphs through one shared stack) and `SchemaOrders` (what each
  visiting order answers).
- **State.** `StateStore`, `DeepCopy` (snapshots over a heap of mutable maps and slices), `SetState` (updates applied
  in map order, and when that order cannot be seen).
- **Delivery.** `ParamsMatch` (conditions and their split by connection reference), `SignalRRegistry`, `WsRegistry`,
  `HubManager`, `DeliveryReach` (who is written to), `MessageDelivery` (the two-phase pipeline and its shortcut),
  `DeliverySources` (what conditions and extensions mean as written, and who they choose).
- **Runs and registries.** `Scheduler` (interleavings of interval jobs), `ExampleRegistry` and `ExampleRuns`
  (one-time and expiring examples), `OnceRaces` (the same with interleaved steps), `Broker` (the subscription index
  with shared backing arrays), `SchemaCache` (concurrent callers), `RingBuffer`.
- **Shared.** `Json`, `Strings`, `Seqs`, `Decimal`.

Code that updates objects in place is modelled by classes and loops and proved against functions of the old state.
Iteration over a Go map is a loop that picks any remaining key, so every result holds for every iteration order.
Code that is foreign to the program (JSON encoding, number parsing, schema compilation and validation, hashing) is a
function-valued parameter: deterministic, otherwise arbitrary.

## What the proofs found

Where a natural property does not hold of the code, the code is modelled as it is and the exact condition is proved:

- The broadcast shortcut agrees with the loop over candidates exactly when there is no hub, a stream is open, or the
  hub has no connections. Otherwise the shortcut invokes every hub connection where the loop reaches none.
- The two-phase recipient choice is exact unless a condition hides its connection reference behind a space before a
  piped source name; then nobody is reached although the unsplit match may accept everybody.
- Map order decides whether a schema can be inlined exactly when all references reached without entering siblings of a
  component reference are sound and acyclic and one reached through a sibling is not. OpenAPI 3.0.3, section 4.7.23,
  has siblings ignored.
- A value that is templated successfully has one answer in all orders exactly when fields whose keys collide agree.
- Set-state leaves one store in all orders exactly when entries with one resolved key stand for compatible updates.
- The whole-string shortcut of templating and the scan see the same expression exactly when the last byte is the only `}`.
- Splitting undoes escaping exactly for lists in which no earlier part ends in a backslash and the last part is non-empty.
- An event literally named `*` is delivered twice to whoever listens to any event.
- Panic recovery in the scheduler cancels by id and can stop a replacement.
- The scheduler is safe exactly as long as no job object is added twice. A second add registers the object with a closed
  channel, and its next removal closes that channel again.
- When selections run to their end, a one-time example is answered at most once exactly when no selection marks it while
  another one that will find it applicable is between check and mark, and no removal after a mark falls between the list
  and the check of another one that will find it applicable.
- A raw WebSocket id given by the caller keeps the two indexes in agreement exactly when it is new or stays on its channel.

## Hypotheses

Stated as preconditions or in the definition of a run, never hidden:

- In `ExampleRuns` operations on the example registry do not overlap; `OnceRaces` drops this. Ids of injected examples are
  never reused and hold no colon; the clock does not go back.
- For the safety of a scheduler run, no job object is added twice.
- Channel addresses are unique across hubs and every hub has its own registry. Deliveries go to raw connections registered
  without an id of their own, as the upgrade handler registers them.
- The schema hash is injective (for answers to equal direct compilation).
- Methods of one registry are atomic, as their mutexes make them.

Numbers are reals where the source has `float64` (no rounding, no NaN), and sequence numbers, times and durations are
unbounded integers. Characters stand for bytes, and trimming removes ASCII white space only. JSON encoding never
yields an empty text, so a rendered body is never empty.

## Model

| member | source | states |
|---|---|---|
| Glob.GlobMatch | internal/server/manage_ws.go:179-208 | For every pattern and value the greedy walk answers true exactly when the declarative reading ('*' is any string, every other byte itself) accepts: soundness and completeness of the greedy choice. |
| Glob.GlobMatchAny | internal/server/manage_ws.go:164-171 | True exactly when some pattern of the list accepts the value in the declarative reading. |
| Glob.SplitGlob | internal/server/manage_ws.go:212-219 | The segments are the non-empty star-free pieces of the pattern, in order. |
| Glob.LeftmostSuffices | internal/server/manage_ws.go:198-206 | Exchange argument: a floating segment can be placed somewhere with the rest after it exactly when it can be placed at its leftmost occurrence. |
| Glob.LastAnchored | internal/server/manage_ws.go:199-201 | A last segment of a pattern without trailing star matches exactly when the value ends with it. |
| Glob.GreedyStep | internal/server/manage_ws.go:189-206 | One round of the walk preserves what decides the answer: a miss refutes the pattern, a hit leaves an equivalent smaller question. |
| Glob.StarredIsGapped | internal/server/manage_ws.go:179-219 | A pattern that opens with a star accepts exactly the values holding its segments in order with arbitrary gaps, the last one at the end unless the pattern ends with a star. |
| Glob.NoStarIsEquality | internal/server/manage_ws.go:183-185 | A pattern without star accepts only itself. |
| SchemaInliner.Deref | cmd/gen-control-schema/main.go:110-112 | Answers the full unfolding or a failure some visiting order reports. It succeeds whenever every reachable $ref, those beside a component reference included, is a string, names a defined component and lies on no cycle; it fails whenever that is not so for the walks that skip siblings; without siblings these two coincide. |
| SchemaInliner.DerefImpl | cmd/gen-control-schema/main.go:114-123 | Terminates on every schema graph by (components off the stack, size of the value), hands the shared stack back unchanged on success and on error, and answers as the unfolding under that stack. |
| SchemaInliner.DerefMap | cmd/gen-control-schema/main.go:125-150 | The same for an object, whatever order its keys are visited in; a component reference replaces the whole object. |
| SchemaInliner.DerefSlice | cmd/gen-control-schema/main.go:152-162 | The same for an array, element by element. |
| SchemaInliner.InlineRef | cmd/gen-control-schema/main.go:167-183 | Unknown names and names on the stack are refused with their own errors; otherwise the component is unfolded with its name on the stack, and the stack is restored. |
| SchemaInliner.UnfoldIffWalks | cmd/gen-control-schema/main.go:114-183 | Some visiting order succeeds exactly when every walk along references that skips siblings ends in strings and defined components and never repeats one (cyclic graphs have none). |
| SchemaInliner.FailureIffWalks | cmd/gen-control-schema/main.go:125-183 | Some visiting order fails exactly when some walk, siblings included, meets a $ref that is no string, an undefined component or a cycle. |
| SchemaInliner.OrderShows | cmd/gen-control-schema/main.go:125-183 | The exact condition for map order to decide between success and failure: all walks that skip siblings are sound and acyclic while one that enters a sibling is not. |
| SchemaInliner.FailureIsFinal | cmd/gen-control-schema/main.go:130-149 | Without siblings a reported failure excludes success in every other visiting order. |
| SchemaInliner.SiblingsRace | cmd/gen-control-schema/main.go:130-149 | That condition can be met: a concrete schema that can be inlined and can be rejected. |
| SchemaOrders.OrdersRealise | cmd/gen-control-schema/main.go:110-183 | For the inliner run along an explicit order of the keys of every object it meets: an answer, result or error, is given by some order if and only if it is the unfolding or one of its failures; so the contracts above promise no more and no less than the orders deliver. |
| SchemaOrders.SuccessAndFailureByOrder | cmd/gen-control-schema/main.go:110-183 | Some order succeeds exactly when all walks that skip siblings are sound and acyclic, and some order fails exactly when a walk that may enter siblings is not. |
| SchemaInliner.SmallerStack | cmd/gen-control-schema/main.go:167-183 | A successful unfolding does not depend on which further components were already being unfolded. |
| SchemaInliner.ResultIsFixedPoint | cmd/gen-control-schema/main.go:110-183 | A result holds no component reference and inlining it again, against any components, returns it. |
| SchemaInliner.FollowUnfolds | cmd/gen-control-schema/main.go:167-183 | Following references lazily ends at a node with the same unfolding. |
| SchemaInliner.LookupAgrees | cmd/gen-control-schema/main.go:110-183 | On every path, looking into the inlined schema and lazily following references give the same node. |
| SchemaInliner.GuardFindsForeignRefs | cmd/gen-control-schema/main.go:186-205 | The final guard fires exactly when some path of the result leads to a $ref that is not a component reference. |
| SchemaInliner.ComponentRefUnfolds | cmd/gen-control-schema/main.go:130-183 | A reference written '#/components/schemas/' and a name stands for that component, whatever is beside it, when the component is defined and not already being unfolded, and for nothing otherwise. |
| SchemaInliner.ComponentRefFails | cmd/gen-control-schema/main.go:167-183 | A lone reference so written fails for a missing component, for one being unfolded, and otherwise with the failures of the component. |
| SchemaInliner.OtherRefIsKept | cmd/gen-control-schema/main.go:130-149 | A $ref text without that prefix is kept as it is, and so are the names of all fields beside it. |
| SchemaInliner.WithoutRefs | cmd/gen-control-schema/main.go:186-205 | A value without any $ref stands for itself, and no other value passes the final guard. |
| SchemaInliner.DerefReference | cmd/gen-control-schema/main.go:110-183 | What inlining answers for such a reference: the component when it holds no reference, an error naming it when it is missing or refers to itself, otherwise an unfolding or a failure of the component. |
| Expressions.SplitEscapedPath | internal/runtime/expression.go:26-60 | Computes the cells of a path: each unescaped dot ends one, an escaped dot is literal, an empty trailing cell is dropped. |
| Expressions.SplitUndoesJoin | internal/runtime/expression.go:26-60 | Splitting undoes escaping and joining for exactly the lists that are non-empty, end in a non-empty part and have no earlier part ending in a backslash (besides the empty list). |
| Expressions.SwallowedSeparator | internal/runtime/expression.go:36-43 | A part that ends in a backslash swallows the separator behind it: one cell is lost. |
| Expressions.GetNested | internal/runtime/expression.go:63-79 | The cursor walk answers the value at the path through nested objects, or nothing. |
| Expressions.EscapedPathReaches | internal/runtime/expression.go:152-177 | Any state value, however deep and whatever dots its keys hold, is what the expression with its escaped path evaluates to; a missing one evaluates to null. |
| Expressions.OtherSourcesAreIrrelevant | internal/runtime/expression.go:372-422 | Evaluation consults the one source it names: adding another source changes nothing, and without the named source it fails as unknown. |
| Expressions.ConnectionIsVisible | internal/runtime/expression.go:376-399 | An expression on the connection source begins with its literal text, unless it has a modifier and opens with a space. |
| ExpressionForms.PlainForm | internal/runtime/expression.go:372-422 | '{$source.path}' is the value of that source at that path, null where there is none, and an error where nobody provides the source. |
| ExpressionForms.PaddedParses | internal/runtime/expression.go:380-388 | A bar separates a modifier; ASCII white space around the reference and around the modifier is dropped and nothing else is. |
| ExpressionForms.DefaultForm | internal/runtime/expression.go:404-420 | The modifier 'default:text' answers the text for an absent path and the value itself for a present one. |
| ExpressionForms.JwtForm | internal/runtime/expression.go:446-451 | The modifier 'toJWT' answers the stub whatever the value is, absent ones included. |
| ExpressionForms.GetByPathForm | internal/runtime/expression.go:433-443 | The modifier 'getByPath:path' answers what lies at that path inside the value, and an error naming the path otherwise. |
| ExpressionForms.GetByNoPathForm | internal/runtime/expression.go:433-437 | Without a path that modifier is refused. |
| ExpressionForms.UnknownForm | internal/runtime/expression.go:444-445 | Any other modifier with an argument is refused by its name, which ends at the first colon. |
| ExpressionForms.UnknownWordForm | internal/runtime/expression.go:452-454 | Any other modifier without an argument is refused by its name. |
| ExpressionForms.NoPath | internal/runtime/expression.go:391-394 | An expression without a dot is refused. |
| ExpressionForms.NestedLeads | internal/runtime/expression.go:63-79 | Nested lookup answers the one value its parts lead to, and nothing where they lead nowhere. |
| ExpressionForms.DotsAsWritten | internal/runtime/expression.go:26-60 | A dot separates two parts; a dot behind a backslash belongs to the part. |
| StringTemplating.FindClosing | internal/server/engine_expr.go:35-52 | The depth-tracking loop ends at the last byte of the shortest balanced expression, or reports that nothing closes it. |
| StringTemplating.CloseIsShortest | internal/server/engine_expr.go:35-52 | The scan's end is the only position at which the opening is closed, so the piece is the shortest. |
| StringTemplating.CutIsWellCut | internal/server/engine_expr.go:21-82 | Cutting yields literals without openings and balanced expressions, with an unclosed opening only at the tail, and their concatenation is the input. |
| StringTemplating.CutIsUnique | internal/server/engine_expr.go:21-82 | No other well-cut list of pieces has the same text: the cut is determined by its declarative description. |
| StringTemplating.ReplaceEmbedded | internal/server/engine_expr.go:21-82 | Terminates, and the output is the piecewise substitution of the unique cut. |
| StringTemplating.FailuresLeaveText | internal/server/engine_expr.go:60-78 | If every expression of a cut substitutes to itself the text is unchanged. |
| StringTemplating.IdentityWhenNothingEvaluates | internal/server/engine_expr.go:21-82 | When every evaluation fails the string comes back unchanged. |
| StringTemplating.EvaluateExpressionInString | internal/server/engine_expr.go:84-105 | A single full expression is evaluated and its errors reported; any other string is scanned, never an error. |
| StringTemplating.WholeByCount | internal/server/engine_expr.go:86-86 | The shortcut's test and the count-based test used for values agree on every string. |
| StringTemplating.ShortcutIsOnePiece | internal/server/engine_expr.go:84-105 | The scan sees the shortcut's one expression exactly when the last byte is the only '}'. |
| StringTemplating.ShortcutAgreesWithScan | internal/server/engine_expr.go:84-105 | Then both give the same text on success, and where the shortcut fails the scan returns the input. |
| StringTemplating.PlainText | internal/server/engine_expr.go:84-105 | Text without '{$' is left alone. |
| TemplateForms.LeftmostGivesWay | internal/server/engine_expr.go:21-82 | The leftmost expression of a text gives way to its value: text as it is, other values as JSON, and itself when evaluation or encoding fails. What stands behind it is rendered on its own. |
| TemplateForms.EmbeddedOnce | internal/server/engine_expr.go:21-82 | The same spelled out for a text around one expression. |
| TemplateForms.WholeKeyIsText | internal/server/engine_expr.go:84-105 | A key that is one expression becomes the text of its value, and a failure is reported. |
| TemplateForms.WholeKeepsItsKind | internal/server/engine_expr.go:126-129 | A text that is one expression becomes the value itself, of whatever kind, and a failed evaluation is the answer. |
| TemplateForms.OthersStayText | internal/server/engine_expr.go:126-133 | Every other text stays a text, with its expressions replaced. |
| ValueTemplating.EvaluateValue | internal/server/engine_expr.go:111-113 | Answers one of the results the relational meaning allows at depth 0, whatever order fields are visited in. |
| ValueTemplating.EvaluateValueDepth | internal/server/engine_expr.go:120-163 | The same from any depth: strings, keys and values templated, refused beyond the depth bound, first error reported. |
| ValueTemplating.EvaluateFields | internal/server/engine_expr.go:135-148 | The object branch, for every order of the fields: a key that collides overwrites. |
| ValueTemplating.EvaluateItems | internal/server/engine_expr.go:149-158 | The array branch, item by item. |
| ValueTemplating.SuccessIsDeterministic | internal/server/engine_expr.go:120-163 | If one visiting order succeeds, none fails. |
| ValueTemplating.AnswerIsUnique | internal/server/engine_expr.go:120-163 | The exact condition for one answer: a value that is templated successfully has the same result in all orders if and only if, at every level, fields whose keys template to the same key can give the same values. |
| ValueTemplating.NoCollisionsAgree | internal/server/engine_expr.go:120-163 | In particular values without colliding keys meet it. |
| ValueTemplating.CollidingKeysRace | internal/server/engine_expr.go:135-148 | Any successful object with two colliding fields that can give different values has two different answers. |
| ValueTemplating.CollidingKeysExample | internal/server/engine_expr.go:135-148 | A concrete object and evaluator for which this happens. |
| ValueTemplating.PlainValues | internal/server/engine_expr.go:109-163 | For any evaluator, a value without '{$' in strings or keys is returned unchanged when its height is within the bound (256 from the top) and refused exactly beyond it. |
| TemplateForms.DeepestValue | internal/server/engine_expr.go:107-124 | Null wrapped in n arrays passes exactly when n is at most 256. |
| StateStore.Manager.Get | internal/state/state.go:22-31 | The value of the key in the namespace, absent when either is missing. |
| StateStore.Manager.Set | internal/state/state.go:34-43 | Changes that one lookup and no other; no namespace is left empty. |
| StateStore.Manager.Increment | internal/state/state.go:48-80 | Adds to a numeric value, starts from the delta otherwise, returns what it stores and changes no other lookup. |
| StateStore.Manager.Delete | internal/state/state.go:83-94 | Removes that one lookup and drops a namespace that became empty. |
| StateStore.Manager.ClearNamespace | internal/state/state.go:97-101 | Removes every lookup of the namespace and no other. |
| StateStore.SameLookups | internal/state/state.go:83-94 | Two stores without empty namespaces that agree on all lookups are equal. |
| DeepCopy.DeepCopyValue | internal/state/state.go:138-151 | The copy denotes the same JSON value, lives in maps and slices of its own, and nothing existing is written; shared substructure in the original is allowed. |
| DeepCopy.DeepCopyMap | internal/state/state.go:128-134 | The same for a map, whatever order its keys are visited in. |
| DeepCopy.GetNamespace | internal/state/state.go:105-113 | A snapshot denotes the namespace as it stood in memory disjoint from all live state, which is left as it was; null exactly when the namespace is absent. |
| DeepCopy.DenotesOneValue | internal/state/state.go:136-151 | A reference denotes at most one JSON value, so equal denotation is equality of contents. |
| SetState.ExampleEngine.ApplySetState | internal/server/engine_state.go:111-144 | Whatever order the entries are visited in, the store afterwards is the outcome of some order: each key has the updates of that order applied to its old value, other namespaces are untouched and no namespace is empty. |
| SetState.ExampleEngine.ApplyEntry | internal/server/engine_state.go:121-143 | One entry deletes, increments, sets a value object or sets a plain value at its resolved key and changes nothing else. |
| SetState.ExampleEngine.HandleIncrement | internal/server/engine_state.go:22-48 | The increment is the templated, coerced number; a value that cannot be templated or coerced changes nothing. |
| SetState.OwnUpdateOnly | internal/server/engine_state.go:111-144 | When no other entry resolves to the key, it gets exactly the update of its own entry applied to its own old value. |
| SetState.OrderIsInvisible | internal/server/engine_state.go:111-144 | The exact condition, for every initial store: all visiting orders of a set-state map leave the same store if and only if each entry stands for one update and entries with one resolved key stand for compatible ones (no effect on either side, equal deletes or puts, two increments, or an increment by zero of a float). |
| SetState.CompatibleCommute | internal/server/engine_state.go:14-109 | From whatever old value, two updates of one key commute exactly when they are compatible. |
| SetState.Confluence | internal/server/engine_state.go:111-144 | In particular, with pairwise distinct resolved keys and no colliding keys inside values, all orders leave the same store. |
| SetState.SharedTargetRaces | internal/server/engine_state.go:111-144 | Two different keys that resolve to one, with different values: one map leaves two different stores, whatever was stored before. |
| SetState.IncrementEntry | internal/server/engine_state.go:22-66 | One entry with a plain key and an 'increment' of a plain value: a float or int is added to the old number, or stored where there was none; a plain text adds what the parser reads; everything else leaves the store alone. |
| SetState.NullEntry | internal/server/engine_state.go:121-124 | One entry with a plain key and null removes the key and nothing else. |
| SetState.ValueEntry | internal/server/engine_state.go:69-81 | One entry with a plain key and a 'value' field stores the plain value of that field. |
| SetState.PlainEntry | internal/server/engine_state.go:96-109 | One entry with a plain key and any other plain value stores that value. |
| ParamsMatch.EvaluateParamsMatch | internal/extensions/match.go:92-138 | In any visiting order: true without error exactly when every condition holds; an error names a broken schema, a plain false a failing condition. |
| ParamsMatch.PartitionConnectionConditions | internal/extensions/match.go:257-268 | Each condition goes to the connection part exactly when its key or its string value contains the connection reference text. |
| ParamsMatch.SplitIsPartition | internal/extensions/match.go:257-268 | The two parts are disjoint and together are the whole match. |
| ParamsMatch.JudgedWithout | internal/extensions/match.go:92-138 | A common condition judged without a connection fails if it hides a connection reference and is otherwise unaffected by the connection. |
| ParamsMatch.TwoPhasesAreExact | internal/extensions/match.go:257-268 | Common part without connection plus connection part with it accept exactly when the unsplit match does and hides no connection reference. |
| ParamsMatch.SplitIsExactWithConnection | internal/extensions/match.go:257-268 | With the connection present in both phases the split accepts exactly when the unsplit match does. |
| ParamsMatch.HidingNeedsALeadingSpace | internal/extensions/match.go:173-187 | Only a piped expression whose body opens with a space can hide a connection reference from the split. |
| ParamsMatch.HiddenConnectionIsLost | internal/extensions/match.go:257-268 | A concrete hidden reference: the unsplit match accepts every connection, the two phases reach none. |
| ParamsMatch.SchemaCondition | internal/extensions/match.go:121-129 | A schema condition holds exactly when validation answers true and is an error exactly when the schema does not compile. |
| ParamsMatch.LiteralCondition | internal/extensions/match.go:130-135 | A condition that is no schema holds exactly when both sides read as numbers and are equal, or do not both read as numbers and have the same JSON text. It is compared as written unless it is a single expression and its key refers to the event or the connection. |
| ParamsMatch.ReferenceCondition | internal/extensions/match.go:95-112 | A single expression under such a key is compared by its value, and the condition fails when it cannot be evaluated. |
| ParamsMatch.EvaluateCondition | internal/extensions/match.go:92-138 | The answer on a match with one condition, by these three readings. |
| ParamsMatch.OneExpressionIsFull | internal/extensions/match.go:191-193 | The test by prefix, suffix and count picks exactly the texts that are one expression with no further opening in it. |
| ParamsMatch.PartsByText | internal/extensions/match.go:173-187 | A condition is a connection condition exactly when '{$connection.' occurs in its key or in its text value. |
| SchemaCache.SchemaCacheStore.Put | internal/extensions/match.go:47-60 | Inserts unless present and evicts the oldest beyond 1024; order stays duplicate-free, equal to the keys, and is the youngest insertions in insertion order. |
| SchemaCache.PutKeepsSound | internal/extensions/match.go:47-60 | One insertion keeps that invariant, changes no kept entry and drops at most the oldest. |
| SchemaCache.GetCachedSchema | internal/extensions/match.go:63-84 | With an injective hash the answer is what direct compilation answers, errors included, and the cache stays truthful. |
| SchemaCache.EveryRunIsHonest | internal/extensions/match.go:24-84 | Over every interleaving of lookups, compilations and insertions by any number of callers, every answer is the direct compilation, and the order is duplicate-free, equal to the key set, at most 1024 long and evicted in insertion order. |
| SchemaCache.ForgetsBeyond1024 | internal/extensions/match.go:20-60 | Below 1024 entries an insertion forgets nothing; at 1024 it forgets the 1024th youngest insertion and nothing else. |
| SignalRRegistry.SignalRConnRegistry.IssueToken | internal/server/signalr_registry.go:35-43 | A connection id ('signalr-' and the next number) and a token (the id and '-t') never handed out before; the token is outstanding for that id. |
| SignalRRegistry.SignalRConnRegistry.ConsumeToken | internal/server/signalr_registry.go:46-54 | Succeeds exactly when the token is outstanding and removes it; over any run each token succeeds at most once. |
| SignalRRegistry.SignalRConnRegistry.FreshToken | internal/server/signalr_registry.go:57-63 | A new id and token that are not registered as outstanding. |
| SignalRRegistry.SignalRConnRegistry.StreamEntriesForChannel | internal/server/signalr_registry.go:123-146 | Each open stream of the channel once, with the metadata of its connection. |
| SignalRRegistry.SignalRConnRegistry.PushToStreams | internal/server/signalr_registry.go:177-184 | Every open stream of the channel gets the payload once, or, if there is none, every connection one server invocation with an id never used before. |
| SignalRRegistry.SignalRConnRegistry.PushToConnection | internal/server/signalr_registry.go:189-200 | The same restricted to one connection; nothing when it is not registered. |
| SignalRRegistry.SignalRConnRegistry.BuildStreamDeliveries | internal/server/signalr_registry.go:207-248 | Computes those writes; all server invocation ids ever written stay pairwise distinct whatever their targets. |
| SignalRRegistry.SignalRConnRegistry.OpenStream | internal/server/signalr_conn.go:143-155 | Adds exactly one stream to one connection. |
| SignalRRegistry.SignalRConnRegistry.UnregisterStream | internal/server/signalr_registry.go:169-173 | Removes exactly that stream of its connection. |
| SignalRRegistry.IssuedTokensDiffer | internal/server/signalr_registry.go:35-43 | Distinct connection ids make pairwise distinct tokens. |
| Decimal.NumbersTellApart | internal/server/signalr_registry.go:207-217 | Ids with equal text carry equal decimal suffixes, so ids with different numbers differ whatever target precedes the number. |
| Decimal.AtoiItoa | internal/server/signalr_registry.go:38-40 | Decimal rendering is injective: reading the digits gives the number back. |
| WsRegistry.ConnectionRegistry.Register | internal/server/ws_adapter.go:120-134 | Without an id, 'conn-' and the next number, never used before, and both indexes gain exactly the connection; with an id of the caller's, the indexes still agree if and only if the id is new or stays on its channel. |
| WsRegistry.ConnectionRegistry.Unregister | internal/server/ws_adapter.go:137-149 | Both indexes lose exactly the connection; a channel left without one is dropped. |
| WsRegistry.ConnectionRegistry.Connections | internal/server/ws_adapter.go:152-160 | Exactly the registered connections of the channel, each once. |
| WsRegistry.ConnectionRegistry.Broadcast | internal/server/ws_adapter.go:200-207 | Every connection of the address gets the payload exactly once and nobody else does. |
| WsRegistry.AgreeAfterRegister | internal/server/ws_adapter.go:120-134 | Filing a connection in both indexes keeps them in agreement exactly when its id is new or was on the same channel. |
| WsRegistry.AgreeAfterUnregister | internal/server/ws_adapter.go:137-149 | Removing by the recorded channel keeps the two indexes in agreement. |
| HubManager.HubManager.HubForAddress | internal/server/hubmanager.go:36-45 | Finds a hub owning a channel of the address, or none owns one. |
| HubManager.HubManager.HubChannelForAddress | internal/server/hubmanager.go:50-61 | Finds the hub and the channel id owning the address, or there is none. |
| HubManager.HubManager.SignalRPush | internal/server/hubmanager.go:75-80 | Delivers to the streams of the owning channel and writes in no other hub; nothing when the address is unknown. |
| HubManager.HubManager.WSBroadcast | internal/server/hubmanager.go:84-89 | Reaches exactly the raw connections of the address. |
| HubManager.HubManager.Candidates | internal/server/hubmanager.go:97-131 | Exactly the consumers of the channel: every raw connection and every hub connection with an open stream, ids pairwise distinct. |
| HubManager.HubManager.SignalRCandidates | internal/server/hubmanager.go:111-129 | One candidate per connection with an open stream, carrying all its streams of that channel, each once. |
| HubManager.HubManager.PushTo | internal/server/hubmanager.go:162-174 | Writes to the raw connection of that id if there is one, otherwise to the hub connection in the owning hub; everything else is unchanged. |
| HubManager.GroupedIsComplete | internal/server/hubmanager.go:111-129 | Grouping stream entries through the index map loses no connection and repeats none. |
| HubManager.TrimmedCore | internal/server/hubmanager.go:18-24 | Every text is slashes, a core without slash at either end, and slashes; trimming gives that core. |
| HubManager.AddressIs | internal/server/hubmanager.go:18-24 | With prefix core p and address core a the address of a channel is '/p/a', and '/a' without a prefix. |
| HubManager.PushToChannel | internal/server/hubmanager.go:75-80 | A push to the text built from the cores of a hub's prefix and of one of its channels writes in that hub. |
| DeliveryReach.BroadcastAgreesWithLoop | internal/server/hubmanager.go:75-131 | The two broadcasts and the loop over all candidates write the same multiset to raw consumers always, and to the hub if and only if there is no hub, a stream is open, or the hub has no connections. |
| DeliveryReach.ShortcutInvokesIdleConnections | internal/server/signalr_registry.go:207-248 | A concrete hub with one connection and no open stream: the broadcast writes an invocation, the loop nothing. |
| DeliveryReach.ReachesOne | internal/server/hubmanager.go:162-174 | One push reaches exactly its candidate: the raw connection, or each open stream of the hub connection. |
| MessageDelivery.MessageDelivery.DeliverExample | internal/server/message_delivery.go:171-224 | The whole pipeline over all examples of a subscription: each example is explained by one report over sources captured once before the first example, set-state runs at most once per example, the state evolves through the examples in order, and the logs of the bus grow by exactly the reported writes. |
| MessageDelivery.MessageDelivery.DeliverOne | internal/server/message_delivery.go:176-223 | One example: withheld exactly by failing common conditions, skip or a failed rendering; otherwise one set-state step and the writes of the branch taken. |
| MessageDelivery.MessageDelivery.Send | internal/server/message_delivery.go:194-222 | The three recipient branches: single target on its whole match, broadcast when there are no connection conditions, otherwise the loop over candidates. |
| MessageDelivery.MessageDelivery.RenderExample | internal/server/message_delivery.go:137-152 | Nothing for a skipped example; otherwise set-state first, then a body that is the JSON of the templated payload, or nothing when templating or marshalling fails. |
| MessageDelivery.MessageDelivery.EvaluateConnectionBucket | internal/server/message_delivery.go:156-162 | True without error exactly when the connection conditions hold with that candidate's context. |
| MessageDelivery.MessageDelivery.PushToMatching | internal/server/message_delivery.go:213-222 | The loop writes to exactly the candidates whose connection conditions hold, each once. |
| MessageDelivery.MessageDelivery.Broadcast | internal/server/message_delivery.go:206-211 | The fast path writes what the two broadcasts of the bus write, and only there. |
| MessageDelivery.MessageDelivery.PushOne | internal/server/message_delivery.go:198-205 | One push writes to the one addressed consumer and leaves everything else alone. |
| MessageDelivery.RecipientsAreExact | internal/server/message_delivery.go:171-224 | With connection conditions and a rendered body, the consumers written to are precisely the candidates for which the whole unsplit match holds over the captured sources. |
| MessageDelivery.ShortcutIsExact | internal/server/message_delivery.go:206-222 | On the broadcast path every consumer satisfies the unsplit match, and the writes equal those of the loop exactly when there is no hub, a stream is open or the hub has no connections. |
| MessageDelivery.WithheldIsExact | internal/server/message_delivery.go:182-187 | An example withheld by its common conditions had no consumer satisfying its whole match, unless it hides a connection reference. |
| MessageDelivery.FixedSources | internal/server/message_delivery.go:123-132 | The sources of one emission never contain a connection. |
| DeliverySources.SkipIsTrue | internal/extensions/example_value.go:112-119 | An example is skipped exactly when 'x-mock-skip' is the boolean true. |
| DeliverySources.MatchIsNewer | internal/extensions/example_value.go:87-110 | The conditions are those of 'x-mock-match' where it is given, otherwise those of 'x-mock-params-match'; what is no object has none. |
| DeliverySources.ConnectionFields | internal/server/builtin_triggers.go:80-90 | For a candidate, '{$connection.id}', '{$connection.channel}' and '{$connection.path}' are its id, channel and path, null where empty. |
| DeliverySources.ConnectionValues | internal/runtime/expression.go:193-236 | '{$connection.query.k}' and '{$connection.header.k}' are the single value of k, the list of its values, or null. |
| DeliverySources.ConnectionOtherwise | internal/runtime/expression.go:193-222 | Behind id, channel and path nothing more is read; query and header take exactly one part; nothing else can be asked of a connection. |
| DeliverySources.EventFields | internal/runtime/expression.go:254-263 | '{$event.name}' and '{$event.data}' are the name and the whole payload, null where absent. |
| DeliverySources.NestedFields | internal/runtime/expression.go:313-330 | Any other event path is looked up in the payload, and a state path in the captured namespace. |
| DeliverySources.EnvironmentFields | internal/runtime/expression.go:332-343 | '{$env.k}' is that variable, null where it is not set or k has several parts. |
| DeliverySources.AbsentIsNotNull | internal/runtime/expression.go:156-176 | What a source of the emission does not have is absent rather than null, so that a default applies; what it has is the value the path leads to. |
| DeliverySources.ExpressionBody | internal/server/message_delivery.go:137-152 | A payload that is one expression is rendered as the JSON of its value, and not at all when it cannot be evaluated or encoded. |
| DeliverySources.TextBody | internal/server/message_delivery.go:137-152 | A payload around one expression is rendered as the JSON of the text with the value in place. |
| DeliverySources.IdMatch | internal/server/message_delivery.go:156-162 | A match on '{$connection.id}' alone, with any condition that is neither a schema nor a single expression, accepts a candidate exactly when its id equals the condition as JSON. |
| DeliverySources.GoesToThatId | internal/server/message_delivery.go:171-224 | A rendered example with that match goes to exactly the candidates with that id and to nobody else. |
| Scheduling.Scheduler.Add | internal/eventbus/scheduler.go:40-52 | Makes a channel only for a job object without one, closes whatever was registered under the id, and leaves a sound registry if and only if the job object was never added before. |
| Scheduling.Scheduler.Cancel | internal/eventbus/scheduler.go:102-112 | Closes and removes the registered job of the id, once; reports whether there was one. |
| Scheduling.Scheduler.Shutdown | internal/eventbus/scheduler.go:116-126 | Closes every registered channel once and empties the map, in any order. |
| Scheduling.EveryRunIsSafe | internal/eventbus/scheduler.go:40-126 | Over every interleaving of add, cancel, shutdown, runner steps and panic recovery that adds no job object twice: no channel is closed twice, a job is registered exactly while its channel is open, at most one job per id is open, and each run loop begins at most one delivery after its channel closed. |
| Scheduling.SafeExactlyWithoutReAdd | internal/eventbus/scheduler.go:40-126 | Every state of a run is sound if and only if the run adds no job object twice. |
| Scheduling.ShutdownStopsEverything | internal/eventbus/scheduler.go:116-126 | After a shutdown, with no further add, every channel ever made has been closed exactly once. |
| Scheduling.RecoveryStopsWhoeverHoldsTheId | internal/eventbus/scheduler.go:64-69 | Panic recovery closes exactly the job registered under the id: its own, or a later replacement. |
| Scheduling.SecondAddClosesTwice | internal/eventbus/scheduler.go:40-52 | For every sound registry and every job object added before: adding it again registers it with a closed channel, and the next removal closes that channel a second time. |
| Scheduling.RecoveryCanStopAReplacement | internal/eventbus/scheduler.go:64-69 | A run that reaches this: the job is replaced during the delivery that panics, and recovery stops the replacement. |
| ExampleRegistry.ExampleRegistry.SelectDynamic | internal/server/registry.go:111-135 | Answers the first usable example (less than its ttl in seconds old, unmarked if one-time, conditions holding), with its index, and marks a one-time answer. |
| ExampleRegistry.ExampleRegistry.RemoveDynamic | internal/server/registry.go:83-106 | Removes every example of the id, drops emptied routes, clears its marker, and reports whether there was one. |
| ExampleRegistry.ExampleRegistry.SweepExpired | internal/server/registry.go:154-178 | Keeps exactly the unexpired examples in order, drops emptied routes and the markers of what it drops. |
| ExampleRegistry.PickIsFirst | internal/server/registry.go:111-151 | The answer is the first example of the route that is usable in this sense, and none if there is none. |
| ExampleRuns.OnceAtMostOnce | internal/server/registry.go:61-178 | Over every run of whole operations with an advancing clock and ids never reused, a one-time example is answered at most once and nothing is answered at or after its expiry. |
| ExampleRuns.SweepIsInvisible | internal/server/registry.go:111-178 | Leaving a sweep out of a run changes no later answer. |
| ExampleRuns.SweptRunsAlike | internal/server/registry.go:154-178 | A run and the same run without a sweep end in stores that selection cannot tell apart. |
| ExampleRuns.SweepKeepsStaticMarkers | internal/server/registry.go:154-178 | Sweeping leaves the markers of static examples alone, since only their ids contain a colon. |
| ExampleRuns.RunStoresUniqueIds | internal/server/registry.go:75-106 | Over every run the stored examples have unique ids. |
| OnceRaces.OnceUnlessRaced | internal/server/registry.go:61-151 | Over every interleaving of reading a list, checking the marker, judging, marking, removing, expiring and sweeping whose selections run to their end: the example is answered at most once if and only if no selection marks it while another one that will find it applicable stands between check and mark, and no removal after a mark falls between the list and the check of another one that will find it applicable. |
| OnceRaces.AppliesAnswers | internal/server/registry.go:111-135 | A selection that finds the example applicable answers with it, if it runs to its end. |
| OnceRaces.SecondAnswer | internal/server/registry.go:61-151 | Any two answers come from such an overlap or such a removal. |
| OnceRaces.SweepsAreHarmless | internal/server/registry.go:139-178 | Without an overlap a second answer needs an explicit removal: expiry and sweeping never cause one. |
| OnceRaces.OverlapHappens | internal/server/registry.go:111-151 | A run in which two overlapping selections both answer with the one-time example. |
| OnceRaces.RearmingHappens | internal/server/registry.go:83-151 | A run without overlap in which a removal takes the marker along and a selection that still holds the list answers again. |
| Broker.Broker.AddSubscriptions | internal/eventbus/broker.go:92-103 | Stamps the schema on the caller's slice and appends every subscription to the live registrations, in order, reusing or replacing backing arrays. |
| Broker.Broker.Append | internal/eventbus/broker.go:97-102 | One append, in place while there is capacity and into a fresh array otherwise, adds one registration. |
| Broker.Broker.RemoveRuntimeExample | internal/eventbus/broker.go:107-128 | Removes exactly the registrations of that schema with that deliverable, keeping order, by compaction in place. |
| Broker.Broker.Compact | internal/eventbus/broker.go:114-122 | Compacting through the same backing array leaves the survivors, in order, at its front. |
| Broker.Broker.ResolveSubscribers | internal/eventbus/broker.go:155-171 | A fresh list of the live registrations of the event followed by those of any event, filtered by scope, in registration order. |
| Broker.Broker.HasSubscribers | internal/eventbus/broker.go:176-193 | True exactly when that list is non-empty. |
| Broker.ResolveThenRun | internal/eventbus/broker.go:92-171 | A list already returned is unchanged by any later run of additions and removals, although both write into shared backing arrays, and the next answer is read off that run. |
| Broker.EachRegistrationOnce | internal/eventbus/broker.go:155-171 | Every matching registration is answered exactly once if and only if the event is not named '*' or nobody in scope listens to any event. |
| Broker.ListensTo | internal/eventbus/broker.go:84-103 | A live registration in scope is answered exactly when it names the event, names '*' or names nothing. |
| Broker.AnswersInOrder | internal/eventbus/broker.go:155-171 | The event's own registrations come first and those to any event behind them, each in the order they were made. |
| Broker.SurvivesRemoval | internal/eventbus/broker.go:107-151 | A removal leaves exactly the live registrations that belong to another schema or have no deliverable named 'runtime-' and the id. |
| RingBuffer.RingBuffer.Add | internal/history/history.go:48-62 | Keeps the slots holding the end of what was added, growing, overwriting the oldest, or ignoring with capacity zero. |
| RingBuffer.RingBuffer.GetAll | internal/history/history.go:65-79 | After any run of Add and Clear and for any capacity: exactly the last min(n, capacity) records since the last Clear, oldest first, through both copy branches. |
| RingBuffer.RingBuffer.Clear | internal/history/history.go:82-88 | Forgets everything added. |
| RingBuffer.RingBuffer.Count | internal/history/history.go:96-100 | The number of records GetAll would return. |
| RingBuffer.HoldsAfterOverwriting | internal/history/history.go:54-61 | Overwriting the oldest slot of a full buffer keeps the newest records in order. |
| RingBuffer.HoldsAfterGrowing | internal/history/history.go:54-61 | Filling the next slot of a buffer with room keeps all records in order. |

## Left out

- HTTP, WebSocket and SignalR transport: frames, handshakes, write errors and their logging. A write is an entry in a log.
- Delayed emission: the timer, the goroutine and the shutdown check of `deliverTo` (internal/server/message_delivery.go:86-110); the model starts at the delivery it leads to.
- Management envelopes (`notifyPush`, `notifyConsumer`, schedule envelopes): the shortcut emits one push envelope and the loop one per recipient, so only consumer writes are compared.
- Periodic deliveries (internal/server/message_delivery.go:228-237): rendering and the two broadcasts, both modelled, without any selection.
- Request, message and channel sources of runtime expressions, and slice-valued lookups: more lookups of the same kind.
- Lower-casing of header names and the Unicode white space of `strings.TrimSpace`.
- MessageDelivery.MessageDelivery.DeliverExample: the consumers are the same throughout one emission; connections that come and go while it runs are not modelled.
- MessageDelivery.MessageDelivery.Send: the second half of the loop body of `deliverExample`, given a contract of its own; the source has it inline.
- SignalRRegistry.SignalRConnRegistry.OpenStream: only the registration of a stream; parsing the invocation and rendering its first items are not modelled.
- SignalRRegistry.SignalRConnRegistry.Register: connections are values in the registry, so a connection object shared between the registry and its read loop is not captured.
- OnceRaces.OnceUnlessRaced: the slice a selection reads shares its backing array with the in-place compaction of a removal; the data race on its elements is not modelled, only whether the example is in it.
- `GetNamespace` on plain values: they are immutable here, so the absence of aliasing is stated in DeepCopy instead.
- StateStore.Manager.Increment: exact addition; rounding of `float64` is not modelled.
- `GetAll` of the state store: a loop of the copies proved in DeepCopy, for debugging only.
- ParamsMatch.EvaluateParamsMatch: schema validation is one opaque function of value and schema; its cache is proved transparent in SchemaCache and not threaded through.
- Goroutine scheduling beyond atomic steps, tickers and real time: ticks are events that may happen at any moment.
- JSON-RPC dispatch, trigger classification, request validation, response ordering, pagination and prefix helpers: single-branch facts.
- OpenAPI, AsyncAPI and YAML loading, the CLI, the generated schema constant, mocks and scripts.
