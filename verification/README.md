# AutoBench, verified

AutoBench runs agent benchmarks as a service, downloads the traces they leave in MLflow, and turns
them into reports and published artifacts. This project models the algorithms in it that carry real
invariants, one module a topic, and proves what they keep.

- **Trace analysis** (`TraceSpans`, `TracePasses`, `TraceInsertions`, `TraceDownloads`,
  `TraceExamples`, `TaskGroups`, `SpanDepth`, `DottedKeys`, `AttributeNesting`, `TracePaging`). Two
  passes read the same spans: one adds up counters, one lists every span. What one more span of each
  name does to them is stated by the names, so that the first observation, say, is never a tool call.
  They are shown to agree on every figure of a trace when they take the same `invoke_agent` span. The
  exact condition is given for the `counted` flags, and a trace with two such spans on which the
  figures differ. Over a download, where the rows are one list that the report groups by task again,
  the rows of a task count what its records count together. The depth of a span is the number of its
  ancestors over any parent relation, cycles included. A dotted attribute is found in the nested tree
  exactly when no clashing key was inserted later. Paging with a cutoff is a filter of the listing,
  wherever the page breaks fall.
- **Tree patching and diffing** (`JsonTrees`, `TreeDiff`, `StrategicMerge`, `MergeLaws`,
  `MergeRepeats`, `MergeNames`, `MergeEffect`). A patch applied twice changes nothing exactly when, in
  every subtree the first application copied, no mapping that a merge would enter maps a key to null;
  what it is silent about stays, what it says arrives, and a list item is merged into the item of the
  same `name` and no other. The diff reports exactly the real differences, each once, so it is empty
  exactly on equal trees.
- **Stateful protocols** (`CacheGap`, `JwksCache`, `JwksOrder`, `S3Export`, `S3Keys`, `RuntimeConfig`).
  The run driver never starts two legs of one cache group less than the gap apart. The key cache is
  sound under every interleaving of its callers, and its entries never go back in time exactly when the
  answers of each URL arrive in the order they were asked for. An upload that stops anywhere leaves no
  manifest that lies, exactly when no older manifest stands at its prefix with another size. A
  configuration field is what the issuer's last update that set it said.
- **Parsers, printers and classifiers** (`Shortlist`, `ShortlistSpans`, `PublicErrors`, `Causes`,
  `ErrorTexts`, `Scrub`, `PdfStrings`, `PdfStandard`, `PdfOutline`, `TocDocument`, `TocHeadings`,
  `TocRewrite`, `TocFixpoint`, `TocOneRewrite`, `EnvFile`). Round trips, conservation of counted
  tokens, a reader that follows the PDF standard exactly on the strings it is shown to, and a generator
  that reaches a fixpoint.

`Wrappers`, `Sequences` and `PyStrings` hold what the modules share: options, outcomes that may have
raised, facts about sequences, and the string functions of Python that the code relies on.

## How it is modelled

Code that loops over changing variables is a method with a loop, tied to a function that says what it
computes; the lemmas are about that function, and those closest to the code say in the names, fields
and texts of the data what it does. Objects with updated fields are classes. A Python exception is the
value `Raised`, and a condition the code checks is a branch, not a precondition.

- Time, latencies and durations are reals; token counts are integers. Hashes, the `int` parser of
  strings, the sorting of keys and the JSON encoding are parameters; a property that needs a fact about
  one states it (`int("")` raises, sorting keeps every key once).
- Python dictionaries are maps, except the flat span attributes, where a key assigned again keeps its
  first place, and rows grouped by task, which are lists in order of first appearance.
- Concurrency in the key cache is a state machine whose steps are the code between two awaits; the
  methods of the class `KeyCache` are proved to take exactly those steps. The documents of the
  provider may change at any instant, and a response may carry the document of any instant between
  request and answer.
- The bucket keeps a ghost history of every state it passed through, so a claim about every failure
  point is a claim about that list.
- Scrubbed run summaries are heap objects. The scrubbing methods have no `modifies` clause, which is
  how it is stated that the dicts of the caller are never changed.

Where the code and its own documentation disagree, the model follows the code:

- `runtime_config.py:16-32` says a secret is recognised by markers in the name of a field; the code
  compares the whole name with a list of four.
- `gen_pdf.py:248-265` honours escapes in literal strings, but does not read all strings as section
  7.3.4.2 of ISO 32000-1 does. `\b` and `\f`, octal codes and a line end behind a backslash come out as
  the characters behind the backslash, and a raw CR, alone or before LF, comes out as it is instead of
  as LF. `PdfStandard.ReadsTheStandard` shows that these are all the differences: the two readings are
  equal if and only if none of them occurs before the string closes.
- `jwks.py:18-36` stores the answer of an older request over a newer one when it arrives late.
  `JwksCache.LateAnswerReplacesNewer` is such a run; the soundness of entries is not affected.
  `JwksOrder.NeverBackIffAskedOrder` says exactly which runs never do it, and
  `JwksOrder.OneFetchAtATimeIsEnough` gives a discipline of the callers that excludes it.
- `helm-parity-check.py:100` is not updated by the items the loop appends, so two new items of one
  name are both appended by a first run and folded together by a second
  (`MergeEffect.RepeatedNameBreaksIdempotence`). The laws of whole trees assume unique names;
  `MergeRepeats` treats lists in which names repeat and says exactly when a second run is harmless.
- `mlflow_report.py:433-442` and `gen-12run-report.py:105-120` say that the two passes and the two tests
  for lost spans agree. The figures need one `invoke_agent` span in a trace, or none; the task column
  needs a first and a last root that tell the same task; the tests, of which section 8 keeps only the
  structural clause, need one trace for a task id. `TraceExamples` has a failed task of each kind:
  `TwoAgentsDisagree` and `SharedTaskMisleads`, which section 7 does not call lost and section 8 does,
  and `TwoRootsDisagree`, whose rows stand under another task than the record.
  `TraceDownloads.VerdictsAgreeIff` says for which counts the structural clause gives one answer on a
  shared task id, and `TraceDownloads.SoundIsNotLost` that section 8 never calls a task lost whose
  records all have status OK and are not lost in section 7.
- `run-12.py:445-465` separates the parts of a cache group with colons. As a function it prints one key
  for different requests when a part holds a colon (`CacheGap.ColonsCollide`); `CacheGap.GroupsExact`
  says what a shared group means then. No leg gets that far with such a gateway label: the Service
  refuses it (`models.py:86`, `models.py:483-487`) and the leg ends as `deploy_failed`
  (`run-12.py:283-286`), so `CacheGap.AcceptedGroupsExact` covers every leg that runs.
- `s3_export.py:202-205` promises a manifest that describes the uploaded objects. Over an earlier
  export of the same run this holds at every failure point only if no size changed
  (`S3Export.SafeIffNoStaleSize`); `S3Export.StaleManifestLies` is an upload over one of another size.
  The Service itself exports a run once, when it completes (`routes/runs.py:249-250`).

## Model

| member | source | states |
|---|---|---|
| TreeDiff.Diff | reference/helm-parity-check.py:57-76 | the loops collect the lines of the two trees in their order: keys as sorted, list items by place, a length before its items |
| TreeDiff.LinesAreDeltas | reference/helm-parity-check.py:57-76 | these lines are the differences of the two trees, all of them and each once |
| TreeDiff.DeltasExact | reference/helm-parity-check.py:57-76 | a line is reported if and only if it is justified by what stands at its path in the two trees: a type, a length or a scalar that differs, or a key one side lacks |
| TreeDiff.DiffEmptyIffEqual | reference/helm-parity-check.py:57-76 | the gate passes if and only if the trees are the same, types included |
| TreeDiff.TypesCompared | reference/helm-parity-check.py:57-60 | values of two types are one difference, that of the type, and values of one type are none of that kind |
| StrategicMerge.StrategicMerge | reference/helm-parity-check.py:79-107 | the recursive loops compute the merge function, with the raising cases |
| StrategicMerge.MappingMerged | reference/helm-parity-check.py:88-97 | a mapping with exactly the keys of both sides but the nulled ones, and the right value under each, is what the merge returns |
| StrategicMerge.IndexByName | reference/helm-parity-check.py:100 | every name of the list is indexed, at its last place |
| MergeLaws.PassAppends | reference/helm-parity-check.py:101-105 | the loop appends the items of new names in patch order, and nothing else |
| MergeLaws.KeepsUntouched | reference/helm-parity-check.py:101-103 | a place no patch item is merged into keeps its item |
| MergeLaws.MergesKnown | reference/helm-parity-check.py:101-103 | the loop raises only if one of its merges does, and each known name ends as the single merge of its old item |
| MergeLaws.MergedList | reference/helm-parity-check.py:98-106 | the merged list, place by place |
| MergeLaws.NamesAfter | reference/helm-parity-check.py:98-106 | old places keep their names and the index after the merge extends the one before |
| MergeLaws.SecondPass | reference/helm-parity-check.py:98-106 | merging into a list that holds every name appends nothing, and changes nothing exactly when no single merge does |
| MergeLaws.Absorption | reference/helm-parity-check.py:79-107 | merging a tree into itself never raises, and gives the tree back if and only if no mapping the merge enters maps a key to null |
| MergeLaws.MergeTwice | reference/helm-parity-check.py:79-107 | the patch applied a second time never raises, and changes nothing if and only if, in every subtree the first application copied whole, no mapping a merge would enter maps a key to null |
| MergeRepeats.MergesFold | reference/helm-parity-check.py:101-103 | with names repeated in the patch, what was held of a name ends as all its items merged into it in turn, and the loop raises exactly if one of these does |
| MergeRepeats.RepeatsTwice | reference/helm-parity-check.py:98-106 | a list patch with any names, repeated or not, is idempotent if and only if each of its names settles: folding the items of a known name twice into the base item gives what folding them once does, and the last item of a new name absorbs all items of that name |
| MergeRepeats.VerbatimRepeats | reference/helm-parity-check.py:98-106 | to repeat a settled item word for word is harmless, whether the list knew its name or not |
| MergeNames.SameKeyIff | reference/helm-parity-check.py:100-102 | two names key one entry if and only if Python calls them equal: null with null, a string with the same string, numbers by value across booleans, integers and floats |
| MergeNames.UnnamedStands | reference/helm-parity-check.py:99-103 | a base item with a string, null or nothing under `name` that no patch item has there stands unchanged at its place |
| MergeNames.NamedIsMerged | reference/helm-parity-check.py:100-103 | the one patch item of such a name is merged into the base item of that name, of several into the last |
| MergeNames.NewIsAppended | reference/helm-parity-check.py:104-105 | a patch item of a name the base list lacks is appended as it is |
| MergeNames.VariablePatched | reference/helm-parity-check.py:98-106 | in an environment of two variables, as in `deploy/deployment.yaml:39-43`, a patch of one sets it and leaves the other |
| MergeEffect.LeavesArrive | reference/helm-parity-check.py:88-107 | every non-null leaf of the patch is in the result at its own path of keys and names |
| MergeEffect.SilenceKeeps | reference/helm-parity-check.py:88-107 | what the patch is silent about is found exactly as before, absence included |
| MergeEffect.SilentIsAbsent | reference/helm-parity-check.py:88-107 | a path the patch is silent about is not in the patch, so the frame and the effect do not overlap |
| MergeEffect.OtherNamesKept | reference/helm-parity-check.py:98-106 | a list item whose name the patch does not carry is found unchanged under its name |
| MergeEffect.NullDeletes | reference/helm-parity-check.py:91-92 | a value that was there and is nulled is gone |
| MergeEffect.OrderKept | reference/helm-parity-check.py:99-106 | old items keep their places and names; the new ones follow in patch order |
| MergeEffect.RepeatedName | reference/helm-parity-check.py:100-105 | with a name repeated in the patch, a second application folds the two copies together |
| MergeEffect.RepeatedNameBreaksIdempotence | reference/helm-parity-check.py:100-105 | a concrete null-free patch that is not idempotent because a name repeats |
| SpanDepth.Depth | src/autobench/mlflow_report.py:470-482 | for any parent relation the loop ends with the number of ancestors, capped at 32, and never more than the known spans |
| SpanDepth.ChainClosed | src/autobench/mlflow_report.py:475-481 | when the walk stops before its limit, it has passed every ancestor |
| SpanDepth.AcyclicDepth | src/autobench/mlflow_report.py:470-482 | on a chain that ends, the ancestors are as many as the hops until it does |
| SpanDepth.ChildDepth | src/autobench/mlflow_report.py:470-482 | a child has its parent and its parent's ancestors, so one more than the parent unless the parent is on a cycle |
| SpanDepth.NoAncestors | src/autobench/mlflow_report.py:475-478 | no parent, the empty one and an unknown one lead nowhere |
| DottedKeys.JoinSplit | src/autobench/mlflow_report.py:83 | joining the parts of a key gives the key, so no two keys share a path |
| DottedKeys.DottedPrefix | src/autobench/mlflow_report.py:83 | a key is a proper dotted prefix of another exactly when its parts are a proper prefix |
| AttributeNesting.CollectAttributes | src/autobench/mlflow_report.py:66-76 | the flat dictionary has every key once, in order of first assignment, with its last value |
| AttributeNesting.AssignUnique | src/autobench/mlflow_report.py:73 | an assignment sets one key, moves none, and appends only a new one |
| AttributeNesting.LastTypedWins | src/autobench/mlflow_report.py:66-76 | a key has the last typed value given for it |
| AttributeNesting.NeverTyped | src/autobench/mlflow_report.py:66-76 | a key without a typed value is not there |
| AttributeNesting.KeysInOrder | src/autobench/mlflow_report.py:66-76 | the keys stand in the order of their first typed values |
| AttributeNesting.NestAttributes | src/autobench/mlflow_report.py:79-90 | the loop computes the nesting of all keys outside `mlflow.` |
| AttributeNesting.InternalIgnored | src/autobench/mlflow_report.py:80-82 | a key that begins with `mlflow.` makes no difference, wherever it stands |
| AttributeNesting.LastIsFound | src/autobench/mlflow_report.py:80-90 | any other key that comes last has its value at its path |
| AttributeNesting.InsertLeaves | src/autobench/mlflow_report.py:83-90 | one insertion puts its value at its path, destroys exactly the values above and below it, and touches no other |
| AttributeNesting.ValueFound | src/autobench/mlflow_report.py:79-90 | the value of a key stands at its path exactly when no later key is a dotted prefix or extension of it; otherwise no value stands there |
| AttributeNesting.OnlyOwnKeys | src/autobench/mlflow_report.py:80-90 | every value in the tree stands at the path of a key that is not internal |
| AttributeNesting.RoundTrip | src/autobench/mlflow_report.py:79-90 | flattening the tree gives all wanted attributes back if and only if no two of their keys clash |
| TraceSpans.KindsExclusive | src/autobench/mlflow_report.py:193-220 | the name tests exclude one another, so the order in which they are tried does not matter |
| TraceSpans.TokensAgree | src/autobench/mlflow_report.py:414-426 | where the aggregate does not raise on a token field, the published column is the same number |
| TracePasses.ParseTrace | src/autobench/mlflow_report.py:229-333 | one trace is aggregated from the chats and tool calls under the last invoke_agent span, its root the last one |
| TracePasses.SplitRoot | src/autobench/mlflow_report.py:234-242 | the last root, and the other spans in order |
| TracePasses.FindInvoke | src/autobench/mlflow_report.py:279-290 | the last invoke_agent span is taken |
| TracePasses.ScanChildren | src/autobench/mlflow_report.py:292-303 | exactly the chats and tool calls with that parent, initial_observation left out |
| TracePasses.SumChats | src/autobench/mlflow_report.py:312-317 | counts, latencies and tokens of the chats, or the exception of a malformed token field |
| TracePasses.RootsAside | src/autobench/mlflow_report.py:234-240 | setting the root spans aside loses no invoke, chat or tool span |
| TracePasses.TraceSpanRows | src/autobench/mlflow_report.py:445-522 | one row a span of a trace, in order, with task, depth, kind, counted flag, latency and tokens |
| TracePasses.IndexSpans | src/autobench/mlflow_report.py:455-459 | the last span of an id stands for it, empty ids for none |
| TracePasses.BuildRows | src/autobench/mlflow_report.py:484-522 | the rows of all spans, or the exception of the first span that raises |
| TracePasses.FirstWith | src/autobench/mlflow_report.py:461-468 | the first span that passes a test |
| TracePasses.RowsMirror | src/autobench/mlflow_report.py:484-522 | the counted rows of a kind are, one by one, the spans the aggregate picks: same number, latency and tokens |
| TracePasses.RowsFaithful | src/autobench/mlflow_report.py:495-518 | the counted flag and the columns of a row are what the aggregate uses under the same parent |
| TracePasses.PassesAgree | src/autobench/mlflow_report.py:433-442 | when both passes take the same invoke_agent span they agree on every count, latency and token total of a trace, and the test for lost spans gives one answer from either |
| TracePasses.AtMostOneInvoke | src/autobench/mlflow_report.py:461-468 | with at most one invoke_agent span they do take the same |
| TracePasses.CountedMatchesIff | src/autobench/mlflow_report.py:495-499 | in general the counted flags match exactly when the passes take one span or nothing countable hangs under either |
| TracePasses.KeptIff | reference/gen-12run-report.py:62-102 | which records section 7 keeps, by the number of their model calls |
| TraceInsertions.InitialObservationIgnored | src/autobench/mlflow_report.py:296-303 | a span `execute_tool initial_observation` anywhere in a trace leaves the record as it is |
| TraceInsertions.OthersIgnored | src/autobench/mlflow_report.py:292-303 | so does a span of any name that is no root, invoke, chat or tool name, and a chat or tool call under another parent |
| TraceInsertions.ToolCallCounts | src/autobench/mlflow_report.py:301-303 | any other tool call put under the invoke_agent span raises the tool count by one and the tool time by its latency, and nothing else |
| TraceInsertions.ChatCounts | src/autobench/mlflow_report.py:298-317 | a chat put there raises the model calls by one and adds its latency and tokens, or raises what they raise |
| TraceInsertions.UsageRead | src/autobench/mlflow_report.py:315-317 | the tokens of a chat stand under `gen_ai`, `usage`, `input_tokens` and `output_tokens` |
| TraceInsertions.UsageRaises | src/autobench/mlflow_report.py:315 | where a value stands in place of one of these dicts the exception is raised; what is missing counts for nothing |
| TraceInsertions.TokensRead | src/autobench/mlflow_report.py:316-317 | how the aggregate reads each kind of token value, cutting towards zero, zero for null and nothing, raising for the rest |
| TraceInsertions.TokensShown | src/autobench/mlflow_report.py:414-426 | how the column shows each kind |
| TraceInsertions.TaskIds | src/autobench/mlflow_report.py:250-272 | a record takes a string or nothing as its task id and refuses the rest; a column takes any value |
| TraceInsertions.LastInvokeTaken | src/autobench/mlflow_report.py:288-290 | the aggregate takes the last span whose name begins with `invoke_agent` |
| TraceInsertions.FirstInvokeTaken | src/autobench/mlflow_report.py:461-468 | the rows take the first |
| TraceInsertions.LastRootTells | src/autobench/mlflow_report.py:237-242 | the last `Agent.Session` gives the record its task and status |
| TraceInsertions.NoRoot | src/autobench/mlflow_report.py:241-242 | without one there is neither record nor row |
| TraceInsertions.RowIsCounted | src/autobench/mlflow_report.py:484-509 | each span has its row with its latency and its depth, capped at 32; the first observation is never counted, other tool calls and chats exactly under the first invoke_agent span, and no other span has the flag |
| TraceInsertions.RowRaisesIff | src/autobench/mlflow_report.py:487-491 | a row raises exactly if `usage`, `request` or `response` is no dict in a `gen_ai` that is one |
| TraceInsertions.KnownIds | src/autobench/mlflow_report.py:455-459 | the index knows the non-empty ids of the spans and no others |
| TraceInsertions.ParentOfLast | src/autobench/mlflow_report.py:455-459 | and maps each to the parent of the last span with it |
| TraceExamples.TwoAgentsDisagree | src/autobench/mlflow_report.py:461-468 | a failed trace with two invoke_agent spans: the record counts no tool call and is not lost in section 7, the rows count two and are lost in section 8 |
| TraceExamples.TwoRootsDisagree | src/autobench/mlflow_report.py:447-452 | a trace with two roots whose record carries the task of the last and whose rows carry that of the first |
| TraceDownloads.RowsCarryTaskIff | src/autobench/mlflow_report.py:429-523 | the rows of a trace carry the task of its record if and only if its first and its last root tell the same task |
| TraceDownloads.ParseTraces | src/autobench/mlflow_report.py:223-373 | one record a trace with a root, in order |
| TraceDownloads.SpanRows | src/autobench/mlflow_report.py:429-523 | the rows of all traces in one list |
| TraceDownloads.TraceMatches | src/autobench/mlflow_report.py:429-523 | a trace is a record and rows of the record's task that tell the same, or neither |
| TraceDownloads.TasksTotal | reference/gen-12run-report.py:784-786 | over any download, the rows of a task id count what the records of that id count together |
| TraceDownloads.LostByTotal | reference/gen-12run-report.py:784-811 | section 8 calls a task lost exactly when its records have at most one model call and two or more tool calls between them |
| TraceExamples.SharedTaskMisleads | reference/gen-12run-report.py:784-811 | two failed traces with one task id, neither lost in section 7, that section 8 calls lost |
| TraceDownloads.VerdictsAgreeIff | reference/gen-12run-report.py:105-124 | on a task id, shared or not, section 8 and the structural clause on the single records give one answer if and only if, with at most one model call in all, one record has two tool calls or there are not two in all, and with more, no record of at most one call has two tool calls |
| TraceDownloads.SoundIsNotLost | reference/gen-12run-report.py:62-124 | if every record of a task id has status OK and is not lost, section 8 does not call the task lost |
| TraceDownloads.DownloadsAgree | reference/gen-12run-report.py:784-811 | with distinct task ids, the rows grouped by task are the records' tasks, in their order, with their figures, and the same ones lost |
| TracePaging.DownloadKept | src/autobench/mlflow_report.py:120-138 | what is kept is the long-enough entries before the first one that is too old |
| TracePaging.ScanPage | src/autobench/mlflow_report.py:129-135 | one page, and whether the cutoff was in it |
| TracePaging.KeptConcat | src/autobench/mlflow_report.py:123-138 | listing on after a page adds what its continuation keeps, unless the cutoff was reached |
| TracePaging.CutoffIsFilter | src/autobench/mlflow_report.py:105-138 | on a newest-first listing, stopping at the first old entry loses nothing |
| TracePaging.WantedIff | src/autobench/mlflow_report.py:127-135 | an entry is wanted, at its place, if and only if it is no older than the cutoff in milliseconds and ran for at least the least duration in seconds; a missing time speaks for it |
| TracePaging.ServedUpTo | src/autobench/mlflow_report.py:136-138 | the pages are read up to the first without a token or without entries |
| TracePaging.PageBreaksDoNotMatter | src/autobench/mlflow_report.py:120-138 | two ways of cutting one listing into pages keep the same traces: the listing filtered by age and duration |
| CacheGap.GroupsExact | reference/run-12.py:445-465 | two legs make the same requests exactly when they share a cache group and as many colons stand in their gateway labels and in their benchmark names |
| CacheGap.PlainGroupsExact | reference/run-12.py:445-465 | without colons there, a group is one gateway, benchmark and effective model |
| CacheGap.AcceptedGroupsExact | src/autobench/models.py:86 | with gateway labels the Service accepts, or none, two legs make the same requests exactly when they share a group and as many colons stand in their benchmark names |
| CacheGap.AcceptedIff | src/autobench/models.py:86 | which gateway labels are accepted, by length and characters |
| CacheGap.RunsItsModel | reference/run-12.py:461-463 | the model that counts is the first of its three spellings that is set, else `default` |
| CacheGap.SpellingsShareGroup | reference/run-12.py:461-465 | a model, an override and a run model of one name give one group, and what stands behind the first spelling does not matter |
| CacheGap.ModelsApart | reference/run-12.py:461-465 | without colons in gateway and benchmark, legs of two models never share a group |
| CacheGap.ColonsCollide | reference/run-12.py:465 | the function prints one group for two different gateways and benchmarks; the Service refuses the gateway label of one of the two legs |
| CacheGap.Driver.WaitOutCache | reference/run-12.py:468-485 | it sleeps exactly what is left of the gap of its group, nothing for a new group |
| CacheGap.Driver.RunLeg | reference/run-12.py:516-534 | a leg is recorded once whether it returns or throws, and keeps the run valid |
| CacheGap.Driver.Record | reference/run-12.py:530-534 | the finish of a leg becomes its group's, and the run grows by the leg |
| CacheGap.Driver.RunLegs | reference/run-12.py:511-537 | for any order, selection and failures, the legs that ran are a prefix of the selected ones, all of them if it finishes, and spaced by the gap |
| CacheGap.InTimeOrder | reference/run-12.py:513-534 | a later leg looks at the clock after an earlier one was recorded |
| CacheGap.LatestOfGroup | reference/run-12.py:533 | `last_finish` holds the latest finish of every group that ran |
| CacheGap.RestIsBounded | reference/run-12.py:475-485 | a leg only waits for a group that ran before, and exactly as long as its gap lacks |
| CacheGap.GapKept | reference/run-12.py:468-485 | if leg j ran after leg i of its cache group, j started at least the gap after i finished |
| CacheGap.RequestsSpaced | reference/run-12.py:461-485 | so two legs of one gateway and benchmark that run one model, in whatever spellings, are spaced by the gap |
| CacheGap.CountLegs | reference/gen-12run-report.py:561-568 | the three counts the report makes of a run |
| CacheGap.WaitedIff | reference/run-12.py:532 | a leg counts as having waited if and only if it slept more than a twentieth of a second |
| CacheGap.CountWaitedIs | reference/gen-12run-report.py:561 | the first count is the number of those legs |
| CacheGap.DriverRuns | reference/gen-12run-report.py:563-564 | the runs a driver leaves are runs of its order, one group a leg number |
| CacheGap.SeenAll | reference/gen-12run-report.py:562-567 | the order loop finds every group that ran |
| CacheGap.CoveredIsACount | reference/gen-12run-report.py:568 | the difference the report calls covered is the number of legs that neither waited nor were first of their group, so never negative |
| JwksCache.KeyCache.GetKey | src/autobench/auth/jwks.py:18-31 | a call up to its first await: a hit, a refresh for an unknown key, or a fetch |
| JwksCache.KeyCache.Store | src/autobench/auth/jwks.py:32-36 | the answered document replaces the entry of its URL only, under the time of the request |
| JwksCache.KeysOfDocument | src/autobench/auth/jwks.py:34 | of a document an id keeps the last key that carries it, and an id none carries keeps none |
| JwksCache.KeyCache.KeysArrive | src/autobench/auth/jwks.py:19-22 | the first answer ends the call or asks once more |
| JwksCache.KeyCache.RefreshArrives | src/autobench/auth/jwks.py:23-25 | the second answer ends it |
| JwksCache.HitIsFresh | src/autobench/auth/jwks.py:28-31 | an unforced hit hands out a document that was current less than the TTL ago |
| JwksCache.StepSound | src/autobench/auth/jwks.py:18-36 | every step of every call keeps entries and calls sound |
| JwksCache.EveryRunSound | src/autobench/auth/jwks.py:18-36 | under any interleaving, rotation and failure, each entry is a document current at or after its timestamp, and each result one the call was entitled to |
| JwksCache.PresentKeyIsFound | src/autobench/auth/jwks.py:18-25 | while every document current during a call has a key with the id, the call does not report it missing |
| JwksCache.MissingOnlyAfterRefresh | src/autobench/auth/jwks.py:18-25 | a key is reported missing only on the answer to a refresh, never on a cached or first document |
| JwksCache.LateAnswerReplacesNewer | src/autobench/auth/jwks.py:35 | a run in which an older answer replaces a newer entry |
| JwksOrder.StepBackIff | src/autobench/auth/jwks.py:28-35 | a step sets an entry back exactly when it is an answer asked for before the entry was |
| JwksOrder.NeverBackIffAskedOrder | src/autobench/auth/jwks.py:18-36 | over any run from the start no entry goes back in time if and only if the answers of each URL arrive in the order they were asked for |
| JwksOrder.OneFetchAtATimeIsEnough | src/autobench/auth/jwks.py:18-36 | none does while no fetch of a URL begins with another of that URL outstanding |
| JwksOrder.FreshKeyIsServed | src/autobench/auth/jwks.py:18-31 | until its URL is answered again and for less than the TTL, a call for a key the answered document carries ends at once with that key, and for any other id asks once more |
| S3Export.PlanData | src/autobench/s3_export.py:169-194 | what is planned, and that only the span Parquet may fail without losing the export |
| S3Export.PlanNamesDistinct | src/autobench/s3_export.py:172-192 | no plan names an object twice or names the manifest |
| S3Export.PlannedParts | src/autobench/s3_export.py:169-194 | which part goes out under which name and in which format, each exactly under its condition, and no others |
| S3Export.SpanParquetOnlyDegrades | src/autobench/s3_export.py:186-194 | failing to make the span Parquet costs that object and nothing else; a plan raises only over the Parquet files of the records |
| S3Export.Put | src/autobench/s3_export.py:139-149 | with the retry, the object is stored or unchanged, and stored if it returns |
| S3Export.UploadAll | src/autobench/s3_export.py:218-223 | at every instant the bucket holds the first n objects of the plan; what is returned lists them all in order |
| S3Export.ExportSync | src/autobench/s3_export.py:159-223 | a plan that cannot be built touches nothing; else every state passed through is a stage of the upload, and success means all of it |
| S3Export.UploadedAt | src/autobench/s3_export.py:218-223 | what each key holds after n uploads |
| S3Export.SafeIffNoStaleSize | src/autobench/s3_export.py:202-223 | the manifest tells the truth at every failure point exactly when no older manifest lists another size for an object that is overwritten |
| S3Export.StaleManifestLies | src/autobench/s3_export.py:202-223 | a second upload with a larger object: after its first step the manifest that is still there lists the old size |
| S3Export.CompleteIsConsistent | src/autobench/s3_export.py:206-216 | a complete upload holds every object the manifest lists, at the listed size, and the manifest lists each with its name, format, key and size |
| S3Export.FreshPrefixIsSafe | src/autobench/s3_export.py:202-223 | on a prefix without a manifest, wherever the export stops, a manifest that is there tells the truth |
| S3Keys.SafeIsClean | src/autobench/s3_export.py:52-54 | a segment is never empty, holds safe characters only, no slash, and is left alone by a second cleaning |
| S3Keys.PlainStays | src/autobench/s3_export.py:52-54 | a segment of letters, digits, dots, underscores and inner dashes is left as it is |
| S3Keys.RunBecomesDash | src/autobench/s3_export.py:49-54 | a run of any other characters inside becomes one dash |
| S3Keys.NothingSafe | src/autobench/s3_export.py:54 | a segment of nothing else becomes `unknown` |
| S3Keys.PlainPrefix | src/autobench/s3_export.py:57-69 | plain names stand in the key as user, issuer without its scheme, benchmark and run, behind the configured prefix without its slashes |
| S3Keys.PrefixExact | src/autobench/s3_export.py:57-69 | under one configured prefix two runs share a key prefix exactly when their four segments agree |
| RuntimeConfig.RuntimeConfigStore.Apply | src/autobench/runtime_config.py:62-68 | the stored overrides change by the fields the update sets, for its issuer alone |
| RuntimeConfig.RuntimeConfigStore.Effective | src/autobench/runtime_config.py:70-80 | the base laid under the issuer's overrides, in each section |
| RuntimeConfig.RuntimeConfigStore.Response | src/autobench/runtime_config.py:82-86 | the effective configuration with its secrets masked |
| RuntimeConfig.LastSetWins | src/autobench/runtime_config.py:39-80 | after any history a field has what the issuer's last update that set it gave it, an explicit null included |
| RuntimeConfig.NeverSetKeepsBase | src/autobench/runtime_config.py:39-80 | a field none of the issuer's updates set is the file's, or absent as there |
| RuntimeConfig.OthersDoNotMatter | src/autobench/runtime_config.py:62-68 | dropping the updates of all other issuers changes nothing for this one |
| RuntimeConfig.RedactedShows | src/autobench/runtime_config.py:16-32 | a response differs from the effective configuration exactly in `secret_access_key`, `client_secret`, `password` and `bearer_token` where they are set, and shows those as `***` |
| Shortlist.Roles | reference/shortlistlib.py:50-68 | the usable spans in start order, each chat with its role |
| Shortlist.SortedInOrder | reference/shortlistlib.py:57-61 | the sort orders by start time |
| Shortlist.SortKeepsTies | reference/shortlistlib.py:57-61 | spans with the same start stay in the order they came in |
| Shortlist.RunsAndRoles | reference/shortlistlib.py:63-67 | the assistant calls are as many as the maximal runs of adjacent chats, the selections all other chats |
| Shortlist.RolesConserve | reference/shortlistlib.py:63-81 | every chat is one or the other, and no token is lost or counted twice |
| Shortlist.AssistantsBounded | reference/shortlistlib.py:63-67 | there is at most one assistant call more than tool spans |
| Shortlist.SelectionsAreAdjacent | reference/shortlistlib.py:63-67 | there is no selection exactly when no two chats are adjacent |
| Shortlist.TaskClassified | reference/shortlistlib.py:50-82 | all of these about a task's spans in the order they were given |
| ShortlistSpans.UsableIff | reference/shortlistlib.py:57-60 | a span is used, at its place, if and only if it is a chat or a tool call, no probe and no failed chat |
| ShortlistSpans.NoTurnCountsNothing | reference/shortlistlib.py:57-93 | any other span changes no counter, wherever it stands in the rows of a leg |
| ShortlistSpans.TokensByRole | reference/shortlistlib.py:62-81 | the tokens of the selections are those of the chats another chat follows at once, those of the assistant calls the others' |
| ShortlistSpans.TaskCounted | reference/shortlistlib.py:74-77 | a task counts as one exactly if a usable chat is in it, and else not at all |
| Shortlist.Acc.Tally | reference/shortlistlib.py:71-82 | a task adds its classification to the counters, and nothing if it has no usable chat |
| Shortlist.Acc.TallyRows | reference/shortlistlib.py:85-93 | the rows of a leg add one tally a task |
| TaskGroups.GroupByTask | reference/shortlistlib.py:88-90 | the rows grouped by task, in order of first appearance |
| TaskGroups.GroupedExactly | reference/shortlistlib.py:88-90 | every task has one group, which holds exactly its rows in their order |
| Shortlist.Merge | reference/shortlistlib.py:96-101 | counters are added key by key |
| TaskGroups.GroupedApart | reference/shortlistlib.py:88-90 | rows of tasks without a common id group independently |
| Shortlist.TallyMerges | reference/shortlistlib.py:85-101 | tallying two sets of rows together is merging their tallies when no task is split |
| PublicErrors.ClassifyMessage | src/autobench/public_errors.py:110-124 | the first category that claims the message, none for a blank one |
| PublicErrors.BlankIff | src/autobench/public_errors.py:117 | blank is nothing but white space |
| PublicErrors.FirstClaimWins | src/autobench/public_errors.py:119-124 | the category is the first of the list that claims the message, and `other` only if none does |
| PublicErrors.PrintedParsed | reference/causelib.py:82-88 | any published pair of category and shape is read back as it was printed |
| PublicErrors.ParsedIsPrinted | reference/causelib.py:82-88 | what is read is, white space around it aside, a printed word of small letters and underscores with eight hexadecimal digits |
| PublicErrors.SlugsAreSlugs | src/autobench/public_errors.py:53-95 | every category is a word the reader accepts |
| PublicErrors.ScrubRoundTrip | src/autobench/public_errors.py:135-149 | the published form of any non-blank message reads back as its category and its shape |
| ErrorTexts.GatewayTexts | src/autobench/public_errors.py:55-56 | which texts claim a message for the budget and the grant of a model |
| ErrorTexts.AccessTexts | src/autobench/public_errors.py:57-58 | for failed authentication and rate limits |
| ErrorTexts.ProbeTexts | src/autobench/public_errors.py:60-61 | for the model probe |
| ErrorTexts.ReachingTexts | src/autobench/public_errors.py:63-65 | for the agent card and the MCP connection |
| ErrorTexts.McpTexts | src/autobench/public_errors.py:66-67 | for MCP calls |
| ErrorTexts.TransportTexts | src/autobench/public_errors.py:68-69 | for the transport |
| ErrorTexts.DeadlineTexts | src/autobench/public_errors.py:71-73 | for the deadlines of a task and a run |
| ErrorTexts.AgentTexts | src/autobench/public_errors.py:76-79 | for step limits and defects of agents |
| ErrorTexts.OutcomeTexts | src/autobench/public_errors.py:80-85 | for tool choice, ended sessions and the judge |
| ErrorTexts.WrongTexts | src/autobench/public_errors.py:87 | for wrong answers |
| ErrorTexts.TimeoutTexts | src/autobench/public_errors.py:89 | for what only timed out |
| ErrorTexts.BucketIff | src/autobench/public_errors.py:110-124 | a message goes to a category if and only if that claims it and none of a lower rank does, and is unclassified if and only if none claims it |
| ErrorTexts.JudgeIsNoAnswer | src/autobench/public_errors.py:82-87 | a message with `llmclient: HTTP` is never filed as a wrong answer |
| ErrorTexts.TimedOutIsLast | src/autobench/public_errors.py:88-89 | a message is filed as timed out only if nothing else claims it |
| Causes.OwnLabel | reference/causelib.py:51-76 | every category has a label of its own entry, none falls through to the default |
| Causes.CauseOfPublished | reference/causelib.py:99-111 | a published error is named by the label of its category, an unclassified one perhaps by its shape |
| Causes.ProbeFailureSurvives | reference/causelib.py:114-126 | a message that ends like a failed probe is one in its own words, and still is one when published exactly if no earlier bucket claims it |
| ErrorTexts.TablesAgree | reference/causelib.py:39-76 | each line of the older table has the label of one category and only texts of that category, in the same order |
| ErrorTexts.EarlyLineTexts | reference/causelib.py:40-42 | the texts of its first lines |
| ErrorTexts.LateLineTexts | reference/causelib.py:43-47 | and of the others |
| ErrorTexts.ErasAgree | reference/causelib.py:99-111 | a message of such a category in words the older table knew has one label, published or not |
| ErrorTexts.LabelsShared | reference/causelib.py:52-77 | which categories a report adds up under one label: four of the gateway, four of MCP, two of the transport and two of agents; every other has its own |
| Scrub.PublishedReadsBack | src/autobench/public_errors.py:135-149 | what replaces a field is null exactly for a message with nothing in it, and else reads back as its category and shape |
| Scrub.PublishedIsClassified | src/autobench/public_errors.py:135-149 | the same by the characters of the message: null exactly if they are all white space |
| Scrub.CopyItem | src/autobench/public_errors.py:165-170 | a dict that needs it is replaced by a new one with the published field, anything else is passed on |
| Scrub.CopyItems | src/autobench/public_errors.py:164-171 | that of every item, in order |
| Scrub.ScrubResults | src/autobench/public_errors.py:161-169 | the results of the copy are a new list; a result with an error goes out as another dict that differs in the error only, which is null exactly for a message with nothing in it and else reads as its category and shape; any other goes out as it is |
| Scrub.ScrubRunSummary | src/autobench/public_errors.py:152-172 | the copy has the summary's keys and differs only in its error and the errors of its results, each classified in that way; nothing that exists is written |
| Scrub.ScrubRecords | src/autobench/public_errors.py:175-187 | a record with a status message goes out as another dict that differs in the message only, empty exactly if there was nothing in it and else classified; any other goes out as it is, and nothing that exists is written |
| PdfStrings.ReadLiteral | reference/gen_pdf.py:250-266 | the loop reads the literal string from behind its opening parenthesis |
| PdfStrings.ReadWritten | reference/gen_pdf.py:250-265 | reading what was written gives its value back and goes on at the nesting reached |
| PdfStrings.BalancedIsRead | reference/gen_pdf.py:248-265 | whatever balanced mixture of raw and escaped bytes a title is written in, it is read as its value |
| PdfStrings.RoundTrip | reference/gen_pdf.py:248-265 | any byte string survives being escaped and read |
| PdfStrings.RawIsRead | reference/gen_pdf.py:248-265 | a string may be written as it is exactly when its parentheses balance and it has no backslash |
| PdfStandard.ReadsTheStandard | reference/gen_pdf.py:250-265 | on any bytes the reader and section 7.3.4.2 of ISO 32000-1 read the same string if and only if, before it closes, there is no octal code, no `\b` or `\f`, no line end behind a backslash and no raw CR |
| PdfStandard.TokensReadTheStandard | reference/gen_pdf.py:250-265 | the same for a title in a writer's terms: exactly when each raw byte and each escape is of the common kind |
| PdfStandard.RoundTripByTheStandard | reference/gen_pdf.py:253-256 | the escaping of the round trip is read back by the standard, too |
| PdfStandard.OctalIsNotDecoded | reference/gen_pdf.py:253-256 | an octal code comes out as its digits, where the standard has one byte |
| PdfStandard.LineEndsRead | reference/gen_pdf.py:250-265 | by the standard a raw CR, LF or CR LF is one LF |
| PdfStandard.ContinuedRead | reference/gen_pdf.py:253-256 | and behind a backslash it is nothing |
| PdfOutline.Walker.Walk | reference/gen_pdf.py:268-276 | on any graph, cyclic ones included, the walk ends having appended what `Walked` says |
| PdfOutline.ListedOnce | reference/gen_pdf.py:271-276 | each object is listed at most once, and exactly the newly seen ones are |
| PdfOutline.ListsReachable | reference/gen_pdf.py:271-276 | what is listed contains the start and is closed under First and Next |
| PdfOutline.ListsOnlyReachable | reference/gen_pdf.py:271-276 | and lies in every set that is: it is exactly what can be reached |
| PdfOutline.OutlineInOrder | reference/gen_pdf.py:271-279 | on a tree in the sense of section 12.3.3 of ISO 32000-1 the entries are its preorder, each at its depth |
| TocDocument.Headings | reference/gen_toc.py:38-49 | the headings of levels two and three outside code fences |
| TocDocument.LinesConcat | reference/gen_toc.py:40 | the lines of two texts put together are their lines, the last and the first joined |
| TocDocument.ScanConcat | reference/gen_toc.py:39-49 | the headings of a document in two parts are those of the parts, the fence state carried over |
| TocHeadings.HeadingIff | reference/gen_toc.py:46-48 | a line of hashes and something else is a heading of the table if and only if there are two or three and a blank behind them |
| TocHeadings.TitleRead | reference/gen_toc.py:46-48 | its title is what stands between the blanks |
| TocHeadings.FenceIff | reference/gen_toc.py:41 | a fence is a line that begins, behind white space, with three backticks |
| TocHeadings.HeadingListed | reference/gen_toc.py:38-49 | such a line outside a fence is listed with its level and title, between the headings before and behind it |
| TocHeadings.FenceHides | reference/gen_toc.py:41-45 | nothing between two fences is listed |
| TocRewrite.Build | reference/gen_toc.py:52-63 | the table of the document's headings |
| TocRewrite.Run | reference/gen_toc.py:72-88 | the exit code and what is written in each case: a missing marker, a current table, a stale one with and without `--check`; it raises exactly when both markers are there but none of the end markers is behind the start marker |
| TocRewrite.AnchorSlug | reference/gen_toc.py:25-35 | an anchor holds lower-case letters, digits, dashes and underscores only |
| TocRewrite.AnchorOfPlain | reference/gen_toc.py:31-35 | the anchor of a heading of plain words is the heading in small letters with a dash for each blank |
| TocRewrite.PunctuationDropped | reference/gen_toc.py:34 | in a heading without links, any other character makes no difference to the anchor |
| TocRewrite.TicksDropped | reference/gen_toc.py:31 | a backtick never does |
| TocRewrite.EntriesWritten | reference/gen_toc.py:60-62 | the line of an entry at either level |
| TocRewrite.LinkDropped | reference/gen_toc.py:32 | of a link in a heading only the text remains |
| TocRewrite.TocLinePlain | reference/gen_toc.py:60-62 | a line of the table is never read as a heading or a fence, whatever its title |
| TocRewrite.MarkerInTitle | reference/gen_toc.py:60-62 | a line of the table carries the end marker only if its title does |
| TocFixpoint.RenewedHeadings | reference/gen_toc.py:76-78 | the rewritten document has the headings outside the table: the table adds none and leaves the fence state alone |
| TocFixpoint.OuterClean | reference/gen_toc.py:76-78 | if no line that looks like a heading, fenced or not, holds the end marker, then no heading of the document does and none before or behind the table |
| TocFixpoint.TableWritten | reference/gen_toc.py:76-78 | what a rewrite writes between the first start marker and the first end marker behind it |
| TocFixpoint.SecondRewriteSettles | reference/gen_toc.py:76-86 | with no end marker in a heading, of the document or outside the table, rewriting three times equals rewriting twice |
| TocOneRewrite.TocLineTells | reference/gen_toc.py:60-62 | a line of the table tells the level and the title it was made from |
| TocOneRewrite.FirstRewriteSettlesIff | reference/gen_toc.py:76-86 | with no end marker in a heading, one rewrite is final if and only if the headings of the document are those outside its table |
| TocOneRewrite.QuietHeadings | reference/gen_toc.py:76-78 | a stale region without heading or fence does not affect the headings |
| TocOneRewrite.FirstRewriteSettles | reference/gen_toc.py:76-86 | so with such a region one rewrite is final |
| EnvFile.LoadEnvFile | reference/preflight.py:203-220 | the loop computes the last-wins map, or the first bad line and why |
| EnvFile.ParseConcat | reference/preflight.py:203-220 | the parse of two files together is the second laid over the first, errors and line numbers included |
| EnvFile.ErrorIsFirst | reference/preflight.py:205-216 | an error is reported for line n exactly when that is the first bad line |
| EnvFile.LastLineWins | reference/preflight.py:203-220 | without a bad line a variable has a value exactly when the last line that sets it says so |
| EnvFile.EntryRead | reference/preflight.py:206-219 | in every layout (export, quotes or none, blanks anywhere, comments, each line end) an entry is read as meant if and only if it is not a bare variable called `export` with blanks before the equals sign |
| EnvFile.ExportMisread | reference/preflight.py:209-216 | that one is taken for the word and refused for its empty name |
| EnvFile.NoEqualsRefused | reference/preflight.py:211-212 | a line with something in it that is no comment and has no equals sign is refused for that |
| EnvFile.NameDecides | reference/preflight.py:213-216 | what stands in front of the equals sign is taken as a name if and only if it begins with a letter or an underscore and holds letters, digits and underscores only; any other is refused |
| EnvFile.QuotesTaken | reference/preflight.py:217-218 | only a pair of one kind of quotes is taken off a value |
| EnvFile.FileRead | reference/preflight.py:203-220 | any sequence of written entries, that one excepted, each with a line end of its own, is read back as exactly what it sets, the last one of a name winning |
| EnvFile.SplitKeeps | reference/preflight.py:204-205 | splitting any text into lines loses nothing |
| EnvFile.TextSplit | reference/preflight.py:204-205 | any strings written one behind the other are split into just these if and only if each is one line, each but the last is ended by LF, CR or CR LF, and no CR meets an LF over a boundary |
| EnvFile.BodiesSplit | reference/preflight.py:204-205 | lines without breaks inside, in any mixture of line ends and the last perhaps without one, are split into exactly themselves if and only if no line ended by a lone CR stands before an empty one ended by LF |
| EnvFile.TextRead | reference/preflight.py:203-220 | the text of any written entries, in any such mixture, is read back as exactly what they set, run-together lines included |

## Left out

- TreeDiff.Diff: does not model the wording of the lines, which quotes the values; the order `sorted` gives the keys is a parameter.
- StrategicMerge.StrategicMerge: a base list item that is not a mapping raises here; Python's `dict(i)` would accept a list of pairs. YAML dates, NaN and keys that are not strings are not modelled.
- AttributeNesting.NestAttributes: the walk down the nested dictionaries in place is a recursive insertion on values; no aliasing between subtrees arises in the source.
- TracePasses.ParseTrace: the fields that are not the task id, counts, latencies or tokens (model, session id, times after the first observation, overhead, infrastructure figures) and the exceptions they can raise are not modelled; nor are infinite and NaN token values.
- TracePasses.TraceSpanRows: the columns other than task, kind, depth, counted, latency and tokens are not modelled.
- TraceDownloads.DownloadsAgree: task ids are compared as values; in Python the numbers 1, 1.0 and true would be one key, but a record refuses a task id that is not a string.
- TracePaging.DownloadKept: the listing loop only; the filters on status and experiment and the fetch of each trace that follow it are not modelled. A server that never ends its pages is excluded.
- CacheGap.Driver.RunLegs: the clock never runs backwards, which `time.time` does not promise. Writing the JSON record, deploying and rebinding models or gateways are not modelled.
- JwksCache.KeyCache.GetKey: HTTP status handling and document parsing are one failing or answering step.
- S3Export.ExportSync: JSON, NDJSON and Parquet encodings are bodies with a size; urls and content types are not modelled, nor is the projection `_token_rows`, which copies columns.
- S3Keys.PrefixExact: an issuer is a string; the case-sensitive scheme test is the only part of a URL that is looked at.
- RuntimeConfig.RuntimeConfigStore.Apply: the dictionary of a section is a value in the issuer's dictionary; the validation by which field values are typed is not modelled.
- Shortlist.Roles: a start time is its place among the start times, missing ones first.
- PublicErrors.ClassifyMessage: the log lines are not modelled. The normalising patterns and SHA-256 are one hash parameter that gives eight hexadecimal digits.
- Scrub.CopyItems: stands for the two loops over tasks and over records, which differ only in the field they rewrite. A field that is neither a string nor null is excluded, as the signature of `public_error` does.
- PdfStrings.ReadLiteral: titles as hexadecimal strings, UTF-8 decoding and the regular expressions that find objects, titles and references are not modelled.
- TocDocument.Headings: a carriage return followed by a line feed ends two lines here, which adds an empty line and no heading.
- TocRewrite.Build: `lower` is modelled for ASCII; the Kelvin sign and a dotted capital I, which become ASCII letters in Python, are dropped. Only the default level and caption are modelled.
- TocRewrite.Run: reading and writing the file is its text in and out; the usage message without arguments is not modelled.
- EnvFile.LoadEnvFile: the file must exist with mode 600 or 400, which is not modelled; nor is the twin parser in `envfile.sh`.
- The statistics, charts and prose of the report generators: random sampling and floating point without an exact claim, and text layout.
- The cluster audit of `preflight.py`, the HTTP routes and the authentication flows other than the key cache: each calls a service whose answers are not described here, and decides on one answer at a time.
- `runner/engine`, `runner/tracing` and `routes/runs` are not part of this model.
