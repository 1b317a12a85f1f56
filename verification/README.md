# Verified models of three Moli components

This project models three parts of Moli and proves what they are for.

**The public suffix tables** (`moli-site`). A build script reads the Public Suffix List, inserts the
rules right to left into a trie, and flattens the trie breadth-first into packed words, with an
interned label blob and no child pointers: edge N leads to node N + 1. A reader searches these tables
to find the public suffix of a domain. The model runs from the lines of the list to the answer for a
domain. `ByteStrings` fixes the two orders involved, `SuffixRules` the line format and the trie a list
denotes, `SuffixTrie` the mutable trie, `SuffixTables` and `Words` the bit layout, `BreadthFirst` the
queue argument, `SuffixCompiler` the generator, `SuffixEncoding` what the tables mean, `SuffixLookup`
the reader, `SuffixSemantics` the list's own matching algorithm, `SuffixBuild` the whole, and
`SuffixWidth` a list too large for the tables.

**The one-shot action window** (`moli-action-window`). Inputs are batched under a fixed one-second
deadline and compacted in place. `ActionLog` says, without any compaction, which inputs of a window's
log survive. `ActionPlan` says what the maximal grouping of inputs is. `ActionWindow` holds the two
mutable objects and proves that the in-place plan is always the grouping of the survivors. `ActionRuns`
and `ActionTiming` state what holds over every run of the queue, and `ActionDriver` proves that a client
calling the object's methods goes through exactly such a run.

**The benchmark aggregation** (`moli-benchmark`). `ResourceSweep` models the multi-cursor sweep over
worker samples and the rows its summary keeps. `Percentiles` models the interpolated percentile.

Where the source panics, a method returns `ok` as false; exhausted 64-bit identities and deadlines
beyond the clock's last instant, where the source panics too, are preconditions of `Push`. Machine
words are naturals with explicit bit operations, instants are integers in nanoseconds, Python
floats are reals, and scopes and payloads are type parameters.

## Findings

- The reader treats a wildcard exception such as `!*.x` as a plain wildcard
  (`moli-site/src/public_suffix.rs:70-76`), although the parser accepts it. `LookupIsPublicSuffix`
  gives the exact condition under which answers are right; the vendored list contains no such rule.
- The 32-bit width of an edge start is not checked (`moli-site/build.rs:130-132`).
  `FaithfulExactlyWhenNarrow` shows that it is exactly the missing check, and
  `MiscompiledListExists` proves that an accepted list needs it (all rules of 32 labels over two
  one-byte labels do).
- The sweep relies on samples in time order without checking it
  (`moli-benchmark/moli_benchmark/agent_episode.py:1380-1389`). `SweepNeedsOrder` and `NoTimeSkipped`
  say what that order is needed for; `StaleRow` and `SkippedTime` are lists it goes wrong on.

## Model

| member | source | states |
|---|---|---|
| `SuffixRules.RenderRSplit` | moli-site/build.rs:59 | splitting a rule at its dots from the right loses nothing: joining the labels gives the text back |
| `SuffixRules.RenderLeftmost` | moli-site/build.rs:59 | the last label of a path is written first, followed by byte 46 and the rest |
| `SuffixRules.AcceptedIsWellFormed` | moli-site/build.rs:43-74 | a line that passes the checks has short, non-empty, dot-free, lowercase ASCII labels; a wildcard is a whole leftmost label that never stands alone; an exception has at least two labels |
| `SuffixRules.LineFromRule` | moli-site/build.rs:43-59 | the accepted line can be rebuilt from its rule, so no two lines yield one rule |
| `SuffixRules.RuleRoundTrip` | moli-site/build.rs:43-76 | every rule of lowercase ASCII labels of 1 to 255 bytes, with a wildcard only as a whole leftmost label, is read back from the line that writes it, unless a plain rule begins with `!` or `//` |
| `SuffixRules.ParsedExactly` | moli-site/build.rs:37-74 | the line format in literal bytes, both ways: only empty and `//` lines are skipped, and a line is taken as a rule if and only if it writes that rule and the rule keeps to the checks |
| `SuffixRules.AcceptedExactly` | moli-site/build.rs:33-85 | a list is accepted if and only if no line is rejected, no two lines write one path and some line is a rule; its rules are as many as the lines taken |
| `SuffixRules.TrieExactly` | moli-site/build.rs:57-77 | the nodes are the root and the prefixes of the rules that the lines write, flagged 1 by a plain rule, 3 by an exception and 0 otherwise |
| `SuffixRules.TrieOfWellFormed` | moli-site/build.rs:15-19 | the trie of accepted rules is rooted and prefix-closed, with labels and flags that fit their table fields |
| `SuffixTrie.RuleTrie.constructor` | moli-site/build.rs:34 | the empty trie is the trie of no rules |
| `SuffixTrie.RuleTrie.Enter` | moli-site/build.rs:68 | `entry(label).or_default()`: the child exists afterwards, new children are unflagged, and nothing else of the trie changes |
| `SuffixTrie.RuleTrie.Walk` | moli-site/build.rs:57-70 | the label loop creates exactly the prefixes of the path, keeps all flags, and stops exactly at an empty or overlong label |
| `SuffixTrie.AddRule` | moli-site/build.rs:43-76 | a line is taken exactly when it is well formed and its path carries no rule yet; the trie then gains that path and its flags |
| `SuffixTrie.WithRuleIsTrieOf` | moli-site/build.rs:57-76 | inserting a rule into the trie of a list gives the trie of the longer list |
| `SuffixTrie.ParseRules` | moli-site/build.rs:33-85 | the parse succeeds exactly on lists with no malformed line, no repeated path and at least one rule, and yields the trie and the number of those rules |
| `SuffixBuild.NodeShape` | moli-site/build.rs:48-76 | every childless node is flagged, exception nodes have depth two or more, a wildcard node is flagged, childless and never directly below the root |
| `SuffixBuild.FlaggedNodesAreRules` | moli-site/build.rs:75-77 | the flagged nodes are as many as the rules |
| `SuffixBuild.OrderIndependent` | moli-site/build.rs:33-85 | shuffling the lines changes neither acceptance nor trie nor rule count, hence not the tables |
| `Words.ThreeFields` | moli-site/src/public_suffix.rs:25-39 | three non-overlapping bit fields or-ed into one word come back by shifting and masking |
| `SuffixTables.NodeRoundTrip` | moli-site/build.rs:130-132 | edge start, edge count and flags come back from a metadata word when they keep to 32, 16 and 8 bits |
| `SuffixTables.NodeWord` | moli-site/build.rs:130-132 | within the widths a metadata word is start + count * 2^32 + flags * 2^48 and less than 2^64 |
| `SuffixTables.EdgeWord` | moli-site/build.rs:120 | an edge word is offset * 256 + length, and fits 32 bits exactly when the offset fits 24 |
| `SuffixTables.FieldsMean` | moli-site/src/public_suffix.rs:26-38 | the fields that the reader masks and shifts out are the quotients and remainders by powers of two |
| `SuffixTables.RefusedExactly` | moli-site/build.rs:101-113 | the generator refuses exactly the tries with a child count or a label offset that its words would not give back |
| `ByteStrings.LessMeans` | moli-site/src/public_suffix.rs:31-33 | the label order decides at the first differing byte, a proper prefix coming first |
| `SuffixTables.NodeOverflow` | moli-site/build.rs:130-132 | an edge start between 2^32 and 2^33 decodes without its top bit, which turns up in the edge count |
| `SuffixTables.EdgeRoundTrip` | moli-site/build.rs:120 | label offset and length come back from an edge word under the asserted widths |
| `SuffixTables.Snoc` | moli-site/build.rs:107-121 | interning one more label leaves all earlier offsets and edge words as they were, and fails exactly when a new label would start beyond 24 bits |
| `SuffixTables.OffsetReadsLabel` | moli-site/build.rs:107-120 | every label reads back from the blob at its offset, whatever was interned later |
| `SuffixTables.BlobStoresEachOnce` | moli-site/build.rs:107-119 | the blob is the concatenation of the distinct labels, each stored once |
| `BreadthFirst.UnqueuedIsLater` | moli-site/build.rs:88-90 | a path not yet queued comes after every queued path in shortlex order |
| `BreadthFirst.QueueChild` | moli-site/build.rs:106-128 | appending the next child keeps the queue invariant: the queue holds the root and exactly the children met so far, in order |
| `BreadthFirst.QueueIsPrefix` | moli-site/build.rs:98-134 | at every moment the growing worklist is a prefix of the shortlex order of all paths |
| `BreadthFirst.QueueComplete` | moli-site/build.rs:98-137 | when every queued node has been expanded, every path has been queued |
| `BreadthFirst.QueueBounded` | moli-site/build.rs:98-134 | the worklist never holds more nodes than the trie has, which bounds the loop |
| `SuffixCompiler.EmitEdge` | moli-site/build.rs:107-122 | one turn of the child loop interns the label and appends its edge and node, or fails exactly on a full blob |
| `SuffixCompiler.EmitChildren` | moli-site/build.rs:106-128 | the child loop emits the children of a node in label order and keeps one node per edge plus the root |
| `SuffixCompiler.GenerateTables` | moli-site/build.rs:87-137 | the generator succeeds exactly on tries within the asserted widths, and its output is the declarative encoding of the trie in shortlex order |
| `SuffixEncoding.EdgesBeforeMeaning` | moli-site/build.rs:98-134 | the edges of the first nodes lead exactly to the children of those nodes |
| `SuffixEncoding.EdgeRange` | moli-site/build.rs:88-132 | the edge ranges of the nodes tile the edge table: edge e belongs to node i exactly when node e+1 is a child of node i |
| `SuffixEncoding.ChildAfterParent` | moli-site/build.rs:88-128 | every child is numbered after its parent |
| `SuffixEncoding.TablesAreFaithful` | moli-site/build.rs:98-137 | decoding the tables gives every flag, edge range and label of the trie, for tries of at most 2^32 nodes |
| `SuffixEncoding.FaithfulExactlyWhenNarrow` | moli-site/build.rs:130-132 | the tables of an encodable trie are faithful if and only if it has at most 2^32 nodes: the width that the generator does not check |
| `SuffixWidth.MiscompiledListExists` | moli-site/build.rs:130-132 | there is a list that the parser accepts and the generator encodes, whose tables are not faithful to its trie |
| `SuffixEncoding.WalkMeaning` | moli-site/src/public_suffix.rs:25-35 | walking decoded edges from node 0 succeeds exactly on the paths of the trie and ends at their nodes |
| `SuffixEncoding.TablesDetermineTrie` | moli-site/build.rs:106-137 | one set of tables belongs to one trie: the encoding is injective |
| `SuffixLookup.SiblingsAscend` | moli-site/src/public_suffix.rs:31-33 | the labels of the edges of one node ascend strictly |
| `SuffixLookup.SearchEdges` | moli-site/src/public_suffix.rs:31-33 | binary search over an edge range finds a label exactly when the range holds it |
| `SuffixLookup.Child` | moli-site/src/public_suffix.rs:25-35 | the child lookup returns the node of the extended path exactly when the trie has it, and nothing for a node out of range |
| `SuffixLookup.Find` | moli-site/src/public_suffix.rs:43-96 | the first exception on the path decides, otherwise the longest exact or wildcard hit, otherwise one label; a missing branch ends the walk without losing a match; the last `len` bytes of the written domain are the text of some of its last labels |
| `SuffixLookup.SuffixText` | moli-site/src/public_suffix.rs:50-92 | the text of the last k labels ends the written domain, and a tail spells them exactly when it has their length, dots included |
| `SuffixSemantics.HitMeansMatch` | moli-site/src/public_suffix.rs:57-91 | a flagged node or wildcard node at depth k means a rule of k labels matches the domain, and conversely |
| `SuffixSemantics.LookupIsPublicSuffix` | moli-site/src/public_suffix.rs:43-96 | the bytes that the lookup cuts off the end of the domain spell the suffix of the Public Suffix List algorithm (prevailing exception without its leftmost label, else most labels, else one label) if and only if matching exceptions include a literal one |
| `SuffixSemantics.LiteralListIsCorrect` | moli-site/src/public_suffix.rs:65-91 | for lists without wildcard exceptions every domain is answered correctly |
| `SuffixSemantics.WildcardExceptionFails` | moli-site/src/public_suffix.rs:70-76 | the accepted rule `!*.x` makes the domain `a.x` come out wrong |
| `SuffixBuild.Build` | moli-site/build.rs:21-31 | parse and generation together succeed exactly on accepted lists with an encodable trie |
| `SuffixBuild.CompiledWalk` | moli-site/build.rs:33-137 | walking the built tables succeeds exactly on the prefixes of the rules, and the flags there tell plain rule, exception rule or neither |
| `SuffixBuild.FindInBuild` | moli-site/src/public_suffix.rs:43-96 | looking a domain up in the built tables cuts its public suffix off the end of its text exactly when its matching exceptions include a literal one |
| `ActionPlan.GroupIsNormal` | moli-action-window/src/window.rs:149-169 | grouping keeps all inputs in order, leaves no empty run and no two adjacent scroll runs of one scope |
| `ActionPlan.NormalIsGroup` | moli-action-window/src/window.rs:149-169 | a plan with no mergeable neighbours is the only such plan of its inputs, so normalizing twice changes nothing |
| `ActionPlan.GroupIsShortest` | moli-action-window/src/batch.rs:92-103 | no plan with the same inputs has fewer units |
| `ActionPlan.RunPlanMeans` | moli-action-window/README.md:26-29 | executing a plan unit by unit equals executing its inputs one by one, for every host and every effect of an input |
| `ActionLog.SurvivorsSnoc` | moli-action-window/tests/model_based.rs:66-73 | the survivors of a log, defined by what kills an input later, follow the step-by-step reference compactor |
| `ActionLog.SurvivorAdmitted` | moli-action-window/src/window.rs:118-137 | a surviving input was admitted and no later cancel of its scope, nor later click if it is a click, follows it |
| `ActionLog.AdmittedSurvives` | moli-action-window/README.md:19-24 | an admitted input that nothing later kills survives; ordered actions are never discarded |
| `ActionLog.SurvivorsOneClick` | moli-action-window/src/window.rs:118-137 | at most one click per scope survives, and it is the last one admitted for the scope, with no cancel since |
| `ActionLog.SurvivorsBounded` | moli-action-window/src/batch.rs:219-229 | no more inputs are retained than were admitted |
| `ActionLog.RetainFlattens` | moli-action-window/src/window.rs:171-189 | dropping whole units drops exactly the inputs that the event kills |
| `ActionLog.ScopesIndependent` | moli-action-window/README.md:35-37 | what survives of a scope depends only on the events of that scope |
| `ActionLog.CancelErasesScope` | moli-action-window/src/window.rs:171-197 | after a cancel the survivors are those of a log from which the scope was erased, with their sequences and times |
| `ActionWindow.PendingWindow.NormalizeScrollRuns` | moli-action-window/src/window.rs:149-169 | the merging loop leaves the maximal grouping of the same inputs |
| `ActionWindow.PendingWindow.FindClick` | moli-action-window/src/window.rs:119-121 | the position found is the first click of the scope, and none is found only if there is none |
| `ActionWindow.PendingWindow.EvictClick` | moli-action-window/src/window.rs:119-127 | evicting a click and re-merging leaves the grouping of the inputs that the new click does not kill |
| `ActionWindow.PendingWindow.Admit` | moli-action-window/src/window.rs:89-147 | after any admission the in-place plan is the grouping of the survivors of the log, counters included; it reports a scroll run appended to exactly when a scroll adds no unit, an addition exactly when one unit and one retained input are added, and a replaced click exactly when the retained count stays |
| `ActionWindow.PendingWindow.RemoveScope` | moli-action-window/src/window.rs:171-197 | canceling leaves the grouping of the remaining survivors and returns the sequences of the killed inputs in order |
| `ActionWindow.ActionWindow.constructor` | moli-action-window/src/window.rs:228-234 | a new queue is idle with identities starting at 1 |
| `ActionWindow.ActionWindow.Release` | moli-action-window/src/window.rs:199-210 | a closed window becomes the batch of its log: field by field its id, plan, counts and times, the given cause and the time of release |
| `ActionWindow.ActionWindow.OpenWindow` | moli-action-window/src/window.rs:360-373 | a fresh window takes the next batch id and a deadline one second later |
| `ActionWindow.ActionWindow.Push` | moli-action-window/src/window.rs:276-318 | a push releases the window that is due with cause and time, opens or joins a window, logs the input under the next sequence, and reports all of it, the compaction as the change in units and retained inputs |
| `ActionWindow.ActionWindow.TakeDue` | moli-action-window/src/window.rs:321-333 | the pending batch is taken, with cause deadline, exactly when its second has passed |
| `ActionWindow.ActionWindow.Flush` | moli-action-window/src/window.rs:337-341 | a barrier releases whatever is pending, with that barrier as cause, and leaves the queue idle |
| `ActionWindow.ActionWindow.CancelScope` | moli-action-window/src/window.rs:349-358 | a cancel logs the scope, goes idle exactly when nothing survives, and returns the killed sequences |
| `ActionWindow.ActionWindow.Clear` | moli-action-window/src/window.rs:266-270 | clear drops the window and returns how many inputs it retained |
| `ActionDriver.Execute` | moli-action-window/src/window.rs:226-391 | as long as no identity or deadline overflows, a client that calls the methods of a fresh queue for any list of operations ends in the state of the run and has been handed exactly its admissions, batches, cancel results, number of replaced clicks and number of dropped inputs |
| `ActionRuns.RunConserves` | moli-action-window/src/window.rs:266-391 | over any run every issued sequence number is in exactly one place: one released batch, superseded, canceled, dropped by clear, or pending |
| `ActionRuns.RunOrdered` | moli-action-window/src/window.rs:276-391 | over any run released then pending sequences rise strictly, so do batch ids and every cancel result, released and pending inputs stand in the window they were admitted to, and only a later click of the same scope and window supersedes a click |
| `ActionRuns.RunCounts` | moli-action-window/src/window.rs:96 | over any run a released batch counts exactly the inputs that were admitted to its window |
| `ActionTiming.SoundBatchPromises` | moli-action-window/src/batch.rs:156-168 | a batch is never empty, is normal with one click per scope, counts its inputs, has its deadline one second after opening and all inputs before it, and is not early when the cause is the deadline |
| `ActionTiming.RunTimed` | moli-action-window/src/window.rs:276-358 | over any run with any clock no open window is empty and every released batch keeps those promises |
| `ActionTiming.RunSuccessive` | moli-action-window/README.md:50-51 | under a monotone clock inputs lie within their windows and no window opens before the previous batch was released |
| `ResourceSweep.Advance` | moli-benchmark/moli_benchmark/agent_episode.py:1382-1386 | the cursor loop stops at the first sample later than the time and remembers the one before it |
| `ResourceSweep.AdvanceAll` | moli-benchmark/moli_benchmark/agent_episode.py:1381-1386 | after one time every worker shows the sample its cursor stopped behind, and cursors moved by the counted steps |
| `ResourceSweep.Aggregate` | moli-benchmark/moli_benchmark/agent_episode.py:1365-1407 | rows come in time order, one for the time of each sample by which some worker has started and no others, measured from the least sample time; for samples in time order every sample time has a row, and each row sums, worker by worker, the last samples at or before it; all cursors together move at most once per sample |
| `ResourceSweep.SweepNeedsOrder` | moli-benchmark/moli_benchmark/agent_episode.py:1380-1387 | the cursor stops behind the last sample of the list at or before the time, at every time, if and only if the samples come in time order |
| `ResourceSweep.LastIsMostRecent` | moli-benchmark/moli_benchmark/agent_episode.py:1382-1386 | in time order that sample is also the most recent one |
| `ResourceSweep.SortedSweep` | moli-benchmark/moli_benchmark/agent_episode.py:1365-1407 | the rows of the cursor positions are, for samples in time order, the worker-by-worker aggregates of the last samples, one for every sample time |
| `ResourceSweep.SweepTimes` | moli-benchmark/moli_benchmark/agent_episode.py:1368-1389 | for samples in any order, which times have a row and from which time they are measured, said of the samples alone |
| `ResourceSweep.StaleRow` | moli-benchmark/moli_benchmark/agent_episode.py:1382-1387 | samples at 1, 3 and 2: the row for 2 shows the total of time 1 |
| `ResourceSweep.SkippedTime` | moli-benchmark/moli_benchmark/agent_episode.py:1387-1389 | two samples in reverse order: the earlier time gets no row |
| `ResourceSweep.NoTimeSkipped` | moli-benchmark/moli_benchmark/agent_episode.py:1387-1389 | the empty-row branch is never taken if and only if some worker starts at the earliest time |
| `ResourceSweep.SortedSkipsNothing` | moli-benchmark/moli_benchmark/agent_episode.py:1387-1389 | that holds for samples in time order |
| `ResourceSweep.OneRowPerTime` | moli-benchmark/moli_benchmark/agent_episode.py:1380-1406 | then there is one row for each distinct time, in order |
| `ResourceSweep.RowsInOrder` | moli-benchmark/moli_benchmark/agent_episode.py:1380-1406 | every row is the aggregate of its own time, and rows come in time order |
| `ResourceSweep.PresentTotals` | moli-benchmark/moli_benchmark/agent_episode.py:1358-1362 | the list of observed samples has the metric throughout exactly when every observed worker reports it, and its total is then the sum worker by worker |
| `ResourceSweep.TotalPermutes` | moli-benchmark/moli_benchmark/agent_episode.py:1387-1404 | the total does not depend on the order of the workers |
| `ResourceSweep.ObservedNeverFalls` | moli-benchmark/moli_benchmark/agent_episode.py:1387-1395 | the observed worker count never falls along the rows |
| `ResourceSweep.CompleteRowsAreSuffix` | moli-benchmark/moli_benchmark/agent_episode.py:1411-1415 | the complete rows are all rows from the first one at which every worker has started |
| `ResourceSweep.UpdateIntervals` | moli-benchmark/moli_benchmark/agent_episode.py:1430-1433 | each update interval is the positive difference of two neighbouring complete rows, and they add up to the time that these rows span |
| `Percentiles.PermutationInvariant` | moli-benchmark/moli_benchmark/stats.py:6-16 | the order of the values does not matter, for any percent |
| `Percentiles.InterpolateMonotone` | moli-benchmark/moli_benchmark/stats.py:12-16 | interpolation does not decrease with the rank, across segment boundaries too |
| `Percentiles.PercentileMonotone` | moli-benchmark/moli_benchmark/stats.py:6-16 | within 0 to 100 the percentile exists, lies between least and greatest value and does not decrease with the percent |
| `Percentiles.OrderStatistic` | moli-benchmark/moli_benchmark/stats.py:12-16 | at a whole rank, percent * (n - 1) = 100 * k, the percentile is the k-th sorted value; 0 gives the least and 100 the greatest |
| `Percentiles.PercentileExactly` | moli-benchmark/moli_benchmark/stats.py:6-16 | for every percent: at rank k + w the percentile is the k-th sorted value moved by w towards its neighbour, negative positions counting from the end, and an index error exactly beyond the list |
| `Percentiles.Interpolates` | moli-benchmark/moli_benchmark/stats.py:12-16 | within the list it is the linear interpolation between two neighbouring sorted values |
| `Percentiles.PercentileIsQuantile` | moli-benchmark/moli_benchmark/stats.py:6-16 | a percent given as a fraction yields that quantile, its rank split by integer division |
| `Percentiles.SummaryExactly` | moli-benchmark/moli_benchmark/stats.py:19-39 | no values give an empty summary; otherwise it holds the count, the least and greatest value and the quantiles 1/2, 1/2, 9/10 and 19/20, which ascend |
| `Percentiles.SummaryBounds` | moli-benchmark/moli_benchmark/stats.py:19-34 | the least and the greatest value of a summary are values and bound all values |

## Left out

- Reading the list file, splitting it into lines, trimming lines and writing the generated source text: input, output and formatting.
- The functions of `moli-site` that derive registrable domains and site keys from a lookup: they rest on the `psl-types` crate, which is not part of this model.
- SuffixLookup.SearchEdges: models the library's binary search as a halving loop; which of several equal elements it would return is not an issue because labels are distinct.
- Accessors of the action window and its batches, and the fields of scroll and click payloads: easy members, opaque to the window logic.
- Real timers and the host that executes batches, beyond the execution order proved in `RunPlanMeans`.
- ResourceSweep.Aggregate: samples always carry a timestamp (the source raises an error on reaching one that does not), and workers are numbered in the order of their labels.
- The remaining fields of the resource summary (peaks and averages of the totals): each is one maximum or mean.
- Percentiles.PercentileMonotone: covers percents from 0 to 100; outside, list indexing wraps around, as `WrapsBelowZero` shows, and `PercentileExactly` says what the value is.
- Floating-point rounding in percentiles and sums.
- The episode job queue, worker processes, browser protocol and artifact code of the benchmark.
