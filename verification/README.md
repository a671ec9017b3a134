# Call trees from span hops, in Dafny

This project models the core of a small Java tool that reads a log of
*hops* and rebuilds one nested call tree per trace. Each log line records
one hop:

    <start> <end> <traceId> <serviceName> <prevSpan>-><newSpan>

The tool parses the lines into `Request`s and cuts them into chunks of 100.
It groups each chunk by trace id and merges the per-chunk maps. It picks
the longest trace and writes one document per trace id. A document is a
`Trace(traceId, root)`, where `root` is a `Root(service, start, end, span,
calls)` tree. The tree starts at the hop whose previous span is `"null"`.
A hop's calls are the hops whose previous span is its new span, ordered by
start time.

Modules, in the order of the program's data flow:

| module | file | models |
|---|---|---|
| `Wrappers` | `wrappers.dfy` | `Option` and `Result` |
| `Requests` | `requests.dfy` | the `Request` record, its `equals` key and its `hashCode` in 32-bit arithmetic |
| `LineParser` | `parse.dfy` | `parseLine` on the well-formed line grammar |
| `Chunking` | `chunking.dfy` | the input loop's counter, pending chunk and chunk list |
| `Grouping` | `grouping.dfy` | `groupByTraceId`, `mergeTraceIdGroups`, and the merge theorem |
| `SpanSearch` | `spansearch.dfy` | `findRoot`, and `findChildren` as a filter plus a stable sort by start time |
| `Tree` | `tree.dfy` | `requestToRoot`, the recursive `makeRoot`, and `traceMapToTraceObj` |
| `TreeIter` | `tree_iter.dfy` | the breadth-first `makeRootIter` as written, and a corrected breadth-first builder |
| `Lockstep` | `lockstep.dfy` | when `makeRootIter` builds the same tree as `makeRoot` |
| `Findings` | `findings.dfy` | a concrete trace on which `makeRootIter` and `makeRoot` differ |
| `SharedSpans` | `shared_spans.dfy` | a trace with unique keys on which they still differ |
| `Starter` | `starter.dfy` | the driver: chunk, group, merge, longest trace, one document per trace id |

Modelling choices:

- **Timestamps.** A timestamp is an `Option<int>` instant. `None` is the
  `null` that the date conversion returns for a date token it cannot read.
- **Errors.** Every exception that ends the Java run is a `BuildError`:
  - `NoRoot`: `findAny().get()` found no root hop.
  - `AbsentTimestamp`: a `null` timestamp reached the sort comparator or the
    formatter.
  - `OutOfFuel`: the recursion or the work queue never ends.
- **Fuel.** Both tree builders take a fuel argument. `makeRoot` gets a
  depth bound; `traceMapToTraceObj` uses the trace's hop count, which any
  acyclic hop set respects. `makeRootIter` gets a bound on loop iterations.
  Running out of fuel is how the model shows the source's endless recursion
  on cyclic span edges.
- **Shared nodes.** `makeRootIter` mutates shared `Root` objects. The model
  keeps them in an arena of slots whose calls name other slots by number.
  The finished tree is read off the arena.

## Model

| member | source | states |
|---|---|---|
| Requests.SameRequestIffSameKey | src/main/java/BO/Request.java:87-95 | two requests are equal exactly when their trace id, service name and previous span agree |
| Requests.SameRequestIsEquivalence | src/main/java/BO/Request.java:87-95 | `equals` is reflexive, symmetric and transitive, and changing the timestamps or the new span keeps a request equal to itself |
| Requests.Wrap32 | src/main/java/BO/Request.java:97-100 | the result is a Java `int` and is congruent to the unbounded value modulo 2^32 (the hash's overflow arithmetic) |
| Requests.HashCode | src/main/java/BO/Request.java:97-100 | `hashCode` is a 32-bit value computed from the three key fields only |
| Requests.HashCodeRespectsEquals | src/main/java/BO/Request.java:87-100 | requests that are equal have equal hash codes |
| LineParser.SplitJoin | src/main/java/BO/Request.java:65 | tokens without spaces, joined by single spaces, split back into the same tokens |
| LineParser.JoinSplit | src/main/java/BO/Request.java:65 | splitting a line at spaces and joining the pieces gives back the line |
| LineParser.SplitArrow | src/main/java/BO/Utils.java:21 | a successful split of the span token gives two alphanumeric spans that, joined by `->`, form the token |
| LineParser.SplitArrowOfPair | src/main/java/BO/Utils.java:21 | two alphanumeric spans joined by `->` split back into the same two spans |
| LineParser.ParseLine | src/main/java/BO/Request.java:61-85 | every parsed request has alphanumeric trace id, service name and spans |
| LineParser.ParseLogLine | src/main/java/BO/Request.java:61-79 | a well-formed line yields the request whose trace id, service and spans are its third, fourth and two halves of its fifth token, with the date conversion's results as timestamps |
| LineParser.UnreadableDateStillParses | src/main/java/BO/Request.java:72-73 | a date token that matches the pattern but that the conversion rejects still yields a request, with an absent start time |
| LineParser.ParseLineSound | src/main/java/BO/Request.java:71-84 | parsing succeeds only on a line that is exactly the log line of the parsed fields around two date tokens, so the result is empty whenever the pattern does not match |
| Chunking.Parsed | src/main/java/app/Starter.java:34-47 | the successfully parsed requests are at most as many as the lines |
| Chunking.ParsedMembers | src/main/java/app/Starter.java:34-47 | a request is kept exactly when some line parsed to it |
| Chunking.ReadAll | src/main/java/app/Starter.java:27-47 | after the loop the counter is the line count modulo 100 plus one, and the flushed chunks followed by the pending chunk are exactly the parsed requests in line order |
| Chunking.CutChunks | src/main/java/app/Starter.java:34-50 | the chunk list is never empty, and its concatenation is exactly the parsed requests in line order (malformed lines dropped) |
| Chunking.CutChunksSnoc | src/main/java/app/Starter.java:36-46 | one more line appends its request to the last chunk, and a new empty chunk opens exactly when the line is the 100th since the last reset and it parsed; a failed parse there resets the counter without flushing |
| Chunking.AllParsedChunkSizes | src/main/java/app/Starter.java:27-50 | when every line parses, there are (lines / 100) + 1 chunks, every chunk but the last holds exactly 100 requests, and the last holds lines mod 100 |
| Grouping.WithTrace | src/main/java/BO/Utils.java:54-57 | the reference for one group: it holds only hops of the given trace, every such hop of the input, and nothing else |
| Grouping.GroupByTraceId | src/main/java/BO/Utils.java:54-57 | a trace id is a key exactly when some hop carries it, and its list is that trace's hops in input order |
| Grouping.LookupGroup | src/main/java/BO/Utils.java:54-57 | looking up any trace id, present or not, gives that trace's hops in input order |
| Grouping.GroupsAreHomogeneous | src/main/java/BO/Utils.java:54-57 | every group is non-empty and holds only input hops whose trace id is the group's key |
| Grouping.WithTraceAppend | src/main/java/BO/Utils.java:56 | grouping keeps relative order: the group of a concatenation is the concatenation of the groups |
| Grouping.GroupSizesSum | src/main/java/BO/Utils.java:54-57 | the group sizes sum to the number of input hops |
| Grouping.TotalSizeUpdate | src/main/java/BO/Utils.java:54-57 | replacing one key's list changes the total size by the difference of the two lists' lengths |
| Grouping.CombineGroupings | src/main/java/BO/Utils.java:64-76 | merging the groupings of two runs of hops gives the grouping of the two runs joined |
| Grouping.CombineAssociative | src/main/java/BO/Utils.java:68-74 | the accumulator and combiner give the same map however partial results are joined, as a parallel stream may join them |
| Grouping.CombineUnit | src/main/java/BO/Utils.java:68-70 | merging with the supplier's empty result changes nothing |
| Grouping.MergeTraceIdGroups | src/main/java/BO/Utils.java:64-76 | the merged keys are the union of all maps' keys, and each key's list is the concatenation of that key's lists in map order |
| Grouping.KeysOfSnoc | src/main/java/BO/Utils.java:64-76 | the key union of a list of maps is the union for all but the last map plus the last map's keys |
| Grouping.CollectSnoc | src/main/java/BO/Utils.java:64-76 | a key's merged list is its merged list over all but the last map, then its list in the last map |
| Grouping.GroupEach | src/main/java/app/Starter.java:72-77 | there is one map per chunk, in chunk order; the i-th map holds a trace id exactly when the i-th chunk has a hop of that trace, and then that chunk's hops of the trace in order |
| Grouping.WithTraceFlatten | src/main/java/BO/Utils.java:54-57 | a trace's hops in a concatenation of chunks are the concatenation of its hops in each chunk |
| Grouping.GroupsExt | src/main/java/BO/Utils.java:64-76 | two maps with only non-empty lists are equal when every lookup agrees |
| Grouping.MergedLookup | src/main/java/BO/Utils.java:64-76 | looking up a key in the merge of the chunks' groupings gives that trace's hops across all chunks in order |
| Grouping.MergedNonEmpty | src/main/java/BO/Utils.java:64-76 | when no input map holds an empty list, no merged list is empty |
| Grouping.MergeOfChunkGroups | src/main/java/app/Starter.java:72-80 | merging the groupings of all chunks equals grouping all their hops at once |
| SpanSearch.FindRoot | src/main/java/BO/Utils.java:145-147 | the result is a hop of the list whose previous span is "null", and it fails (with `NoRoot`) exactly when no hop has that previous span |
| SpanSearch.CandidatesMembers | src/main/java/BO/Utils.java:157-159 | the filter keeps exactly the hops whose previous span is the given span |
| SpanSearch.Insert | src/main/java/BO/Utils.java:160 | inserting into a sorted list adds exactly the one element, as a multiset |
| SpanSearch.InsertSorted | src/main/java/BO/Utils.java:160 | inserting into a list sorted by start time keeps it sorted |
| SpanSearch.InsertStable | src/main/java/BO/Utils.java:160 | inserting places the new hop after every hop with the same start time, so equal keys keep their order |
| SpanSearch.SortByStart | src/main/java/BO/Utils.java:160 | sorting permutes the list |
| SpanSearch.SortByStartSorted | src/main/java/BO/Utils.java:160 | the sorted list is ascending by start time |
| SpanSearch.SortByStartStable | src/main/java/BO/Utils.java:160 | the sort is stable: for every start time, the hops with that start keep their input order |
| SpanSearch.FindChildren | src/main/java/BO/Utils.java:156-163 | `findChildren` throws (with `AbsentTimestamp`) exactly when there are two or more candidates and one has no start time |
| SpanSearch.FindChildrenSpec | src/main/java/BO/Utils.java:156-163 | the children are a permutation of the hops whose previous span is the parent's new span, they are exactly those hops, sorted ascending by start time, with ties in input order |
| Tree.Size | src/main/java/BO/Utils.java:84-98 | every tree has at least one node |
| Tree.RequestToRoot | src/main/java/BO/Utils.java:105-112 | a hop becomes a leaf showing its service, times and new span exactly when both timestamps are present |
| Tree.MakeRoot | src/main/java/BO/Utils.java:84-98 | a built node shows its hop (service, times, new span), its hop's children were found, and building never fails with `NoRoot` |
| Tree.MakeCalls | src/main/java/BO/Utils.java:91-95 | the built calls are as many as the children |
| Tree.BuiltFromChildren | src/main/java/BO/Utils.java:84-98 | a timed hop whose children all build gets a tree |
| Tree.MakeCallsOk | src/main/java/BO/Utils.java:91-95 | the calls build exactly when every child's tree builds |
| Tree.MakeRootStep | src/main/java/BO/Utils.java:84-98 | the node of a timed hop carries the hop's fields and, as calls, the children's trees |
| Tree.MakeCallsStep | src/main/java/BO/Utils.java:91-95 | the calls are the first child's tree followed by the trees of the other children |
| Tree.MakeRootCalls | src/main/java/BO/Utils.java:84-98 | a built node's calls are exactly the trees of its hop's children, one level shallower |
| Tree.MakeCallsElems | src/main/java/BO/Utils.java:91-95 | the j-th call is the tree of the j-th child |
| Tree.MakeRootChildren | src/main/java/BO/Utils.java:84-98 | a node's calls correspond one to one, and in order, to its hop's children |
| Tree.MakeRootMonotone | src/main/java/BO/Utils.java:84-98 | once a tree builds at some depth, any greater depth builds the same tree |
| Tree.MakeCallsMonotone | src/main/java/BO/Utils.java:91-95 | once the calls build at some depth, any greater depth builds the same calls |
| Tree.ChildIsFound | src/main/java/BO/Utils.java:156-163 | every hop below the parent's new span appears among the found children |
| Tree.ChildFails | src/main/java/BO/Utils.java:91-95 | if one child's tree cannot be built, the parent's cannot either |
| Tree.CycleNeverFinishes | src/main/java/BO/Utils.java:84-98 | on a cycle of span edges, building from any hop of the cycle fails at every depth |
| Tree.SelfEdgeNeverFinishes | src/main/java/BO/Utils.java:84-98 | a hop `x->x` never gets a tree, whatever the depth |
| Tree.TimedChildren | src/main/java/BO/Utils.java:156-163 | when every hop is timed, finding children succeeds and returns only hops below the parent |
| Tree.RankedFinishes | src/main/java/BO/Utils.java:84-98 | on acyclic edges (a rank that falls along every edge) with all hops timed, building succeeds at any depth above the hop's rank |
| Tree.RankedKids | src/main/java/BO/Utils.java:84-98 | every child of a hop has a smaller rank than the hop |
| Tree.RankedCallsFinish | src/main/java/BO/Utils.java:91-95 | on acyclic timed hops, the calls build when every child's rank is below the depth |
| Tree.TraceMapToTraceObj | src/main/java/BO/Utils.java:171-181 | a one-hop trace becomes a leaf from that hop, named by the given key, with no root check, and fails only if the hop lacks a timestamp; otherwise the document is named by a root hop's trace id and holds that root's tree, it fails with `NoRoot` exactly when no hop has previous span "null", and any other failure is the failure of `makeRoot` on some root hop, so a trace whose root hops all build yields its document |
| Tree.RankedTraceFinishes | src/main/java/BO/Utils.java:171-181 | an acyclic, fully timed trace with a root hop always yields its document |
| TreeIter.Unfold | src/main/java/BO/Utils.java:137 | the tree read off a slot shows the slot's hop and has as many calls as the slot |
| TreeIter.UnfoldAll | src/main/java/BO/Utils.java:137 | reading off a slot's calls gives one tree per call |
| TreeIter.UnfoldAllElems | src/main/java/BO/Utils.java:137 | the j-th tree read off the calls is the tree of the j-th called slot |
| TreeIter.Attach | src/main/java/BO/Utils.java:128-135 | attaching children appends one new leaf slot per child, in order, to the end of the parent's calls, and leaves every other slot unchanged |
| TreeIter.PutAll | src/main/java/BO/Utils.java:133 | `putIfAbsent` for each child keeps every existing entry and gives every child's key an entry |
| TreeIter.PutAllNew | src/main/java/BO/Utils.java:133 | every entry that `putIfAbsent` adds names the node of a child with that key |
| TreeIter.PutAllFresh | src/main/java/BO/Utils.java:133 | when the children's keys are new and pairwise different, the j-th child's key names the j-th new node |
| TreeIter.PopWritten | src/main/java/BO/Utils.java:127-135 | one iteration dequeues the head hop, queues its children behind the rest, keeps every map entry, and fails only on an absent timestamp |
| TreeIter.RunWritten | src/main/java/BO/Utils.java:126-136 | the loop ends with an empty queue and keeps every map entry |
| TreeIter.RunWrittenMonotone | src/main/java/BO/Utils.java:126-136 | once the loop has emptied its queue within some bound, a larger bound gives the same final state |
| TreeIter.MakeRootIterMonotone | src/main/java/BO/Utils.java:120-138 | a tree that `makeRootIter` finishes within some iteration bound is also its result with one more iteration |
| TreeIter.MakeRootIterUpward | src/main/java/BO/Utils.java:120-138 | a tree that `makeRootIter` finishes within some iteration bound is its result for every larger bound |
| TreeIter.MakeRootIter | src/main/java/BO/Utils.java:120-138 | the result shows the root hop, and a root hop without timestamps fails with `AbsentTimestamp` |
| TreeIter.ExpandStrict | src/main/java/BO/Utils.java:127-135 | the corrected iteration keeps the arena well formed and only appends nodes |
| TreeIter.RunStrict | src/main/java/BO/Utils.java:126-136 | the corrected loop keeps the arena well formed and only appends nodes |
| TreeIter.StrictIter | src/main/java/BO/Utils.java:120-138 | the corrected builder's result shows the root hop, and a root hop without timestamps fails |
| TreeIter.StrictIterMatchesMakeRoot | src/main/java/BO/Utils.java:84-138 | whenever `makeRoot` builds a tree, the corrected breadth-first builder, given as many iterations as the tree has nodes, builds the same tree |
| Lockstep.DifferentKeys | src/main/java/BO/Request.java:87-95 | in a trace with pairwise different keys, different hops are unequal under `equals` |
| Lockstep.CandidatesUnique | src/main/java/BO/Utils.java:157-159 | filtering a trace with pairwise different keys keeps the keys pairwise different |
| Lockstep.ChildrenUnique | src/main/java/BO/Utils.java:156-163 | the children of a hop in such a trace have pairwise different keys and lie below the hop |
| Lockstep.PopMatchesExpand | src/main/java/BO/Utils.java:127-135 | in such a trace, one iteration of `makeRootIter` and of the corrected loop attach the same nodes |
| Lockstep.MakeRootIterMatchesStrict | src/main/java/BO/Utils.java:120-138 | when keys and new spans are unique, the root hop is in the trace, and no hop opens the root's previous span, `makeRootIter` equals the corrected builder for every iteration bound |
| Lockstep.MakeRootIterMatchesMakeRoot | src/main/java/BO/Utils.java:84-138 | under the same conditions, whenever `makeRoot` builds a tree, `makeRootIter` with enough iterations builds the same tree |
| Findings.TwinsChildren | src/main/java/BO/Utils.java:156-163 | in the example trace, the root has two "b" children in start order and only the second has a child |
| Findings.TwinsMakeRoot | src/main/java/BO/Utils.java:84-98 | `makeRoot` nests the "c" call under the second "b" call |
| Findings.TwinsMakeRootIter | src/main/java/BO/Utils.java:120-138 | `makeRootIter` nests the "c" call under the first "b" call |
| Findings.TwinsAnyDepth | src/main/java/BO/Utils.java:84-98 | any depth from three up gives `makeRoot` the same tree for the example |
| Findings.TwinsAnyBound | src/main/java/BO/Utils.java:126-136 | any iteration bound from four up gives `makeRootIter` the same tree for the example |
| Findings.TwinsDisagree | src/main/java/BO/Utils.java:120-138 | on the example, `makeRootIter` with any iteration bound from four up and `makeRoot` at any depth from three up build different trees |
| Findings.TwinsStrict | src/main/java/BO/Utils.java:120-138 | on the example, the corrected builder with four iterations builds `makeRoot`'s tree |
| SharedSpans.SharedKeys | src/main/java/BO/Request.java:87-95 | the example's hops have pairwise different `equals` keys, but two of them open the same span |
| SharedSpans.ChildrenOfA | src/main/java/BO/Utils.java:156-163 | the root's children are the two hops that open the shared span, in start order |
| SharedSpans.ChildrenOfX | src/main/java/BO/Utils.java:156-163 | both hops that open the shared span have the same single child |
| SharedSpans.SharedMakeRoot | src/main/java/BO/Utils.java:84-98 | `makeRoot` copies the subtree below the shared span under both of its parents |
| SharedSpans.Pop5 | src/main/java/BO/Utils.java:127-135 | the second expansion of the shared hop attaches its child to the node first made for that hop, not to its own node |
| SharedSpans.SharedMakeRootIter | src/main/java/BO/Utils.java:120-138 | `makeRootIter` puts both expansions' children under the first copy and none under the second |
| SharedSpans.SharedAnyDepth | src/main/java/BO/Utils.java:84-98 | any depth from four up gives `makeRoot` the same tree for the example |
| SharedSpans.SharedAnyBound | src/main/java/BO/Utils.java:126-136 | any iteration bound from seven up gives `makeRootIter` the same tree for the example |
| SharedSpans.UniqueKeysNotEnough | src/main/java/BO/Utils.java:84-138 | with pairwise different keys, `makeRoot` at any depth from four up and `makeRootIter` with any iteration bound from seven up still build different trees |
| Starter.LongestTraceId | src/main/java/app/Starter.java:82-86 | the pick fails exactly on an empty map; otherwise it is a key whose list is at least as long as every other key's |
| Starter.LongestIsUpToTies | src/main/java/app/Starter.java:82-86 | any two longest keys have lists of the same length, so only ties depend on iteration order |
| Starter.WriteAll | src/main/java/app/Starter.java:96-102 | the write loop fails exactly when some entry's document fails; otherwise it writes one document per key, each key once |
| Starter.WriteDocuments | src/main/java/app/Starter.java:96-102 | the loop fails exactly when some trace's document cannot be built; otherwise every key has its document, there are as many documents as keys, and for a grouping by trace id each document names a different key |
| Starter.DocumentNamesItsTrace | src/main/java/BO/Utils.java:171-181 | in a grouping by trace id, a key's document carries that key as its trace id |
| Starter.GroupingKeyedByTrace | src/main/java/BO/Utils.java:54-57 | every list of a grouping holds only hops of its key's trace |
| Starter.UntimedTraceNotReported | src/main/java/BO/Utils.java:172-175 | a one-hop trace without a start time makes the run fail with a trace error, never a report |
| Starter.Summarize | src/main/java/app/Starter.java:80-102 | on the merged map the run fails with `NoTraces` exactly when it is empty, and reports exactly when every trace's document builds; a report names a longest key and holds, for every key, its `traceMapToTraceObj` document, one per key |
| Starter.GroupChunks | src/main/java/app/Starter.java:34-80 | cutting, grouping each chunk and merging gives the grouping of all parsed hops, wherever the chunks were cut |
| Starter.Process | src/main/java/app/Starter.java:34-102 | the whole run depends only on the parsed hops. It fails with `NoTraces` exactly when no line parses, and reports exactly when every trace of the grouping of all parsed hops builds. A report holds each trace's `traceMapToTraceObj` document, one per trace id, each id named once |
| Starter.NoHopsNoTraces | src/main/java/BO/Utils.java:54-57 | grouping yields no trace exactly when there are no hops |

## Left out

- Reading the input file, writing the output file, command-line arguments
  and console output are left out. The lines' parse results are the input;
  the documents are the output.
- The thread pool and `CompletableFuture`s are modelled as a sequential map
  over the chunks. `join` keeps chunk order. The parallel stream in
  `mergeTraceIdGroups` is ordered and its collector is not concurrent, so
  the merge is a left-to-right fold.
- `stringToDateUTC` (`SimpleDateFormat` parsing) is the function parameter
  `stamp`. `None` stands for the `null` it returns.
- `timeStampToStr` (formatting) is left out: nodes carry the instant itself.
  Formatting a `null` timestamp throws, and that is kept as `AbsentTimestamp`.
- `traceToJsonString` (Jackson serialisation) is left out. So is `toString`.
- The average trace size is left out; it is a `Double` computation.
- `Root` and `Trace` are plain datatypes. Their Java classes are not part of
  this model.
- LineParser.ParseLine: only the well-formed grammar is accepted. That
  grammar is five tokens separated by single spaces: two date tokens, two
  alphanumeric ids, and `prev->new`. Java's `find()` also matches a line
  with the pattern embedded in other text; the model returns `None` for
  such lines.
- Strings are sequences of `char`. Java's UTF-16 code units are not
  modelled separately.
- Tree.MakeRoot: the depth bound stands in for the unbounded recursion. A
  cyclic span relation gives `OutOfFuel` at every depth, where the source
  overflows the stack. The bound does not model the stack size.
- TreeIter.MakeRootIter: the iteration bound stands in for the unbounded
  loop. Java's `requestRootMap.get(popped)` is always the model's map
  entry for the popped hop's key.
- Lockstep.MakeRootIterMatchesMakeRoot: the two builders agree only under a
  stronger condition than unique `(traceId, serviceName, prevSpan)` keys.
  New spans must also be unique, and no hop may open the root's previous
  span. `SharedSpans.UniqueKeysNotEnough` shows that unique keys alone are
  not enough. Its trace has hops `a: null->s1`, `b: s1->x`, `c: s1->x`,
  `d: x->y` and `e: y->z`.
  - `makeRoot` builds `a[b[d[e]], c[d[e]]]`.
  - `makeRootIter` attaches both expansions of `d` to the first node made
    for `d`, giving `a[b[d[e, e]], c[d]]`.
- Starter.LongestTraceId: a `HashMap`'s iteration order is unspecified. The
  loop visits the keys in any order and keeps the first maximal one, as
  `Collections.max` does, so which of several tied keys is picked is not
  determined.
- Starter.WriteDocuments: the documents are collected in a sequence. The
  JSON line written for each is not modelled.

## Findings

| source | as written | input that shows it | evidently intended | confidence | as-written member | corrected member |
|---|---|---|---|---|---|---|
| src/main/java/BO/Utils.java:120-137 | `requestRootMap` is keyed by `Request.equals`, which compares only trace id, service name and previous span. Two sibling calls to the same service share one map entry. Children of the second call are attached to the node of the first. | trace `t` with hops `a: null->s1` (start 1), `b: s1->s2` (start 2), `b: s1->s3` (start 4), `c: s3->s4` (start 6). `makeRootIter` gives `a[b[c], b[]]`; `makeRoot` gives `a[b[], b[c]]` | each dequeued hop attaches its children to its own node, so the iterative builder returns the same tree as `makeRoot` | high; not executed | Findings.TwinsDisagree | TreeIter.StrictIterMatchesMakeRoot |
| src/main/java/BO/Utils.java:123-134 | A hop that is a child of two parents, through two hops that open the same span, is queued twice. Each expansion creates new nodes for its children. Both expansions attach them to the node the map stored first, because `requestRootMap.get(popped)` returns that node. | hops `a: null->s1`, `b: s1->x`, `c: s1->x`, `d: x->y`, `e: y->z`, all with different keys. `makeRootIter` gives `a[b[d[e, e]], c[d]]`; `makeRoot` gives `a[b[d[e]], c[d[e]]]` | every node gets the children of its own hop, as in `makeRoot` | high; not executed | SharedSpans.UniqueKeysNotEnough | TreeIter.StrictIterMatchesMakeRoot |

The corrected builder, `TreeIter.StrictIter`, keys nodes by identity. It
gives `makeRoot`'s tree whenever `makeRoot` succeeds.

The driver never calls `makeRootIter`: `traceMapToTraceObj` uses the
recursive `makeRoot`. The written documents are therefore not affected.
