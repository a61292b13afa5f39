# A verified model of lighttpd's core algorithms

This project models, in Dafny 4.11, the parts of the lighttpd web server that carry real
algorithms, and proves what they are for. Every operation that the server performs by changing
things step by step is a method with loops or a class with fields here, proved against a simple
specification: a set of derivations, an insertion sort, a map, a byte string, a stack of path
components, a decoder written from the standard. `dafny verify dfyconfig.toml` checks all of it.

What is modelled, file by file:

- **Lemon, the parser generator** (`ActionTable`, `MergeSort`, `ConflictResolution`, `Compression`,
  `ParserTables`, `ParserGenerator`, `BitSets`, `FirstSets`, `FollowSets`). From a state's raw
  action list to the packed tables: for every state and symbol what the driver's lookup decodes to
  is the shift, reduction or accept that precedence and associativity call for, else the default,
  which is the error or the most frequent reduction. FIRST sets equal derivability, follow sets are
  the least solution, and the bottom-up merge sort on linked nodes is a stable sort.
- **The condition cache** (`CondCache`). When the two-level cache of nested if/else conditions
  agrees with plain recursive evaluation over all runs of sweeps, changes and resets, and when it
  does not: an equivalence over all configurations.
- **Byte queues and chunked output** (`ChunkList`, `ChunkQueue`, `HttpChunk`). Queues are linked
  chunks with a tail pointer and a list of recycled chunks, and stand for byte strings; stealing,
  splicing, temporary files, compaction and counters keep both views, and it is stated which bytes
  are kept in memory, in which file, and in which chunk. A decoder for section 4.1
  of RFC 7230 reads back exactly what was appended.
- **Path normalisation** (`PathSimplify`). The in-place scan computes the component-stack normal
  form, which is also what section 5.2.4 of RFC 3986 gives on the path with its slashes merged.
- **The keyed array** (`SortedArray`). Entries plus a sorted permutation refine a map keyed by the
  folded key.
- **Gateway backends** (`GatewayPool`, `ProcLinks`, `Balancer`). The process pool keeps its two
  doubly linked lists, its ids and its counters right over all runs, every run ends in the state
  that its events call for, and a process that died is not started again in the same second; round robin is fair; hash elections are stable.
- **Digests and base64** (`Digest`, `Base64`). Updates can be split anywhere, padding is the
  standard's, and encoder and decoder are inverse both ways.
- **Keep-alive** (`KeepAlive`). A connection is used again only if the body was read in full.
- `Values`, `Seqs` and `Chains` hold what several modules use: options, bytes, facts about
  sequences that proofs appeal to by name, and linked lists as values.

Results worth knowing, because the code does not quite keep the obvious property:

- `config_cond_cache_reset_item` clears `local_result` by array position but results by context
  index. Positions and indices differ when an else block contains a nested conditional, because
  the configuration parser takes else blocks out and inserts them again; then a reset can leave a
  stale local result (`NestedElseFails`, `StaleAfterReset`). It also follows `next` and the first
  branches of chains only. A condition that is opened again and given another else branch loses
  its `next` to the old one; then a reset leaves a stale result, and two branches of a chain apply
  at once (`ReopenedFails`, `TwoBranchesApply`). And while an else block is open, its inner
  conditions are filed under a key that only names the block around it, so the same condition in
  two else blocks is one block, and a branch added behind it lies in another block than it; then a
  reset of what encloses that branch does not reach it, and it stays skipped although it applies
  (`StrayFails`, `SkippedForGood`).
  `RunsExactIff` has the exact condition, for all shapes of configuration that the parser can
  build: all runs are exact if and only if every block with a test that can apply at all stands at
  the position of a block on the same field (`LocalsFit`), and whenever an outcome changes with
  some fields the resets of these fields reach the block (`Reached`). Where every branch lies in
  the same block as the one before it (`Regular`) and no block is the `next` of two others
  (`Tidy`), both conditions can be read off positions and links (`RunsExactShows`);
  `CrossedRight` has a configuration that is not tidy and whose runs are exact. Else blocks in
  each other's positions do no harm (`TwoElsesRight`).
- `msort` with its 30 bins loses nodes from 2^30 nodes on; `KeepsAllNodes` is an equivalence, and
  what is generated is stated for the actions that are kept.
- An empty file range appended to a chunked response is framed as a last chunk and ends the
  stream for the client; `ClosedStream` says the payload is recovered iff no piece was empty.
- With an unsigned long of 32 bits the hash election can pick wrongly; `NarrowFails` has an
  input, `ElectionExact` says exactly when.
- The digests' loop counter has 32 bits and wraps on some inputs close to 2^32 bytes, such as the one
  of `NearTheEnd`; `FitsExact` says on which.

## Model

| member | source | states |
|---|---|---|
| `ActionTable.ActTab.Action` | src/lemon.c:464-488 | appends to the pending row and keeps its least lookahead with its action and its greatest lookahead |
| `ActionTable.ActTab.Grow` | src/lemon.c:505-519 | reserves the worst case and leaves the table as it was |
| `ActionTable.ActTab.Insert` | src/lemon.c:497-572 | every row ever placed, this one included, answers through its own offset with its own action for its symbols and misses for all others, after any number of insertions; the row is at the first index that will do |
| `ActionTable.FindIndex` | src/lemon.c:528-560 | the search ends at the first index that will do: where the row's slots are free and nobody else answers, or where exactly this row is already; there the row is at home |
| `ActionTable.SlotsFree` | src/lemon.c:530-535 | true iff every slot the row needs is free and not negative |
| `ActionTable.NoneAnswers` | src/lemon.c:536-541 | true iff no occupied slot would answer through this offset and no free slot below the offset has a lookahead that leads back to it |
| `ActionTable.SameAsPrior` | src/lemon.c:544-550 | true iff every entry of the row stands where the offset leads |
| `ActionTable.CountAnswering` | src/lemon.c:551-555 | counts exactly the occupied slots that answer through the offset |
| `ActionTable.WriteRow` | src/lemon.c:562-566 | writes the row's entries at its slots and nothing else, and extends the used part |
| `ActionTable.Place` | src/lemon.c:521-572 | placing a row keeps all earlier placements served and serves the new one |
| `ActionTable.ServesWhenAlone` | src/lemon.c:528-541 | a row whose slots are the only ones answering through an offset is served exactly: hits and misses |
| `ActionTable.PriorRowIsExact` | src/lemon.c:542-559 | equal entries and an equal count of answering slots mean the offset serves exactly this row, so it may be shared |
| `ActionTable.ExtendsKeepsRow` | src/lemon.c:561-566 | filling free slots so that only the new offset gains answers leaves every other served row served |
| `ActionTable.PlacementKeepsAll` | src/lemon.c:521-572 | a placement at home keeps every earlier row served, also one that gets the same offset |
| `ActionTable.SameOffsetSameRow` | src/lemon.c:542-559 | a reused offset answers for both rows alike |
| `ActionTable.Fits` | src/lemon.c:529-559 | the two tests of one index: true iff the row's slots are free and nobody else answers, or exactly this row is there; then the row is at home |
| `MergeSort.Merge` | src/lemon.c:1520-1556 | relinks two sorted lists of nodes into the merge of the two, the second, older list's nodes first among equals |
| `MergeSort.MergeIsSort` | src/lemon.c:1520-1556 | merging the sorts of two segments, newer first, is the insertion sort of the older followed by the newer |
| `MergeSort.LoBelow` | src/lemon.c:1580-1589 | the index ranges of the runs: the range of bin i is empty or has exactly 2^i nodes, and lies before those of the lower bins |
| `MergeSort.AddNode` | src/lemon.c:1581-1588 | taking in one node keeps in every bin the sorted run that the binary representation of the count gives it |
| `MergeSort.Carry` | src/lemon.c:1584-1588 | the carry loop merges full bins until it finds an empty one, as in binary addition |
| `MergeSort.Gather` | src/lemon.c:1590-1592 | merging the bins from the lowest up gives the sort of all nodes they hold |
| `MergeSort.MSort` | src/lemon.c:1572-1593 | the result list is the insertion sort of the input list, without the nodes that the last bin dropped |
| `MergeSort.KeepsAllNodes` | src/lemon.c:1571-1593 | with 30 bins no node is dropped iff there are fewer than 2^30, and then the result is the sort of the whole list |
| `MergeSort.ISortSorted` | src/lemon.c:1478-1493 | the specification sort is ascending under every total preorder |
| `MergeSort.ISortStable` | src/lemon.c:1478-1493 | and stable: nodes that tie come out in their input order |
| `MergeSort.ISortElems` | src/lemon.c:1478-1493 | and a permutation of its input |
| `MergeSort.MergeBin` | src/lemon.c:1585-1586 | merging a bin into the carried run empties the bin and touches no other |
| `MergeSort.ISortData` | src/lemon.c:1478-1493 | sorting nodes by their data and sorting the data is the same |
| `MergeSort.SortWith` | src/lemon.c:1572-1593 | a list of values put into nodes, sorted by `MSort` and read off: the insertion sort of the values that are not dropped |
| `MergeSort.SortList` | src/lemon.c:1571-1593 | with 30 bins: the insertion sort of what is kept, which is everything below 2^30 values |
| `MergeSort.LostBound` | src/lemon.c:1571-1593 | what comes out of the sort has fewer than 2^listsize nodes, so it can be sorted again without loss |
| `ConflictResolution.ResolveConflict` | src/lemon.c:996-1051 | between two live actions on a symbol exactly the loser by precedence and associativity is marked dead, with the mark that says whether a shift or a reduction lost, and a conflict is counted iff precedence does not decide |
| `ConflictResolution.ResolveRow` | src/lemon.c:960-964 | one inner loop leaves alive the winner so far among the actions seen on the symbol |
| `ConflictResolution.ResolveAll` | src/lemon.c:953-966 | after the double loop each symbol's group has one live action, the winner of the left-to-right contest, every other action has the mark of how it lost, and the conflict count is the number of actions marked as conflicts |
| `ConflictResolution.ResolvedMeaning` | src/lemon.c:953-966 | at most one live action per symbol, and it is the champion of the symbol's actions in list order |
| `ConflictResolution.ResolvedUnique` | src/lemon.c:953-966 | no two live actions share a symbol |
| `ConflictResolution.WinnerLaw` | src/lemon.c:1003-1046 | the winner of a sorted group in terms of precedences alone: the first action if it has none; else one of the greatest precedence, the first of these, except that the shift of a left-associative symbol gives way to the first reduction |
| `ConflictResolution.ChampionChosen` | src/lemon.c:953-966 | the survivor is what the unsorted list calls for: the shift or accept, or else the reduction by the least rule, if it has no precedence; otherwise an action of the greatest precedence, a shift over reductions iff its symbol is not left-associative, and of reductions the least rule |
| `ConflictResolution.ChosenUnique` | src/lemon.c:953-966 | no more than one action of a raw list is called for on a symbol |
| `ConflictResolution.LostLaw` | src/lemon.c:1003-1046 | the action at a place of a sorted group becomes a conflict iff it or the first one has no precedence, or it ties with the greatest precedence so far and no shift's associativity breaks the tie |
| `ConflictResolution.ConflictsAre` | src/lemon.c:953-966 | so exactly these are marked in the resolved list |
| `ConflictResolution.SortedRawList` | src/lemon.c:366-388 | sorting a raw list groups the actions of each symbol, shifts before reductions |
| `ConflictResolution.Settle` | src/lemon.c:959-965 | settles two actions of the list, leaves all others alone, and counts a new conflict mark |
| `ConflictResolution.SortActions` | src/lemon.c:382-388 | the sort of an action list by the list merge sort |
| `Compression.CountFrom` | src/lemon.c:3644-3650 | counts the later reductions by the same rule |
| `Compression.MostFrequent` | src/lemon.c:3637-3655 | a rule that at least as many reductions use as any other, the first such in the list, and how many; none iff there is no reduction |
| `Compression.CountSymbols` | src/lemon.c:3644-3650 | in a list with one live action per symbol the count of a rule is the number of symbols it is reduced on |
| `Compression.SetDefault` | src/lemon.c:3662-3670 | the first reduction by the rule becomes the default, the others vanish, nothing else changes |
| `Compression.FoldedMeaning` | src/lemon.c:3662-3670 | folding changes only symbols reduced by the default rule and adds the default for symbols without an action |
| `Compression.SortKeepsMeaning` | src/lemon.c:3671-3671 | re-sorting the list changes no symbol's live action |
| `Compression.CompressState` | src/lemon.c:3626-3673 | a state is compressed by a most frequent rule and sorted again, or left alone if no rule occurs twice; a list of fewer than 2^30 actions loses none in the sort |
| `ParserTables.DecodeComputed` | src/lemon.c:2790-2803 | the action number decodes to the action it was computed from, so distinct actions have distinct numbers |
| `ParserTables.DecodeSpecial` | src/lempar.c:59-63 | the driver takes exactly one number for an error, that of a state without a default, and one for nothing |
| `ParserTables.CollectRow` | src/lemon.c:3348-3368 | the pending row gets exactly the state's live actions on terminals, or on nonterminals |
| `ParserTables.RowMeaning` | src/lemon.c:3348-3368 | looking a symbol up in the row is looking it up in the list |
| `ParserTables.LayOut` | src/lemon.c:3344-3372 | every non-empty half of every state gets an offset that serves its row, the least offset is tracked |
| `ParserTables.ReportTable` | src/lemon.c:3313-3464 | in the emitted tables shift and reduce lookups give each state's meaning for every symbol, and a state without a default decodes to an error |
| `ParserTables.LookupMeaning` | src/lempar.c:328-392 | through offset, packed array and default the driver finds the row's action, else the default |
| `ParserTables.PlaceRow` | src/lemon.c:3348-3357 | one half of a state is placed under the returned offset |
| `ParserGenerator.CompileState` | src/lemon.c:953-966 | sorting, resolving and compressing one state with the list merge sort: what its list then means |
| `ParserGenerator.ResolvedChosen` | src/lemon.c:953-966 | the resolved list answers a symbol with an action iff the raw list calls for it |
| `ParserGenerator.CountIsWon` | src/lemon.c:3637-3655 | a rule is counted once for every symbol on which the raw list calls for a reduction by it |
| `ParserGenerator.DefaultIs` | src/lemon.c:3626-3673 | the default decodes to an error iff no rule is called for on two symbols, else to a reduction by the rule called for on the most symbols, of several the one that is called for on the least symbol |
| `ParserGenerator.AnswerIs` | src/lemon.c:2790-2803 | the answer decodes to the shift, reduction or accept that the raw list calls for, and is the default where there is no action |
| `ParserGenerator.KeptState` | src/lemon.c:1571-1593 | what the first sort keeps of a raw list is a raw list |
| `ParserGenerator.CompressionKeeps` | src/lemon.c:3626-3673 | compression changes the answer only for symbols that had no action or got the default |
| `ParserGenerator.SortSets` | src/lemon.c:3186-3190 | ordering the rows by size is a permutation, so every row is placed |
| `ParserGenerator.Generate` | src/lemon.c:3313-3464 | end to end: for every state and symbol what the driver's lookup decodes to is the shift, reduction or accept that the raw actions kept by the first sort call for; where there is none, and for reductions by it, it is the state's default, which decodes to an error or to a reduction by the favourite rule |
| `BitSets.SetAdd` | src/lemon.c:3710-3716 | adds one element and tells whether it was new |
| `BitSets.SetUnion` | src/lemon.c:3721-3735 | the union, and whether the first set grew |
| `FirstSets.FindLambdas` | src/lemon.c:637-650 | terminates with lambda set for exactly the nonterminals that derive the empty string |
| `FirstSets.FirstPass` | src/lemon.c:653-671 | one pass is sound, grows the sets iff it reports progress, and otherwise all rules are closed |
| `FirstSets.FindFirstSets` | src/lemon.c:623-673 | terminates with firstset equal to exactly the terminals that begin a form derivable from the symbol |
| `FirstSets.LambdaComplete` | src/lemon.c:637-650 | a vector closed under the rules contains every nullable symbol |
| `FirstSets.FirstComplete` | src/lemon.c:652-671 | sets closed under the rules contain every terminal that can begin a derivable form |
| `FirstSets.LambdaPass` | src/lemon.c:639-649 | one pass is sound and grows the set iff it reports progress, else the set is closed under all rules |
| `FirstSets.FirstOfRule` | src/lemon.c:657-669 | one rule's right side adds what it owes: without progress the rule is closed |
| `FollowSets.FindFollowSets` | src/lemon.c:868-902 | terminates with the least solution: a terminal is in a set iff it was initially in the set of some configuration that reaches it by forward links |
| `FollowSets.Propagate` | src/lemon.c:890-898 | a configuration is marked COMPLETE only when its set is contained in all its targets |
| `FollowSets.Pass` | src/lemon.c:886-900 | without progress every configuration is COMPLETE; with it the sets have grown |
| `FollowSets.Push` | src/lemon.c:891-897 | a target that grows is marked INCOMPLETE, so every COMPLETE mark stays true |
| `CondCache.CheckNoCache` | src/configfile-glue.c:277-351 | guard, chain, availability and own test in this order, each through the cache: the answer is that of the evaluation in the given cache, and only such answers are filled in |
| `CondCache.CheckCached` | src/configfile-glue.c:510-540 | the cached check returns the same, remembers it, and changes no later answer |
| `CondCache.CoherentExact` | src/configfile-glue.c:510-540 | through a cache of true outcomes every check returns the recursive evaluation |
| `CondCache.OneBranch` | src/configfile-glue.c:307-329 | at most one branch of an if/else chain is TRUE |
| `CondCache.UnsetSpreads` | src/configfile-glue.c:282-329 | an outcome that is unknown makes unknown what the block encloses, and the next branch if it lies in the same block |
| `CondCache.ClearNode` | src/configfile-glue.c:544-571 | the block is unset, only blocks are cleared that clearing reaches through set ones, and whatever a cleared block leads to is unset |
| `CondCache.ResetItem` | src/configfile-glue.c:578-591 | exactly the results are cleared that are reached through set blocks from a block on the field, and the local results at the positions of such blocks |
| `CondCache.CutOn` | src/configfile-glue.c:544-591 | resets of several fields, one after the other, clear what each would clear alone |
| `CondCache.RunsExactIff` | src/configfile-glue.c:510-617 | for every configuration: in every run each sweep after the resets of all changed fields finds the recursive evaluation of every block, iff blocks with a test that can apply stand at positions of blocks on their field and resets reach every block whose outcome changes |
| `CondCache.ConditionsSuffice` | src/configfile-glue.c:510-617 | under both conditions every run from any reachable state is exact, for requests of any type |
| `CondCache.LocalsNeeded` | src/configfile-glue.c:581-590 | a block with a test that can apply, at the position of a block on another field, answers wrongly in some run |
| `CondCache.DecidedApplies` | src/configfile-glue.c:307-351 | a block that its own test ever decides applies when the test holds |
| `CondCache.ReachNeeded` | src/configfile-glue.c:544-591 | and so does a block whose outcome changes with some fields whose resets do not reach it |
| `CondCache.ReachedTidy` | src/configparser.y:424-441 | where every branch lies in the same block as the one before it and no block is the next of two others: resets reach every block they must iff every block that depends on a field is tied by next and first-branch links to a block on it |
| `CondCache.RunsExactShows` | src/configparser.y:424-491 | for these configurations all runs are exact iff every block with a test is in place and every block that depends on a field is tied to a block on it |
| `CondCache.AllCanApply` | src/configparser.y:424-491 | where every branch lies in the same block as the one before it, every block can apply |
| `CondCache.CoveredReached` | src/configparser.y:424-441 | the link condition is sufficient also where a block is the next of two others |
| `CondCache.NestedElseFails` | src/configparser.y:443-491 | a conditional nested in an else block makes some run wrong |
| `CondCache.StaleAfterReset` | src/configfile-glue.c:581-590 | there a sweep, a change and a reset after which a check answers TRUE for a false condition |
| `CondCache.ReopenedFails` | src/configparser.y:424-441 | with all positions right, a condition opened again with another else branch makes some run wrong |
| `CondCache.TwoBranchesApply` | src/configparser.y:574-576 | there a sweep, a change and a reset after which two branches of one chain answer TRUE |
| `CondCache.TwoElsesRight` | src/configparser.y:443-491 | else blocks in each other's positions: every run is exact |
| `CondCache.CrossedRight` | src/configparser.y:424-441 | a block that is the next of another chain's branch: every run is exact although the link condition fails |
| `CondCache.StrayFails` | src/configparser.y:763-772 | two else blocks with the same inner condition, and a branch behind it in the second: with all positions right some run is wrong |
| `CondCache.SkippedForGood` | src/configparser.y:574-576 | there a sweep, a change and a reset after which the branch is still skipped although it applies |
| `CondCache.StrayUndecided` | src/configfile-glue.c:307-329 | there the branch before may be unknown and the branch itself decided |
| `CondCache.Sweep` | src/configfile.c:563-568 | the in-order sweep fills every result with the answer of the check in the cache it started from, and matches accordingly |
| `CondCache.SweptExact` | src/configfile.c:563-568 | starting from a cache of true outcomes these are the recursive evaluations |
| `CondCache.Connection.Patch` | src/configfile.c:563-568 | under the two conditions, in every reachable state with all changed fields reset, the sweep matches exactly the blocks whose conditions hold now |
| `CondCache.Connection.SetField` | src/configfile-glue.c:573-591 | one step of a run: the field changes and must be reset before the next sweep; the invariant holds |
| `CondCache.Connection.Enable` | src/configfile-glue.c:331-340 | one step of a run: a field becomes available; the invariant holds |
| `CondCache.Connection.ResetField` | src/configfile-glue.c:578-591 | one step of a run, for every configuration: the cache is cleared as `ResetItem` says and the field is clean |
| `CondCache.Connection.ClearAll` | src/configfile-glue.c:596-610 | everything unset, no field available |
| `CondCache.CheckCond` | src/configfile-glue.c:612-617 | a block matches iff the check in the cache at the start of the sweep answers TRUE |
| `CondCache.ClearChildren` | src/configfile-glue.c:562-568 | clearing only the heads of chains clears all children |
| `ChunkList.LinkTail` | src/chunk.c:194-205 | appends a node to the linked list, last being its true tail |
| `ChunkList.LinkHead` | src/chunk.c:184-192 | prepends a node, setting last iff the list was empty |
| `ChunkList.UnlinkHead` | src/chunk.c:424-429 | takes the head out; last is null iff the list becomes empty |
| `ChunkList.PushUnused` | src/chunk.c:151-163 | pushes on the recycled list unless it is full; the counter stays its length |
| `ChunkList.GetUnused` | src/chunk.c:165-182 | pops a recycled node or makes one; the counter stays the length |
| `ChunkList.Splice` | src/chunk.c:301-315 | a whole list is hung behind another; last is the tail of the result |
| `ChunkQueue.Queue.Ends` | src/chunk.c:184-205 | first and last are null exactly on the empty queue, and otherwise its true head and tail |
| `ChunkQueue.Queue.Obtain` | src/chunk.c:165-182 | a recycled chunk or a new one, in neither list; both lists and the counter stay right |
| `ChunkQueue.Queue.Recycle` | src/chunk.c:151-163 | the chunk joins the recycled list unless enough are kept; the counter is its length |
| `ChunkQueue.Queue.UnlinkFirst` | src/chunk.c:711-712 | the first chunk leaves the list; last follows when it was the only one |
| `ChunkQueue.Queue.LinkList` | src/chunk.c:304-309 | a list that belongs to no queue goes to the end of this one |
| `ChunkQueue.Queue.AppendMem` | src/chunk.c:288-298 | the content gains exactly these bytes at the end, in one memory chunk behind the others, or none for none; the counter their number; live and recycled list stay linked and disjoint, last is the true tail |
| `ChunkQueue.Queue.PrependBuffer` | src/chunk.c:274-285 | the content gains exactly these bytes at the front, in a chunk linked before the others |
| `ChunkQueue.Queue.AppendFile` | src/chunk.c:223-259 | the content gains exactly the file range, in a chunk linked behind the others |
| `ChunkQueue.Queue.Length` | src/chunk.c:686-695 | the summed length is the length of the content and the difference of the counters |
| `ChunkQueue.Queue.MarkWritten` | src/chunk.c:697-724 | exactly the first n bytes go, finished chunks are unlinked and recycled, the first one left is advanced and the others are as they were, and the counter says so |
| `ChunkQueue.Queue.RemoveFinished` | src/chunk.c:726-737 | unlinks and recycles exactly the finished chunks at the front, leaves the others and drops no byte |
| `ChunkQueue.Queue.Reset` | src/chunk.c:207-221 | every chunk is recycled while fewer than five are kept, or else freed; the queue and both counters are empty |
| `ChunkQueue.Queue.GetMemory` | src/chunk.c:318-376 | leaves the content as it is with a memory chunk at the end |
| `ChunkQueue.Queue.UseMemory` | src/chunk.c:378-394 | the content gains what was written, the counter its length |
| `ChunkQueue.Queue.NeedTempfile` | src/chunk.c:544-570 | the tail stays if it is an open, unread temporary file below the size limit; else an empty one is linked behind it, and a full one is closed; the content stays |
| `ChunkQueue.Queue.OpenTempfile` | src/chunk.c:462-527 | an empty open temporary file is linked behind the others; the content stays |
| `ChunkQueue.Queue.AppendMemToTempfile` | src/chunk.c:529-594 | the content gains exactly these bytes, however many writes it takes and however many files they end up in; the tail is an open temporary file, the chunks before the old tail are as they were, the old tail is as it was, closed or grown, and every further chunk is a temporary file |
| `ChunkQueue.StoredInFiles` | src/chunk.c:544-594 | so for every script of partial and interrupted writes: nothing but temporary files is added |
| `ChunkQueue.StoredContent` | src/chunk.c:571-591 | and the content grows by the memory, whatever each write accepts |
| `ChunkQueue.Queue.Compact` | src/connections-glue.c:52-71 | merging the first memory chunks leaves the content unchanged, and the chunks are those that the merges call for; true iff the first chunk got longer, else one chunk is left |
| `ChunkQueue.Queue.TakeHeader` | src/connections.c:825-837 | the header is the content's prefix that ends at the given place, the rest stays, the counter grows by its length |
| `ChunkQueue.AppendQueue` | src/chunk.c:301-315 | splices one queue's list behind another's: the whole content moves, the source is empty, all four list ends are right and the queues share no chunk |
| `ChunkQueue.Steal` | src/chunk.c:416-460 | moves exactly the first min(n, available) bytes in order across empty, whole and split chunks, and terminates: the chunks that are not empty go over as they are, at most the last one in part, and what follows stays; both queues stay well-formed and share no chunk |
| `ChunkQueue.TransferredOn` | src/chunk.c:418-458 | one more turn keeps this: chunks gone over, the one that was split, chunks that stay |
| `ChunkQueue.StealWithTempfiles` | src/chunk.c:625-684 | agrees with Steal on both contents and both counters, whatever the writes accept, and adds nothing but file chunks: a queue without memory chunks gets none; the source keeps what follows as it was; both queues stay well-formed and share no chunk |
| `ChunkQueue.TurnedInFiles` | src/chunk.c:627-680 | whatever its first chunk is, a turn adds nothing but files |
| `ChunkQueue.ContentConcat` | src/chunk.c:301-315 | the content of two lists of chunks one after the other is the two contents one after the other |
| `ChunkQueue.StealFirst` | src/chunk.c:418-458 | one turn drops an empty chunk, moves a whole one as it is or splits one, and hands on exactly its bytes |
| `ChunkQueue.MoveFirst` | src/chunk.c:435-440 | the first chunk itself goes from one linked list to the end of the other |
| `ChunkQueue.StealWhole` | src/chunk.c:432-440 | a whole chunk goes over; exactly its bytes move, and the counters with them |
| `ChunkQueue.StealPart` | src/chunk.c:441-457 | a part of the first chunk is copied or referred to and the rest stays |
| `ChunkQueue.StealMemory` | src/chunk.c:661-676 | a part or the whole of a memory chunk is written to a temporary file of the other queue |
| `ChunkQueue.StealFirstToTempfile` | src/chunk.c:627-680 | the same with memory written to temporary files, and the writes used up that this takes |
| `ChunkQueue.Queue.WriteTail` | src/chunk.c:577-590 | what write accepts is appended to the file and to the content |
| `ChunkQueue.Queue.MergeFirst` | src/connections-glue.c:57-68 | swapping the buffers of the first two chunks moves no byte |
| `HttpChunk.AppendUintHex` | src/buffer.c:235-254 | writes the lower-case digits of the number, in pairs |
| `HttpChunk.HexRoundTrip` | src/buffer.c:235-254 | reading the digits back gives the number |
| `HttpChunk.FrameMem` | src/http_chunk.c:148-157 | the queue gains one frame of the data, or the plain data, in memory chunks |
| `HttpChunk.FrameTempfile` | src/http_chunk.c:96-123 | the same through temporary files: the tail is one afterwards and no memory chunk is added, not even for the size line |
| `HttpChunk.FrameFile` | src/http_chunk.c:49-61 | the same for a file range, which is referred to and not copied |
| `HttpChunk.FrameData` | src/http_chunk.c:125-160 | a piece of memory is kept in memory iff the tail is no temporary file and no more than 64 kB, or 128 kB, are then queued; otherwise it is written to temporary files |
| `HttpChunk.HeldWhere` | src/http_chunk.c:125-160 | what this means for the chunks: nothing but temporary files is added, or nothing but memory |
| `HttpChunk.Response.AppendData` | src/http_chunk.c:125-160 | an empty piece adds nothing, another adds one frame, in memory or in files as `FrameData` says |
| `HttpChunk.Response.AppendFileRange` | src/http_chunk.c:63-81 | fails iff the range exceeds the file, else adds the range as one piece, even an empty one, referring to the file |
| `HttpChunk.Response.AppendFile` | src/http_chunk.c:83-94 | adds the whole file unless it is empty |
| `HttpChunk.Response.Prepare` | src/connections.c:426-477 | chunked iff the response has no other delimiter and the client speaks HTTP/1.1; what is queued becomes the first piece, no byte is lost; the answer to HEAD has no body |
| `HttpChunk.Response.Close` | src/http_chunk.c:175-182 | the stream gains the last chunk |
| `HttpChunk.Response.BackendDone` | src/http-header-glue.c:776-797 | finished and closed afterwards iff they were, or a response was being written or had been started; closes at most once; an error before anything was started becomes a 500 |
| `HttpChunk.Response.Sent` | src/chunk.c:697-724 | sending moves bytes from the queue to the wire and changes nothing the client sees |
| `HttpChunk.Response.Recovered` | src/http_chunk.c:175-182 | in every reachable closed state the decoder recovers exactly the payload and stops at the end, iff no piece was empty |
| `HttpChunk.ClosedStream` | src/http_chunk.c:25-182 | the same for all sequences of pieces and any bytes that follow |
| `HttpChunk.DecodeFrame` | src/http_chunk.c:25-61 | the decoder takes exactly one frame off the front |
| `HttpChunk.DecodeEmptyFrame` | src/http_chunk.c:49-61 | an empty frame is read as the end of the stream |
| `HttpChunk.StopsEarly` | src/http_chunk.c:49-61 | whatever follows an empty piece is left unread |
| `HttpChunk.AppendLen` | src/http_chunk.c:25-37 | the queue gains the size line |
| `HttpChunk.FrameQueued` | src/connections.c:430-438 | what is queued becomes exactly one frame |
| `HttpChunk.Response.WriteHeader` | src/connections.c:479-481 | the header goes in front of everything and the body stays |
| `PathSimplify.PathSimplify` | src/buffer.c:882-976 | in place or not, the result is the normal form of the text, NUL-terminated, and nothing beyond one extra character is touched |
| `PathSimplify.Turn` | src/buffer.c:932-973 | one turn keeps output and unread input intact: writing never overtakes reading |
| `PathSimplify.EndSegment` | src/buffer.c:948-972 | the last two characters and the token length decide as the component stack does |
| `PathSimplify.BackToSlash` | src/buffer.c:955-958 | walking back removes exactly the last component |
| `PathSimplify.SkipSpaces` | src/buffer.c:919-922 | leading spaces are dropped |
| `PathSimplify.AgreesWithRfc3986` | src/buffer.c:863-880 | the result is remove_dot_segments of the rooted path with runs of slashes merged |
| `PathSimplify.Fixpoints` | src/buffer.c:863-880 | the paths left alone are exactly the empty one and those in normal form |
| `PathSimplify.SimplifyNormal` | src/buffer.c:863-880 | every result is rooted, without empty, dot or dot-dot segments |
| `PathSimplify.Idempotent` | src/buffer.c:863-880 | simplifying twice is simplifying once |
| `PathSimplify.Enter` | src/buffer.c:919-930 | the leading slash is put unless it is there |
| `PathSimplify.NormIsRemoveDots` | src/buffer.c:863-880 | the component stack and the RFC's two buffers agree from any state on |
| `SortedArray.CaselessCompare` | src/buffer.c:411-428 | negative, zero and positive exactly as the folded strings are ordered |
| `SortedArray.LessTotal` | src/buffer.c:411-428 | the order is total and strict |
| `SortedArray.LessTransitive` | src/buffer.c:411-428 | and transitive |
| `SortedArray.GetIndex` | src/array.c:91-121 | finds the key and its place in the permutation, or the only place where it belongs |
| `SortedArray.SortedInsert` | src/array.c:253-261 | the permutation stays sorted and complete after an insertion |
| `SortedArray.SortedRemove` | src/array.c:141-166 | and after a removal that moves the last entry into the gap |
| `SortedArray.KeyedArray.Get` | src/array.c:123-133 | the map's entry, or none |
| `SortedArray.KeyedArray.FindOrInsert` | src/array.c:211-264 | finds the entry with the folded key, else adds the new one; the counter of automatic keys goes up by one iff the key is automatic |
| `SortedArray.KeyedArray.Replace` | src/array.c:267-276 | the map updated at the folded key |
| `SortedArray.KeyedArray.InsertUnique` | src/array.c:278-286 | the map updated, an existing entry merged by its own rule |
| `SortedArray.KeyedArray.Extract` | src/array.c:135-172 | the map's entry comes out and exactly it is gone |
| `SortedArray.KeyedArray.Reset` | src/array.c:62-72 | the map becomes empty, the slots stay |
| `SortedArray.KeyedArray.GetUnused` | src/array.c:174-191 | hands out a kept entry of the kind if there is one, without touching the live ones |
| `SortedArray.KeyedArray.Pop` | src/array.c:74-85 | the last entry leaves the list and the map, given that its key is the greatest |
| `SortedArray.AutomaticKeyIsNew` | src/array.c:214-219 | in a list of automatic keys the next one never collides |
| `SortedArray.KeyedArray.Grow` | src/array.c:232-246 | there is room for one more and nothing else changes |
| `GatewayPool.Pool.SetState` | src/gw_backend.c:90-98 | the count of running processes follows the state |
| `GatewayPool.Pool.Waitpid` | src/gw_backend.c:346-374 | exactly a local process whose exit is reported becomes dead |
| `GatewayPool.Pool.SpawnConnection` | src/gw_backend.c:455-631 | the process after an attempt to start it, in all outcomes |
| `GatewayPool.Pool.FindReusable` | src/gw_backend.c:635-641 | the first retired process that has ended; gives up if it ended only now |
| `GatewayPool.Pool.Spawn` | src/gw_backend.c:633-690 | keeps both lists linked and disjoint, ids distinct and counters in bounds, and leaves the pool as `AfterSpawn` has it |
| `GatewayPool.SpawnLaw` | src/gw_backend.c:633-690 | the number goes up by one iff the address is good and no retired process that ended only now is next; the process is in front of those in service iff it came up, else in front of the retired; a reused one has left the retired, a new one takes the next id, and a new one with a bad address leaves no trace |
| `GatewayPool.SpawnRest` | src/gw_backend.c:633-690 | a process at rest stays at rest |
| `GatewayPool.Pool.Kill` | src/gw_backend.c:692-712 | the node moves from the middle of one doubly linked list to the front of the other, killed, and the counter goes down |
| `GatewayPool.Pool.RestartDead` | src/gw_backend.c:992-1052 | each process in service becomes what its state, load, time and the host's program call for |
| `GatewayPool.RoundLaw` | src/gw_backend.c:992-1052 | it runs afterwards iff it ran, was overloaded and its time is up, or was dead, unused and due on a host with a program and came up; otherwise it is not started, and one whose exit is only now noticed is not started in the same round |
| `GatewayPool.Pool.Trigger` | src/gw_backend.c:2411-2479 | leaves the pool as `AfterTick` has it; what is found to have died unasked is at rest afterwards |
| `GatewayPool.TickLaw` | src/gw_backend.c:2411-2479 | with a fixed number or without a program nothing but restarts happens; otherwise the number goes up by one iff all processes in service are overloaded, there are some but fewer than the maximum, the address is good and no retired process that ended only now is next, and then down by one iff it is above the minimum and some process is idle |
| `GatewayPool.GrowthPromised` | src/gw_backend.c:2436-2454 | the growth alone, before the idle ones are looked at |
| `GatewayPool.Pool.KillIdle` | src/gw_backend.c:2456-2474 | kills one idle process above the minimum, as `Trimmed` has it |
| `GatewayPool.KilledFree` | src/gw_backend.c:692-712 | a killed process that has ended does not keep another from starting |
| `GatewayPool.TrimmedLaw` | src/gw_backend.c:2456-2474 | iff there is one: the first idle one leaves the service and is killed in front of the retired; nothing else changes |
| `GatewayPool.Pool.ChildExited` | src/gw_backend.c:2506-2550 | exactly the first local process with the pid changes, in service before retired. If it was retired or disabled this second it is dead without a child; else a start that succeeds leaves it running with the new pid, one found up leaves it running and not ours, and one that fails leaves it dead without a child. True iff there was one |
| `GatewayPool.ExitRests` | src/gw_backend.c:2521-2548 | what is not started again then is at rest |
| `GatewayPool.NoticedOnce` | src/gw_backend.c:242-294 | of several failed connections to a local process one counts, none for an earlier child, and it is tried again once its time is over and not before |
| `GatewayPool.SilentLaw` | src/gw_backend.c:2074-2093 | after a failed read a process changes iff its child has exited, it may be started and no one else uses it; it then runs iff the start succeeds |
| `GatewayPool.Pool.ConnectError` | src/gw_backend.c:242-294 | only the first to notice disables a local process |
| `GatewayPool.Pool.ReadError` | src/gw_backend.c:2074-2093 | a dead process no one else uses is restarted at once |
| `GatewayPool.Pool.SpawnOnDemand` | src/gw_backend.c:938-947 | starts the first process of a host that needs none and has a program; true iff none was started before, the address is good and no retired process ended only now |
| `GatewayPool.Pool.StartUp` | src/gw_backend.c:1473-1514 | succeeds iff all of the least number of processes come up; they are then in service with ids from zero, the latest in front |
| `GatewayPool.Pool.StartRemote` | src/gw_backend.c:1515-1534 | a host without a program has one running process that is not ours |
| `GatewayPool.Pool.Run` | src/gw_backend.c:2411-2479 | after any run: the pool is as its events call for; both lists linked in both directions and disjoint; active equals the running processes, all in service; ids distinct below max_id; length of first at most num_procs, between min and max; a process that was dead at time t and may not be restarted then is not started by any events of that time |
| `GatewayPool.Pool.Step` | src/gw_backend.c:2411-2550 | each event leaves the pool as `After` has it and keeps the invariant |
| `GatewayPool.RunRest` | src/gw_backend.c:2411-2550 | over every run of events of one second, what was at rest at its start is at rest at its end |
| `GatewayPool.PortsDiffer` | src/gw_backend.c:661-667 | no two processes of a pool share a port or socket suffix |
| `GatewayPool.RestsAlone` | src/gw_backend.c:661-667 | ids tell processes apart: a dead one is all there is under its id, in both lists |
| `GatewayPool.IdleMoved` | src/gw_backend.c:2456-2474 | killing an idle process disturbs none at rest |
| `GatewayPool.Pool.Acquire` | src/gw_backend.c:642-657 | unlinks the first retired process that has ended, and gives out no id, or makes a new one with the next id; it is in neither list |
| `GatewayPool.Pool.Discard` | src/gw_backend.c:669-676 | giving up a process frees its id only if it was the last |
| `GatewayPool.Pool.CheckEnable` | src/gw_backend.c:316-325 | an overloaded process runs again once its time is up |
| `GatewayPool.Pool.Restart` | src/gw_backend.c:1000-1050 | what the restart round makes of one process, for hosts with and without a program |
| `GatewayPool.Pool.ReapFirst` | src/gw_backend.c:2429-2431 | every exit among the processes in service is noticed, and those that were not asked to end are at rest for this second |
| `GatewayPool.Pool.ReapUnused` | src/gw_backend.c:2476-2478 | and among the retired ones |
| `GatewayPool.Pool.Overload` | src/gw_backend.c:2439-2444 | true iff every process in service has more than the load allowed |
| `GatewayPool.Pool.ExitedInService` | src/gw_backend.c:2521-2538 | the dead process is restarted unless it has been disabled this second |
| `GatewayPool.Pool.ExitedRetired` | src/gw_backend.c:2539-2548 | a retired process is dead and without a child |
| `GatewayPool.Pool.Launch` | src/gw_backend.c:677-689 | a process in neither list is started and linked in front of the one it belongs to; a failed start still counts |
| `GatewayPool.Pool.Relink` | src/gw_backend.c:692-705 | the node is taken out of one list and linked in front of the other; both stay linked and share no node |
| `GatewayPool.FindPid` | src/gw_backend.c:2520-2540 | the walk along a list ends at the first local process with the pid, null iff there is none |
| `ProcLinks.Take` | src/gw_backend.c:642-654 | unlinking from a doubly linked list removes exactly this node |
| `ProcLinks.PushFront` | src/gw_backend.c:680-688 | linking in front keeps both directions |
| `ProcLinks.Move` | src/gw_backend.c:692-705 | moving between the lists keeps both well-formed and disjoint |
| `Balancer.RoundRobin` | src/gw_backend.c:856-891 | picks the first active host cyclically after the last pick; fails iff none is active |
| `Balancer.Fair` | src/gw_backend.c:856-891 | with m active hosts any m consecutive picks are a rotation of the list of active hosts |
| `Balancer.PickedOnce` | src/gw_backend.c:856-891 | so each active host is picked exactly once |
| `Balancer.Elect` | src/gw_backend.c:807-837 | the election loop, with its sentinel |
| `Balancer.ElectionExact` | src/gw_backend.c:807-837 | the pick is the first active host of greatest weight iff no active host weighs ULONG_MAX before another, which a wide unsigned long rules out |
| `Balancer.NarrowFails` | src/gw_backend.c:807-837 | with 32 bits and two hosts of weights 2^32 - 1 and 0 the second is picked |
| `Balancer.ElectedStays` | src/gw_backend.c:892-923 | the pick does not change when other hosts go down |
| `Balancer.LeastLoad` | src/gw_backend.c:838-855 | the first active host of least load |
| `Balancer.Extension.HostGet` | src/gw_backend.c:795-937 | each policy picks as specified and only among active hosts: least-connection the first active host of least load, none iff all loads are at the bound, round robin the next one; the hash policies pick the greatest weight exactly when `ElectionExact` says so |
| `Balancer.WinnerMovesOn` | src/gw_backend.c:831-834 | behind a host that weighs as much as the sentinel the pick moves on and does not come back |
| `Digest.Context.Update` | src/md5.c:133-169 | after any update that the loop counter can work off, the context holds the fold over the full blocks, the exact remainder and the exact bit count of the message |
| `Digest.FitsExact` | src/md5.c:157-158 | the guard of the 32-bit loop tells everywhere in the input whether another block is there, iff the last place it can stand at is below 2^32 - 63 |
| `Digest.NearTheEnd` | src/md5.c:157-158 | behind 63 bytes an input of 2^32 - 63 bytes: at its end the guard is still true |
| `Digest.Context.Absorb` | src/algo_sha1.c:130-146 | the buffered block and all full blocks of the input are folded in |
| `Digest.AddCount` | src/md5.c:141-146 | the two words count bits modulo 2^64 |
| `Digest.FinalMd5` | src/md5.c:174-197 | finalisation is the fold over the message padded as in sections 3.1 and 3.2 of RFC 1321 |
| `Digest.FinalSha1` | src/algo_sha1.c:150-174 | finalisation is the fold over the message padded as in section 4 of RFC 3174 |
| `Digest.UpdateAll` | src/md5.c:133-169 | any split of a message into updates gives the same context |
| `Digest.PaddedBlocks` | src/md5.c:182-189 | the padded message is a whole number of blocks |
| `Digest.BlocksConcat` | src/md5.c:150-161 | folding may be continued from any block boundary |
| `Digest.Context.Keep` | src/md5.c:165-168 | the rest of the input is buffered behind what is there |
| `Digest.LengthBytes` | src/md5.c:179-180 | the two words written out are the length modulo 2^64, in either byte order |
| `Base64.Decode` | src/base64.c:40-122 | decodes iff no bad character comes before the end, a pad has two digits before it, no digit is alone and no stray bit is set; all writes are within the reserved space |
| `Base64.DecodeEncode` | src/base64.c:40-122 | decoding the padded or unpadded encoding returns the bytes, in both alphabets |
| `Base64.EncodeDecode` | src/base64.c:124-183 | whatever decodes, encoding the result gives back the kept digits |
| `Base64.EncodeNoPadding` | src/base64.c:124-183 | writes the digits of the bytes and nothing else |
| `Base64.Encode` | src/base64.c:185-214 | and pads to a multiple of four |
| `Base64.Tables` | src/base64.c:12-38 | the reverse table inverts the alphabet |
| `Base64.TablesBack` | src/base64.c:12-38 | and the alphabet inverts the reverse table |
| `Base64.PutDigit` | src/base64.c:79-98 | one digit completes a byte and leaves its other bits for the next |
| `Base64.EncoderReserve` | src/base64.c:217-235 | the space reserved for an encoding is enough, padded or not |
| `KeepAlive.Connection.ReadFixed` | src/connections-glue.c:445-469 | takes exactly what is missing of the body or what is there |
| `KeepAlive.Connection.ReadChunked` | src/connections-glue.c:186-199 | at the last chunk the length becomes what was read |
| `KeepAlive.Connection.ReadError` | src/connections-glue.c:103-115 | clears keep-alive; the status changes only before headers are sent |
| `KeepAlive.Connection.Upgrade` | src/http-header-glue.c:800-812 | an upgraded connection is not kept |
| `KeepAlive.Connection.Finished` | src/connections.c:1176-1254 | the error handler is entered iff the response is an error of our own and it was not entered before; otherwise the response begins; nothing else changes |
| `KeepAlive.ClosedLaw` | src/connections.c:1176-1254 | entering is once per request; the one handler takes the body away; after a handler the status is that of the error, except that what the 404 handler found stands |
| `KeepAlive.Connection.DropBody` | src/connections.c:1217-1223 | giving up the body keeps the connection only if the body was read in full |
| `KeepAlive.Connection.LocalRedirect` | src/http-header-glue.c:852-883 | at most five redirects per request, each giving up the body |
| `KeepAlive.Connection.ResponseDone` | src/connections.c:207-232 | another request is started iff keep-alive is set and the counters agree, and then the whole body was read |
| `KeepAlive.Connection.Run` | src/connections.c:1113-1295 | over every run: the connection is as its events call for; never kept with an unread body, error handler at most once and redirects at most five times per request |
| `KeepAlive.ReusedWhenRead` | src/connections.c:207-232 | in every run and at every step of it: another request begins only at the end of a response, with keep-alive set, no error and the body read to its end on the wire, and then nothing is left of the request before |
| `KeepAlive.KeptByParser` | src/connections.c:1141-1156 | and keep-alive becomes set by nothing but the parser |
| `KeepAlive.Connection.Parse` | src/connections.c:1141-1156 | the parser sets keep-alive and says how the body is framed |
| `KeepAlive.Connection.Step` | src/connections.c:1113-1295 | every step leaves the connection as `After` has it, keeps the invariant, and the next request starts only after a body read in full |

## Left out

- Lemon's grammar parsing, option handling, report and C source output, and the C types of the emitted tables; the tables are integer sequences here.
- Fallback and wildcard tokens in the driver's shift lookup, and the parser stack itself.
- Lemon's sets are boolean sequences passed by value; sharing between them is not modelled. `ReportTable` is proved for every order of the rows by size that `qsort` may produce.
- Building LR states and closures (configlist, getstate): the raw action lists are inputs.
- The local tests of conditions (string, network and regular expression matches) are an arbitrary function.
- ChunkQueue.Queue.GetMemory: how large the buffers are, and hence when the last one is used again, is left open.
- Failing writes: running out of space, temporary files that cannot be opened, and the clean-up of empty chunks after them. Writes accept any part of the data any number of times, then all.
- The chunked request-body decoder and the search for the end of the request header.
- HttpChunk.Response.Prepare: the parts of preparing a response that concern its headers and error documents are not modelled.
- Windows path separators in the path normaliser; URL decoding.
- Entries of the keyed array are values, so the identity of an entry that replaces itself is not modelled; freeing memory is not modelled.
- SortedArray.KeyedArray.FindOrInsert: the counter of automatic keys does not wrap.
- What the configuration parser does apart from the shape of the blocks it builds, and configurations in which an open else block gets the key of a block that is there already.
- Gateway request handling, load counters across waiting for descriptors, sockets, and start-up for a configuration test; a start of a process has one of five outcomes.
- Digest.Context.Update: is for the inputs that the loop counter can work off (`Fits`), because the loop reads past the input otherwise; the block functions and the output encoding are parameters.
- In Base64 the disjoint bit-or of shifted digits is written as a sum.
- KeepAlive.Connection.ReadChunked: takes the decoded pieces as given.
- Event loops, connections' sockets and timeouts, logging, `stat` caching, TLS, authentication, and all modules.
