# Verification of the wasitter host and bridge logic

wasitter wraps the C Tree-sitter runtime, compiled to WebAssembly, in Go.  This project
models the logic around the guest calls and proves properties of the model.  The guest is
an arbitrary deterministic machine: a finite ordered tree, and a query cursor that is a
stream of matches or captures.  Every modelled foreign call may be skipped, trap, answer
with no value, with a too wide or too short one, or with memory that cannot be read; how it
fails is a parameter of the method that makes it, so each statement holds for every
schedule of failures.

These cores are modelled.

* **Tree cursor** (modules `SyntaxTree`, `CursorPaths`, `Cursor` in TreeCursor.dfy,
  `CursorRuns`, `Iteration`, `Covering`): nodes are paths in a finite tree.  The cursor keeps
  a shadow (node, ancestor stack, pre-order indexes) beside an optional guest cursor.  Over
  every run and every failure schedule it follows a pure path cursor that loses at most one
  goal move, with saturating 32-bit indexes on trees of any size.  The depth-first and
  breadth-first iterators and the smallest covering node share the tree theory.
* **Query protocol, guest** (`Wire`, `NodeWrappers`, `GuestMachine`, `GuestQuery`,
  `GuestRuns`): the C wrapper with its pending match or capture.  `GuestMachine` is what one
  call of each kind does, as a function of the state before; the class `SWQueryCursor` is
  proved to do exactly that, and `GuestRuns` has the laws of whole runs, in one mode or mixed.
* **Query protocol, host** (`HostTree`, `HostMachine`, `HostDrains`, `HostCaptures`,
  `HostQuery`): the Go side that probes, fetches, decodes, filters, registers and frees.
  `HostMachine` is one step, `HostDrains` searches and whole drains, `HostCaptures` the two
  ways to read captures alone; the class `QueryCursor` is proved to do exactly these.
* **Query protocol, threads** (`Locks`, `Lifetime`, `Progress`, `Coordinator`, `Destructor`):
  deadlock freedom of the lock programs with writer-preferring locks; the lifetime gate between
  executions and `Tree.Close` as an interleaving of single steps, its safety and its progress;
  when that gate and the coordinator block all executions; exactly when the guest's destructor
  finds its tree freed.
* **Materialised iterators** (`Replay`, `Materialized` in QueryMatches.dfy, `QueryRanges`): a
  drained slice that behaves like a lazy cursor whose range changes mid-stream, by replaying
  a log of positioned operations and filtering in place by a multiset; and what a setter
  leaves, in terms of where nodes lie.
* **Query text** (`QueryText`, `QueryValidator`, `QueryParser`, `QueryGrammar`, `QueryGroups`,
  `QueryPrinter`, `QueryAcceptance`, `QueryRoundTrip`): the structural validator, the
  delimiter scanners and the grouping parser of the fallback front end, exactly what each
  accepts, their agreement on every accepted text, and a printer whose output all of them read.
* **Coordinates** (`Unicode`, `Coordinates`, `Collectors`): UTF-8 byte ranges to UTF-16 unit
  ranges and the chunked input collectors, with lone surrogates read as U+FFFD.

`Values` holds the option type and the machine integers all modules use.  What the source
updates in place is a class with those fields or an array; its loops are loops.  Each such
method is proved against functions on values (`LossyRun`, `Advance`, `TryOf`, `SearchOf`,
`Leftmost`, `Balanced`, `Collect` and the like), and lemmas about those functions carry the
properties.  Automatic induction is off in every lemma: each induction is the one written.

## Where the code does something its comments or callers may not expect

The model follows the code; these are proved, each with a concrete input or an exact
condition.

* An empty *and* a too wide result of the byte and point moves both make the move fail
  with the position unchanged and detach the guest for good, so a run loses at most one
  (`CursorRuns.Dispatch`, `CursorRuns.Run`).
* When a fetch fails after the guest has wrapped nodes, the wrappers are live and nobody
  knows them (`HostMachine.ReadLeaksIff` says when, `HostQuery.LeakExample` shows one).
* A whole-match fetch of a retained match drops its later captures
  (`GuestRuns.WholeFetchKeepsRestIff`: exactly when one is due), and going back to match
  calls hands the captures already fetched out again (`GuestRuns.MatchCallReplays`).
* A failed guest allocation loses the match or capture it was for (`GuestRuns.MissesIff`),
  and the host cannot tell it from the end of the stream; without failures nothing is lost
  (`GuestRuns.FaultlessRun`, `HostDrains.BenignCollect`).
* While a cursor stays undrained, a waiting `Tree.Close` and one `Exec` on its tree keep
  every other `Exec` out, on any tree (`Coordinator.JamStays`, `Coordinator.OneCursorJams`).
* With repeated keys the in-place filter can keep another occurrence than the narrowed
  cursor would (`Materialized.ReorderedRange`); it is exact if and only if the narrowed
  cursor's keys are those left after dropping, of equal ones, the last
  (`Replay.LeftmostRecoversIff`).
* The filter used when a history cannot be replayed looks at captures only, so a sequence
  stays exact under it if and only if no match left has a root and captures that disagree
  about the range (`QueryRanges.SetByteRange`, `QueryRanges.RootOutsideCapture`).
* The collectors fail at the 2^20th call, whatever the text (`Collectors.CollectInput`).
* Exhaustion releases the gate without deleting the guest cursor, so a later `Tree.Close`
  frees the tree before the cursor's destructor runs (`Lifetime.DestroyedAfterTree`); the
  comment at query.go:5994-5997 expects the destructor under the gate.
  `Destructor.DanglesIff` says exactly when it happens, and `Destructor.NeverDangles` that
  closing or cancelling the cursors of a tree first avoids it.
* A group that begins with an alternation, such as `([(a) (b)] @x)`, is accepted by the
  validator and then skipped without a pattern or a number
  (`QueryRoundTrip.GroupedChoiceIsSkipped`).
* A predicate in the historical spelling with a dot, `(.eq? @x "b")`, is a predicate for the
  validator and a pattern with its own number for the grouping parser, contrary to the comment
  at query.go:2947-2953 (`QueryRoundTrip.DottedPredicateIsPattern`).
* An alternation such as `[*]` is accepted by the validator and takes a pattern number that
  no pattern carries (`QueryGroups.NumbersCarriedIff`).
* An offset inside a rune moves the start of a UTF-16 slice up and its end down
  (`Coordinates.SliceHoldsWholeRunes`), as the comment at node.go:1218-1220 says and the one
  at node.go:1173-1175 does not.
* For an empty range the covering descent can miss spanning nodes
  (`Covering.EmptyRangeHasTwo`): it holds all of them if and only if every empty node there
  has a spanning parent and no spanning sibling (`Covering.EmptyRangeIff`).
* The span of a top-level pattern without predicates reaches over the blank behind it
  (`QueryRoundTrip.PrintedQueryIsRead`).

## Model

| member | source | states |
|---|---|---|
| SyntaxTree.PackPointOrder | runtime.go:766-772 | A packed point unpacks to itself, and packed values compare exactly as `comparePoint` orders the points (node.go:1086-1094) |
| SyntaxTree.NthNode | cursor.go:1235-1289 | For every index below the subtree size there is a node, and its pre-order index is that index |
| SyntaxTree.IndexInjective | cursor.go:1326-1364 | Two nodes with one pre-order index are the same node, so index and path are inverse |
| Cursor.FallbackVisibleSubtreeCount | cursor.go:82-98 | Subtree size clamped to 2^32-1, for trees of any size |
| Cursor.FallbackChildDescendantIndex | cursor.go:103-122 | Index of a child from its parent's, clamped; below zero and past the last child included |
| Cursor.SaturatingU32Add | cursor.go:188-193 | The true sum, clamped to 2^32-1 |
| Cursor.FallbackPathToNode | cursor.go:1326-1364 | Finds the node exactly when it lies below the root with an index that fits 32 bits, and then returns its exact ancestors, their indexes and its own |
| Cursor.NotBelow | cursor.go:1340-1358 | The pruned walk skips no subtree that could hold a findable target: past 2^32-1 nothing is findable |
| Cursor.JumpUnique | cursor.go:1235-1289 | The node a jump must reach is the only one with that index |
| Cursor.TreeCursor.constructor | cursor.go:216-246 | A new cursor stands on its root, with or without a guest cursor, in a coherent state |
| Cursor.TreeCursor.NativeMove | cursor.go:460-560 | Trapped, missing or unreadable answers leave node and shadow restored and the guest detached; an answered move lands on the true target with either a rebuilt or an untouched stack |
| Cursor.TreeCursor.NativeGoalMove | cursor.go:460-560 | The same for the byte and point moves, whose empty and too wide results are passed on |
| Cursor.TreeCursor.InvalidateNative | cursor.go:568-594 | Detaching keeps the node and yields the exact shadow, whether the one it had was exact or stale |
| Cursor.TreeCursor.NormalizeFallbackShadow | cursor.go:159-174 | Rebuilds a stale shadow and keeps an exact one: afterwards node, ancestors and indexes are exact |
| Cursor.TreeCursor.PushFallbackAncestor | cursor.go:126-132 | Records the current node and its index as the innermost ancestor |
| Cursor.TreeCursor.PopFallbackAncestor | cursor.go:136-150 | Goes back to the innermost ancestor with its index |
| Cursor.TreeCursor.GoToFirstChild | cursor.go:668-703 | Under every failure schedule: moves exactly if there is a child, and then to child 0 of the node by position; the shadow stays exact |
| Cursor.TreeCursor.GoToLastChild | cursor.go:709-743 | Likewise to the child whose number is one below the count |
| Cursor.TreeCursor.GoToNextSibling | cursor.go:1019-1059 | Likewise one child number up under the same parent, exactly if there is such a child, never leaving the cursor root |
| Cursor.TreeCursor.GoToPrevSibling | cursor.go:1071-1124 | Likewise one child number down: moves exactly if the node is below the root and is not its parent's child 0 |
| Cursor.TreeCursor.GoToParent | cursor.go:1153-1197 | Likewise to the node without the last step of its path, stopping at the cursor root |
| CursorPaths.MovesUndone | cursor.go:1019-1197 | A previous-sibling move undoes a next-sibling move and the other way round, and a parent move undoes both descents |
| Cursor.TreeCursor.GotoFirstChildFor | cursor.go:749-1005 | First child past the byte or point goal under every failure schedule; the one exception, an empty or too wide result, fails with the position unchanged |
| Cursor.TreeCursor.GotoDescendant | cursor.go:1203-1290 | Reaches the node with the given index below the subtree size and the root otherwise |
| Cursor.TreeCursor.GotoDescendantFallback | cursor.go:1230-1289 | The same without a guest cursor |
| Cursor.TreeCursor.WalkToIndex | cursor.go:1235-1280 | The pruned walk finds the index exactly if the subtree holds it, sets node, ancestors and indexes exactly, and otherwise changes nothing |
| Cursor.TreeCursor.NativeGotoDescendant | cursor.go:1734-1812 | An answered guest jump lands on the indexed node; a failed one restores and detaches |
| Cursor.TreeCursor.CurrentNode | cursor.go:249-294 | The node, whether or not the guest can name it |
| Cursor.TreeCursor.CurrentDepth | cursor.go:597-634 | The number of steps below the root, from the guest or the stack |
| Cursor.TreeCursor.DescendantIndex | cursor.go:638-665 | The pre-order index below the root, clamped to 2^32-1, on trees of any size |
| Cursor.TreeCursor.Reset | cursor.go:1414-1477 | Stands on the new root with an exact shadow, whatever the guest answers |
| Cursor.TreeCursor.ResetTo | cursor.go:1484-1566 | Takes over root and node of the other cursor and leaves it alone; on itself or on closed cursors nothing changes |
| Cursor.TreeCursor.Copy | cursor.go:1569-1600 | A fresh cursor on the same root and node |
| CursorRuns.Dispatch | cursor.go:668-1290 | One command differs from the pure path cursor exactly when a byte or point move meets an empty or too wide result and a child exists |
| CursorRuns.RunOne | cursor.go:460-594 | One command and all observers report what the pure path cursor reports, or what it reports after a goal move that fails in place: exactly when an attached guest answers with no value or a too wide one |
| CursorRuns.Run | cursor.go:460-594 | Fault-tolerant simulation: every run under every failure schedule reports the booleans, nodes, depths and indexes of the pure path cursor in which exactly the lost goal moves fail in place; at most one is lost, and none without such an answer |
| Iteration.Iterator.constructor | compat_iter.go:34-51 | A null node starts exhausted, an unknown mode fails, otherwise the queue holds the node |
| Iteration.Iterator.Next | compat_iter.go:63-111 | Yields the head of what remains of the order, stops exactly at its end, and shrinks a size measure |
| Iteration.Iterator.ForEach | compat_iter.go:117-133 | Visits the order up to and including the first node the callback fails on |
| Iteration.DepthFirstStep | compat_iter.go:90-103 | Putting the children in front of the queue goes on in pre-order |
| Iteration.BreadthFirstStep | compat_iter.go:90-103 | Appending the children goes on in level order |
| Iteration.LevelRotate | compat_iter.go:90-103 | A queue that holds the rest of one level and the start of the next is in level order |
| Iteration.PreIsNumbering | cursor.go:1235-1289 | The depth-first order is the cursor's numbering: its i-th node is the node with index i |
| Iteration.PreNumbers | cursor.go:1326-1364 | Each node stands in the depth-first order at its pre-order index |
| Iteration.OrdersVisitTheSame | compat_iter.go:63-111 | Both modes visit the same nodes the same number of times |
| Iteration.EachNodeOnce | compat_iter.go:63-111 | Every node is visited exactly once, in either mode |
| Covering.PickChild | node.go:968-990 | On any tree: the first child that neither ends before the range nor, unless it is empty, where the range starts; it covers the range; none only if an earlier child starts behind every child that covers it |
| Covering.PickChildForPoints | node.go:1055-1078 | The same by points |
| Covering.DescendantFallback | node.go:954-996 | None for a null node or a reversed range; otherwise, on any tree, the way of settled children to its end, or to the last named node on it, which covers the range; in an ordered tree every node, or every named one, that covers a non-empty range is the result or above it |
| Covering.DescendantPointFallback | node.go:1045-1084 | The same law under the order of points |
| Covering.DescendsIsChain | node.go:968-990 | In an ordered tree the way the descent takes is a chain of spanning nodes that cannot be continued |
| Covering.ChainHoldsEveryCover | node.go:968-990 | In an ordered tree every node that covers a non-empty range lies on the chain |
| Covering.SmallestCover | node.go:954-996 | For a non-empty range the chain's nodes are exactly the covering nodes, so its end is the smallest one |
| Covering.EmptyRangeHasTwo | node.go:968-990 | For an empty range on a boundary two siblings span it and the later one is not on the chain |
| Covering.EmptyRangeIff | node.go:968-990 | On an empty range the chain holds every spanning node if and only if each empty node there has a spanning parent and no spanning sibling |
| Replay.ReplayLogged | query_iter.go:132-246 | Appending to the history changes a replay only from the logged position on, where it narrows it |
| Replay.ReplayTaken | query_iter.go:100-109 | One more consumed value moves the replayed cursor by one |
| Replay.ReplayEnded | query_iter.go:132-246 | A replay that ends early stays ended |
| Replay.LeftmostIsIntersection | query_iter.go:416-428 | The keys kept are the multiset intersection of the old keys and the eligible counts |
| Replay.LeftmostIsSubsequence | query_iter.go:416-428 | The kept values are a subsequence of the old ones |
| Replay.LeftmostRecovers | query_iter.go:416-428 | With distinct keys the exact condition is being a subsequence of what is left |
| Replay.LeftmostRecoversIff | query_iter.go:416-428 | With any keys the filter yields the narrowed sequence if and only if that is what is left of the keys after dropping, of equal ones, the last |
| Replay.DuplicateKeysReorder | query_iter.go:416-428 | With a repeated key the filter can keep the wrong occurrence: [1,2,1] narrowed to [2,1] gives [1,2], though [2,1] is a subsequence |
| Replay.CountKeys | query_iter.go:1018-1067 | Counts the keys a cursor still yields |
| Replay.QueryIteratorStream.constructor | query_iter.go:67-98 | A new history is that of a fresh cursor |
| Replay.QueryIteratorStream.ConsumedOne | query_iter.go:100-109 | The recorded lazy cursor moves by one value; the counter saturates at 2^64-1 |
| Replay.QueryIteratorStream.ReplayHistory | query_iter.go:150-225 | Replaying the log gives the state of the lazy cursor with that history |
| Replay.QueryIteratorStream.SnapshotRangeOperation | query_iter.go:132-246 | Logs the operation at the current position and returns exactly the keys the narrowed lazy cursor still yields, or fails when the replay ends early |
| Materialized.Compact | query_iter.go:416-428 | The in-place loop leaves the filtering's final state at the front of the window and nothing changed outside it |
| Materialized.FilterWindow | query_iter.go:416-428 | The window holds the leftmost eligible values; the backing array is untouched outside the written part |
| Materialized.KeepMatching | query_iter.go:443-449 | The compatibility filter keeps the values that pass its test, in order, and leaves the array behind and before them alone |
| Materialized.QueryItems.constructor | query_iter.go:686-730 | A materialised sequence starts as what was drained of a fresh cursor, all of it or, when a progress callback cancels, a prefix; it matches the lazy cursor if and only if the drain was complete |
| Materialized.QueryItems.Next | query_iter.go:306-322 | Yields the first value that was not removed, consuming exactly up to it; while exact, the lazy cursor moves along |
| Materialized.QueryItems.FilterInPlace | query_iter.go:416-428 | The remaining values become the leftmost eligible ones |
| Materialized.QueryItems.FilterLocally | query_iter.go:443-449 | Without a replay the remaining values become those that intersect the range; nothing else of the backing array changes |
| Materialized.QueryItems.FilterByReplay | query_iter.go:379-450 | Logs the setter and succeeds exactly when the fresh cursor executes and the history replays; then the remaining values are the leftmost ones whose keys the replayed, narrowed cursor still yields, otherwise nothing changes |
| Materialized.QueryItems.SetRange | query_iter.go:379-513 | Reversed ranges are ignored; otherwise what is left is the filtered rest, by replay or locally, in every state; the sequence stays exact if and only if its keys are those of the narrowed lazy cursor, after a replay if and only if they are found by keeping leftmost occurrences |
| QueryRanges.SetByteRange | query_iter.go:379-450 | On a cursor that keeps what meets a range, whatever meeting means: a reversed range changes nothing, not even the log; otherwise exactly the range from start to end is logged, an end of zero as 2^32-1, and with a replay exactly the values that meet it are left, in order and exact; without one those the local test keeps, exact if and only if the two tests agree on every value that was left |
| QueryRanges.SetPointRange | query_iter.go:454-513 | The same for points, with the origin as the unbounded end |
| QueryRanges.SharesByte | query.go:4786-4807 | A node meets a byte range that is not empty if and only if its start or one of its bytes lies in it |
| QueryRanges.SharesPoint | query.go:4809-4822 | The same for points |
| QueryRanges.QueryMatchIntersectsByteRange | query_iter.go:1125-1138 | The local test: whether a captured node meets the range, or without captures the root, where it is known |
| QueryRanges.QueryMatchIntersectsPointRange | query_iter.go:1140-1153 | The same for points |
| QueryRanges.RootOutsideCapture | query_iter.go:406-415 | A match whose root meets the range and whose only capture does not: kept by the lazy cursor and by a replay, dropped by the local test |
| Materialized.Run | query_iter.go:306-513 | Replay refinement: over any history of Next and range setters, with any keys and any failing replays, the sequence still matches the lazy cursor if and only if every setter could be made up for, and then it reports what that cursor reports |
| Materialized.DistinctMadeUpFor | query_iter.go:306-513 | With distinct keys every history of replayed setters that only take values away can be made up for |
| Materialized.ReorderedRange | query_iter.go:379-450 | One setter on a sequence with a repeated key leaves 1, 2 where the lazy cursor yields 2, 1 |
| Wire.WriteU16 | internal/wasm/src/wasitter_abi.c:90-94 | Writes the two bytes and no others |
| Wire.WriteU32 | internal/wasm/src/wasitter_abi.c:95-102 | Writes the four bytes and no others |
| Wire.ByteOrder | internal/wasm/src/wasitter_abi.c:90-102 | Low byte first, in words of two and of four bytes |
| Wire.DecodeEntries | query.go:5400-5404 | Reads exactly the capture entries written behind the header |
| Wire.DecodeMatch | query.go:5394-5405 | Yields a match if and only if the bytes start with its record, with the fields and entries at their byte offsets; bytes that start with no record fail |
| Wire.DecodeCaptureMatch | query.go:5804-5832 | Yields a match and a selected capture in range if and only if the bytes start with their record, with the fields and entries at their byte offsets |
| Wire.DecodeCapture | query.go:5735-5741 | Yields a capture if and only if the bytes start with its compact record, field by field at its offset; fewer than 16 bytes fail |
| NodeWrappers.WrapAll | internal/wasm/src/wasitter_abi.c:1401-1421 | Every capture gets a new wrapper and its entry is written, exactly when the allocator grants them all and the guest does not trap; an allocator that runs dry leaves the live wrappers as before, a trap leaves those made |
| NodeWrappers.Wrapping | internal/wasm/src/wasitter_abi.c:1401-1421 | The wrappers made are new, distinct, not null and hold the captured nodes; all earlier ones are as they were |
| NodeWrappers.FreeWritten | internal/wasm/src/wasitter_abi.c:1405-1413 | Frees exactly the wrappers whose entries were written |
| GuestMachine.HoldingSame | internal/wasm/src/wasitter_abi.c:1259-1362 | Once its head is kept, a call of any kind does and answers what it would have done on the state before, unless the copy of the list fails |
| GuestMachine.OutcomeShows | internal/wasm/src/wasitter_abi.c:1375-1550 | What any call writes is the record of its head around live wrappers: the whole match, the selected capture, or the match with the selected capture's ordinal |
| GuestQuery.SWQueryCursor.ClearPending | internal/wasm/src/wasitter_abi.c:1364-1373 | Gives the pending block back |
| GuestQuery.SWQueryCursor.Exec | internal/wasm/src/wasitter_abi.c:1250-1257 | Starts a new stream; the pending block is freed |
| GuestQuery.SWQueryCursor.Pending | internal/wasm/src/wasitter_abi.c:1259-1316 | Keeps the next match and drops a pending capture; a failed or trapped copy loses the match and owns nothing |
| GuestQuery.SWQueryCursor.PendingCapture | internal/wasm/src/wasitter_abi.c:1318-1362 | Keeps the next of a retained match's captures, the kept capture or the native cursor's next; a failed or trapped copy loses it |
| GuestQuery.SWQueryCursor.NextMatch | internal/wasm/src/wasitter_abi.c:1375-1424 | Wrapper, live node wrappers, reply and record are exactly those of the machine, for every state, buffer and failure; the block is owned exactly while something is pending |
| GuestQuery.SWQueryCursor.NextCapture | internal/wasm/src/wasitter_abi.c:1426-1483 | State, reply and record are exactly those of the machine; when bytes are written the node in them is a live wrapper of the captured node that the event's ordinal selects, with its name index |
| GuestQuery.SWQueryCursor.NextCaptureMatch | internal/wasm/src/wasitter_abi.c:1485-1550 | The same for captures with their whole match |
| GuestQuery.SWQueryCursor.RemoveMatch | internal/wasm/src/wasitter_abi.c:1552-1562 | Drops the pending block exactly if it belongs to the removed match |
| GuestRuns.CallAccounts | internal/wasm/src/wasitter_abi.c:1375-1550 | One call of any kind on any state: what it hands over, what it misses and what it leaves are its stream, in order |
| GuestRuns.DeliversIff | internal/wasm/src/wasitter_abi.c:1375-1550 | A call hands over its head if and only if there is one, its list is copied, the buffer is long enough and in range, the guest does not trap and every wrapper is made |
| GuestRuns.MissesIff | internal/wasm/src/wasitter_abi.c:1286-1421 | A call misses something if and only if the list could not be copied, a wrapper could not be made, or a whole-match fetch met a retained match with later captures |
| GuestRuns.CallShows | internal/wasm/src/wasitter_abi.c:1375-1550 | A call hands out bytes if and only if it hands over its head, and they are the record of that head around live wrappers |
| GuestRuns.WholeFetchKeepsRestIff | internal/wasm/src/wasitter_abi.c:1485-1550 | A whole-match fetch leaves the rest of the capture stream if and only if no later capture of a retained match was due |
| GuestRuns.RunAccounts | internal/wasm/src/wasitter_abi.c:1375-1550 | Over any schedule of match calls, or of compact and whole capture calls in any mixture, with any buffers and failures: what is handed over, missed and still to come is the stream, in order |
| GuestRuns.MissedByFailing | internal/wasm/src/wasitter_abi.c:1286-1421 | In any run of any calls, a call misses something if and only if that very call lost it |
| GuestRuns.RunShows | internal/wasm/src/wasitter_abi.c:1375-1550 | In any run a call hands out bytes if and only if it hands over an event; they are its record, and its wrappers are still live at the end |
| GuestRuns.FaultlessRun | internal/wasm/src/wasitter_abi.c:1375-1550 | Without failures nothing is missed, and each call hands over the head if and only if its buffer is long enough |
| GuestRuns.AmpleRun | internal/wasm/src/wasitter_abi.c:1375-1550 | Without failures and with long enough buffers a run of n calls hands over exactly the first n events of the stream, or all of them, and leaves exactly the others |
| GuestRuns.RetainedDrain | internal/wasm/src/wasitter_abi.c:1426-1473 | After a match probe capture calls hand over the captures of that match not yet emitted, each once and in order, then the native stream behind it |
| GuestRuns.MatchCallReplays | internal/wasm/src/wasitter_abi.c:1259-1316 | After k captures of a retained match a match call hands the whole match out, so exactly the first k come twice; once none is due it hands out the next match, and what is left is given |
| GuestRuns.CaptureNeverReplayed | internal/wasm/src/wasitter_abi.c:1259-1316 | After a capture probe match calls hand over exactly the matches behind the kept capture |
| GuestRuns.RunCalls | internal/wasm/src/wasitter_abi.c:1375-1550 | The wrapper makes every such run exactly as the machine does, with every reply and record, and owns one block exactly while something is pending |
| HostTree.Tree.RegisterNode | tree.go:82-106 | An open tree records the wrapper; a closed one frees it and yields no node |
| HostTree.Tree.Close | tree.go:811-853 | Frees each registered wrapper once; those whose delete fails are left to nobody; a second call changes nothing |
| HostTree.FreeExcept | query.go:5923-5958 | Frees every wrapper of a record but the kept one and those whose delete fails |
| HostTree.RegisterAll | query.go:5275-5279 | Every wrapper of a record is registered |
| HostTree.ViewOfWrapped | query.go:5394-5405 | The record the host decodes denotes exactly the match the guest wrapped |
| HostMachine.ReadEnds | query.go:5357-5406 | A read of any kind, from any pending state, ends as one function of the failures of its own calls says (`EndingOf`), hands over the head exactly when it ends with a value, and leaves guest and wrappers accordingly |
| HostMachine.EndingCaused | query.go:5357-5406 | Every other ending has its cause among the failures of that read: lost needs a refused or trapped copy or a missing wrapper, missed an unread answer, stalled a failed probe, buffer, fetch or trap; exhausted only at the end of the stream |
| HostMachine.BenignEnding | query.go:5357-5406 | Without failures a read gets the head, or the end of the stream |
| HostMachine.TrySettles | query.go:5256-5288 | A step registers what it accepts and frees what it refuses; earlier wrappers stay, new ones are registered or left to nobody, and none is left over if and only if the deletes it makes succeed and the read left none |
| HostMachine.StaysOwned | query.go:5256-5288 | Every live wrapper is registered in the tree, or belongs to others, to which exactly those left over are added |
| HostMachine.ReadLeaksIff | query.go:5357-5393 | A read of any kind that yields nothing leaves wrappers to nobody if and only if a fetch with room and in range was made on something ready and, after making wrappers, trapped or gave nothing that could be read |
| HostDrains.TryOwes | query.go:5838-5979 | For every ending, what a step leaves of the stream as the text predicates filter it, removals of refused matches included |
| HostDrains.MatchesFiltered | query.go:5256-5288 | For matches that filtered stream is the native stream filtered by the predicates |
| HostDrains.SearchServes | query.go:5220-5318 | A search takes only refused values before its last step, and hands over the head of the filtered stream or ends at its end or by a failure of that last step; wrappers stay accounted for, and none is left over if and only if no delete failed and the last step left none |
| HostDrains.SearchHolds | query.go:5889-5960 | With whole matches asked for, every capture of the value handed over is a registered live wrapper of that capture's node; without, the selected capture is the only node the search registers, and every other wrapper of the record is gone unless its delete failed |
| HostDrains.BenignSearch | query.go:5220-5318 | Without failures a search finds the head of the filtered stream unless it is empty, and leaves no wrapper over |
| HostDrains.CollectDrains | query_iter.go:686-730 | Under any failures a drain hands over the filtered stream in order, each value with registered live wrappers, up to what its last step took or left, and that step's ending has its cause among its own failures |
| HostDrains.CollectHolds | query_iter.go:732-795 | The same at the end of a drain, for every value it returns |
| HostDrains.BenignCollect | query_iter.go:686-730 | Without failures a drain hands over exactly the filtered stream, ends at its end and leaves no wrapper over |
| HostCaptures.CaptureServes | query.go:5441-5474 | Reading a compact capture takes the head of the capture stream, pending or not, as a registered live wrapper of the capture its ordinal selects; for every ending what else is taken, what is left over and the cause among its own failures is given |
| HostCaptures.FlatCallServes | query.go:5481-5613 | Bridges without a capture iterator: what is due is the queue and then the captures of the matches the text predicates accept; each call yields the head of that as a registered live wrapper, or its search ended and what is left is given |
| HostCaptures.BenignFlat | query.go:5481-5613 | Without failures such a call yields the head of the flattened stream unless it is empty, and leaves no wrapper over |
| HostQuery.QueryCursor.EnsureScratch | query.go:4592-4632 | The buffer fits the required size, reused when large enough and else of the size doubling gives within the bound; a failed growth keeps the old one |
| HostQuery.QueryCursor.NextNativeMatch | query.go:5357-5406 | Probe, fetch and decode do exactly the machine's read of a match and decode its head |
| HostQuery.QueryCursor.TryMatch | query.go:5256-5288 | Guest, wrappers, buffer and registered nodes are exactly those after the machine's step, and so are result and refusal |
| HostQuery.QueryCursor.NextMatch | query.go:5220-5318 | The loop does exactly the machine's search: state and result are given for every failure schedule; a closed tree changes nothing |
| HostQuery.QueryCursor.CollectMatches | query_iter.go:686-730 | The drain returns exactly the machine's results and leaves its state, for every failure schedule |
| HostQuery.ResultsHold | query.go:5275-5288 | What searches and drains return are the matches read, around exactly the entries decoded, with the selected ordinal |
| HostQuery.LeakExample | query.go:5377-5384 | One match with one capture, whose fetch answer is lost: its wrapper is live and registered nowhere |
| HostQuery.QueryCursor.NextNativeCapture | query.go:5707-5742 | Fetch and decode do exactly the machine's read of a compact capture |
| HostQuery.QueryCursor.NextCapture | query.go:5441-5474 | State and result are exactly those of the machine's step on a compact capture; a capture handed out names a registered live wrapper of the captured node that its ordinal selects, with its name index |
| HostQuery.QueryCursor.NextNativePredicateCapture | query.go:5766-5833 | Probe, fetch and decode do exactly the machine's read of a capture with its match |
| HostQuery.QueryCursor.TryPredicateCapture | query.go:5838-5979 | State, result and refusal are exactly those of the machine's step: wrappers registered or freed, the refused match removed when the bridge can |
| HostQuery.QueryCursor.NextPredicateCapture | query.go:5838-5979 | The loop does exactly the machine's search over capture events; a value handed out is held as `SearchHolds` says |
| HostQuery.QueryCursor.CollectCaptures | query_iter.go:732-795 | The drain returns exactly the machine's events with their matches and leaves its state; every capture of every match returned is a registered live wrapper of its node |
| HostQuery.QueryCursor.NextFlattenedCapture | query.go:5481-5613 | Queue, state and result are exactly those of the machine's flattened call |
| Unicode.Utf8RoundTrip | node.go:1197-1215 | Decoding undoes UTF-8 encoding (section 3 of RFC 3629) |
| Unicode.Utf16RoundTrip | node.go:1197-1215 | Decoding undoes UTF-16 encoding (sections 2.1 and 2.2 of RFC 2781) |
| Unicode.CutSplits | node.go:1197-1215 | Text splits at every rune boundary, lone surrogates included |
| Unicode.TextBetweenCuts | node.go:1216-1244 | The units between two rune boundaries read as the bytes between their offsets |
| Coordinates.BuildBoundaries | node.go:1180-1214 | The table lists every rune boundary with its byte offset; fails exactly when the text passes 2^32-1 bytes |
| Coordinates.FindStart | node.go:1221-1228 | The first boundary at or after the start byte |
| Coordinates.FindEnd | node.go:1229-1236 | The last boundary at or before the end byte |
| Coordinates.Utf16UnitRangeForUTF8Bytes | node.go:1172-1244 | Succeeds exactly for offsets within the text; always 0 <= start <= end <= length; a crossed range is empty |
| Coordinates.AlignedSliceIsExact | node.go:1172-1244 | On rune-aligned ranges the returned units decode to exactly the byte range |
| Coordinates.SliceHoldsWholeRunes | node.go:1172-1244 | On any range the units are exactly the whole runes within it; a crossed range, whose slice is empty, holds none |
| Coordinates.Utf16Text | node.go:1145-1164 | The node text in units decodes to the node's bytes |
| Collectors.AdvancePoint | parser.go:608-618 | The point of the text so far, byte by byte |
| Collectors.PointBounds | parser.go:608-618 | Row and column together never exceed the length, so neither overflows below 2^32 |
| Collectors.OverflowsIff | parser.go:602-607 | Within the call limit the collector overflows exactly when the whole text does |
| Collectors.CollectInput | parser.go:592-623 | Any splitting of the input gives the whole text; each callback sees the offset and point of what came before; fails exactly when the text passes 2^32-1 or the call limit of 2^20 is reached |
| Collectors.CollectUTF16BytesInput | compat_parser_extra.go:74-118 | The same for UTF-16 bytes split anywhere, even inside a unit: points count complete units, odd lengths are rejected |
| Collectors.Utf16BytesToUTF8 | compat.go:93-102 | Even byte strings decode to the text of their units, odd ones fail |
| Collectors.CollectInputEncoding | compat_parser_extra.go:49-68 | Collecting and decoding succeeds exactly within the limits and on even lengths, and yields the whole text |
| Collectors.OneTextThreeForms | compat.go:308-334 | Little-endian bytes, big-endian bytes and units of one text decode to the same UTF-8 |
| Locks.OpDisciplined | cursor.go:1484-1566 | Every operation takes its locks in rank order, pairs under their coordinator, and gives all back |
| Locks.PairReturns | tree.go:631-643 | Two tree locks are taken under the coordinator, used and given back |
| Locks.StepKeepsSafe | tree.go:41-47 | Every lock step keeps holders compatible and programs disciplined |
| Locks.NeverStuck | cursor.go:1371-1391 | With writer-preferring locks no disciplined state is stuck |
| Locks.NoDeadlock | tree.go:621-643 | Any number of ResetTo, Reset, cursor moves, Equal, registerNode, ChangedRanges, Edit and Tree.Close in any interleaving never deadlock |
| Locks.RunCompletes | tree.go:621-643 | From every reachable state some schedule finishes all operations |
| Locks.UncoordinatedPairsStick | node.go:1341-1355 | Without the coordinator two readers in opposite orders and two waiting writers are stuck: the coordinator is needed |
| Lifetime.StepKeeps | query.go:4376-4536 | Every step of Exec, NextMatch/NextCapture, cancellation and the three Close calls keeps locks, gates and what threads rely on consistent |
| Lifetime.UsesAreLive | query.go:5220-5264 | In every interleaving a guest call that dereferences a tree or query runs while it is allocated, open and not locked exclusively |
| Lifetime.GateStep | query.go:4363-4370 | A start finds no gate held, a release finds the tree held for this cursor, and after every terminal path no tree is held for it |
| Lifetime.ReleasedOnce | query.go:4363-4370 | Over every run each gate taken is released exactly once, save the one still held |
| Lifetime.NothingLeaks | tree.go:811-853 | Once all cursors are closed and all calls returned, every tree can be closed |
| Lifetime.DestroyedAfterTree | query.go:5247-5251 | A concrete run in which an exhausted cursor, whose gate is already released, is destroyed after its tree was freed |
| Progress.WaitsIffTaken | query.go:4376-4536 | A call under way waits if and only if the mutex, query lock or tree gate it takes next is held against it, whatever the guest calls answer |
| Progress.SearchEnds | query.go:5220-5318 | A search hands a match out if and only if the guest found one and the predicates pass it, and ends the execution if and only if its tree, handle or query is gone or the guest finds nothing more |
| Progress.NeverStuck | tree.go:811-853 | In every reachable state in which a call is under way some call under way can move |
| Progress.CallsReturn | query.go:4376-4536 | After any run some schedule lets every call under way return, without another being started |
| Progress.ClosedIsFreed | query.go:5983-6026 | Over every run, once all calls have returned, exactly the closed trees and queries are freed and no closed cursor has a guest handle left |
| Progress.FreedOnce | tree.go:811-853 | Over every run, whoever is about to free a tree or a query finds it not yet freed |
| Destructor.DanglesIff | query.go:5983-6026 | Over every schedule a handle points into a freed tree if and only if a step released its gate and kept it, none has destroyed or rebound it since, and the tree was freed after the release; with its gate held it never does |
| Destructor.NeverDangles | tree.go:811-853 | When each Tree.Close finds the cursors of its tree closed or canceled, no handle ever points into a freed tree |
| Coordinator.JamStays | tree.go:49-80 | While an `Exec` holds the coordinator and waits for a gate that a `Tree.Close` waits for too, no execution starts on any tree, whatever else happens, until as many executions on that tree have ended as hold its gate |
| Coordinator.StuckIffJam | query.go:4411-4417 | The coordinator can come free by the threads' own steps if and only if there is no such jam |
| Coordinator.EndingFrees | tree.go:811-853 | Draining or closing the cursors that hold the gate ends a jam: some schedule then lets the closes and the execution through |
| Coordinator.OneCursorJams | tree.go:49-80 | One undrained cursor, a waiting close of its tree and an `Exec` on that tree make a jam |
| QueryText.SkipQueryQuoted | query.go:3599-3616 | The end of the string, or of the text when it never closes |
| QueryText.SkipQueryComment | query.go:3618-3623 | The newline that ends the comment, or the end of the text |
| QueryText.SkipFallbackSpace | query.go:2674-2688 | Past blanks, commas and comments, within the bound |
| QueryText.FallbackBalancedEnd | query.go:2793-2834 | Where the delimiter is closed, reading strings and comments as such |
| QueryText.ScanTextPredicateEnd | query.go:3629-3647 | From every offset it finds what the mode-keeping delimiter scanner finds with one parenthesis open |
| QueryText.StringJump | query.go:3599-3616 | Skipping a string at once is the same as reading it byte by byte |
| QueryText.Classes | query.go:3578-3585 | The bytes that start or continue a name, separate tokens or quantify, by their ASCII codes |
| QueryText.NeutralPair | query.go:2793-2834 | Delimiters around text that both scanners pass make such text again |
| QueryValidator.NeutralPattern | query_fallback_validate.go:68-150 | Every accepted pattern is passed by the delimiter scanners at every depth and for both kinds of delimiters |
| QueryValidator.ParenAgreement | query_fallback_validate.go:152-209 | An expression accepted from its opening parenthesis up to m is closed at m-1 for the scanner, under every bound |
| QueryValidator.BracketAgreement | query_fallback_validate.go:308-331 | The same for alternations |
| QueryValidator.PredicateAgreement | query_fallback_validate.go:333-368 | From behind a predicate's operator or any argument the predicate scanner stops where the validator stops |
| QueryParser.FallbackStructureParser.ParsePattern | query_fallback_validate.go:68-150 | The running parser gives the grammar's outcome: the new position or the place of the error |
| QueryParser.FallbackStructureParser.ParseParen | query_fallback_validate.go:152-209 | Likewise for groups, predicates and nodes |
| QueryParser.FallbackStructureParser.ParseNode | query_fallback_validate.go:211-306 | Likewise for node expressions |
| QueryParser.FallbackStructureParser.ParseAlternatives | query_fallback_validate.go:308-331 | Likewise for alternations |
| QueryParser.FallbackStructureParser.ParsePredicate | query_fallback_validate.go:333-368 | Likewise for predicates |
| QueryParser.FallbackStructureParser.ParseQuoted | query_fallback_validate.go:370-383 | Likewise for strings; a refused string leaves the position alone |
| QueryParser.ValidateFallbackStructure | query_fallback_validate.go:22-33 | No error exactly when the whole text is a query, otherwise the error's place |
| QueryGrammar.AcceptedIffQuery | query_fallback_validate.go:22-383 | The recursive-descent validator accepts a text if and only if the text has a parse tree of the grammar, told without lookahead: groups and alternations are not empty, anchors precede a pattern, marks and names are whole, literals close and decode |
| QueryGrammar.PatternSound | query_fallback_validate.go:68-150 | Whatever the validator reads as a pattern has a parse tree that starts and stops where it does |
| QueryGrammar.TreeComplete | query_fallback_validate.go:68-150 | Every parse tree is read as a pattern, to exactly where it stops |
| QueryGroups.ParseFallbackTopLevelWithGroups | query.go:2406-2672 | The loop collects the patterns of the text with their numbers and spans |
| QueryGroups.FallbackPatternCount | query.go:2151-2167 | One more than the largest number, zero for none, never beyond 32 bits |
| QueryGroups.NumbersFit | query.go:2375-2387 | All numbers and the counter stay within 32 bits, for texts of any length |
| QueryGroups.ForcedKeepsCounter | query.go:2375-2387 | Inside an alternation no number is used up |
| QueryGroups.CollectNumbers | query.go:2406-2672 | For every accepted text: numbers in source order below the count, one span per number, spans of different numbers disjoint and increasing |
| QueryGroups.NumbersCarriedIff | query.go:2569-2582 | Every number below the count belongs to a pattern if and only if no top-level alternation holds only blanks, comments, quantifier bytes, expressions without a node type and alternations of that kind |
| QueryGroups.BarrenIff | query.go:2406-2672 | The parser accepts a text and finds no pattern in it if and only if the text holds nothing that could be one |
| QueryGroups.AcceptedIffReadable | query.go:2406-2672 | The grouping parser accepts exactly the texts made of blanks, comments, quantifier bytes, parenthesised expressions that close, literals that close within bounds and decode, and alternations of these, whatever numbers it has given out |
| QueryGroups.EmptyChoiceSkipsNumber | query.go:2569-2582 | `[*](a)`: number 0 belongs to no pattern |
| QueryAcceptance.AtomAccepted | query_fallback_validate.go:68-117 | Printed nodes with fields and children, literals, alternations and groups are read to their last byte |
| QueryAcceptance.GroupAccepted | query_fallback_validate.go:152-209 | A group of any printed patterns and predicates, nested to any depth, is read to its closing parenthesis, whether it begins with a pattern or with a literal |
| QueryAcceptance.PatternAccepted | query_fallback_validate.go:68-150 | Printed patterns with a quantifier and captures are read up to the next token |
| QueryAcceptance.QueryAccepted | query_fallback_validate.go:22-33 | The validator accepts every printed query |
| QueryRoundTrip.NodeTypeFound | query.go:2836-2879 | A node type is found in every printed node, and in every printed group however deeply its first node or literal is nested |
| QueryRoundTrip.GroupedChoiceIsSkipped | query.go:2836-2879 | A group that begins with an alternation is accepted by the validator, and the grouping parser makes no pattern of it |
| QueryRoundTrip.DottedPredicateIsPattern | query.go:2973-2976 | Every predicate the validator accepts with a dot in front is numbered as a pattern of its own by the grouping parser |
| QueryRoundTrip.PatternRound | query.go:2406-2672 | A printed pattern, groups with captures and predicates inside included, is cut off whole, under one number and with its span |
| QueryRoundTrip.BranchesCollected | query.go:2569-2582 | An alternation's branches are found inside its brackets and use up no number |
| QueryRoundTrip.PrintedQueryIsRead | query.go:2406-2672 | Print-then-parse: every printed query is accepted and cut into patterns numbered 0 to n-1 in source order, each number carried, each pattern with exactly the span of its line, spans disjoint and increasing, and the pattern count is n |
| QueryRoundTrip.EmptyChoiceIsAccepted | query_fallback_validate.go:308-331 | The validator accepts `[*](a)`, so the gap in the numbers is reachable |

## Left out

- WebAssembly calls, export lookup, signature checks and traps as such: a failed call is a parameter of the method that makes it.
- The Tree-sitter engine and grammar tables, `regexp` and the text predicates themselves: streams and an accept/reject test.
- Native node accessors (ranges, counts, children) are taken not to fail; only cursor, query and allocation calls do.
- A trap inside the native engine, which leaves its state undefined, and one between two writes of a record or two frees: a call traps while it copies a list, between two wrappers, or not at all.
- Progress callbacks: `HostQuery` drains to the end or the first failure; `Materialized` takes a cancelled drain as a prefix and `Lifetime` models the cancellation.
- A guest that answers a fetch with a size of its own choice or with bytes it did not write: answers are the wrapper's own, missing, too wide, too short or unreadable.
- Guest descendant indexes are taken to be visible pre-order; the native reverse-sibling quirk is not modelled.
- Trees closed or edited while a cursor moves: the cursor and iterator models work on one fixed tree; closing is modelled in `Lifetime` and `Locks`.
- Cursor.TreeCursor.constructor: an attached guest cursor is modelled for subtrees of at most 2^32 nodes, which a 32-bit guest cannot exceed; without a guest there is no bound.
- `GoToNextNamedSibling`, `GoToPreviousNamedSibling`, field names and ids of the cursor: loops and lookups over the modelled moves.
- `encodeRanges`, `decodeRanges`, `encodeInputEdit`, `pointForBytes`, `decodeCustomInput` and the bump allocator of `allocLocked`: straight-line packing, which would add only easy members.
- The cursor's `RemoveMatch`, match limits, depth limits, timeouts and the fallback matcher: options around the modelled streams.
- Locks.NoDeadlock: trees of one request belong to one runtime; the gate held across a whole execution and the query lock are modelled in `Lifetime`, and the gate with its coordinator in `Coordinator`, which shows when waiting can end.
- Runtimes, the compatibility matcher and the cached scratch buffer are not part of `Lifetime`.
- Covering.SmallestCover: requires ordered, disjoint, contained children, as Tree-sitter trees have; `Covering.DescendantFallback` says what the descent does on any tree.
- Query text is read as bytes; the check for non-ASCII bytes outside strings and the test for blank queries that run before the validator are left out.
- QueryGroups.ParseFallbackTopLevelWithGroups: of a pattern only number and span are kept; captures, quantifier values and predicate contents are not.
- QueryRoundTrip.PrintedQueryIsRead: the printed form has no anchors, negated fields, wildcards, `MISSING`, supertypes, predicates inside nodes or alternations, or repeated quantifiers; a group begins with a node, a group or a literal that is not empty, and any other group is skipped; validator and grouping parser differ on several of them.
- Metadata clones, error texts, S-expressions, `language.go`, `lookahead.go`, `builtin.go`, the build tools: thin or cosmetic.
