# Verified models of the Cirron SDK's bookkeeping

This project models, in Dafny 4.11, the bookkeeping machines of the Cirron profiling SDK and proves
what they keep. `dafny verify dfyconfig.toml` checks everything.

| file | what it is about |
|---|---|
| `ScopeMachine.dfy`, `ScopeRuns.dfy`, `ScopeDrops.dfy`, `ScopeStack.dfy` | The scope stack. `ScopeMachine` is a transition system: each public operation of any thread or request is one atomic step and the cross-thread drain is a sequence of single removals. `ScopeRuns` and `ScopeDrops` prove what whole runs guarantee, and show runs where a promise fails. `ScopeStack` is the same code as mutable objects, each method proved to take its step. |
| `CudaTiming.dfy`, `ScopeCuda.dfy` | Deferred closing of GPU-timed spans: pending event pairs, the event pool, the reaping cadence; and the pairs beside the scope machine. |
| `SpoolPass.dfy`, `SpoolNames.dfy`, `SpoolRuns.dfy`, `SpoolWriter.dfy` | The byte-capped spool directory shared with peer ranks: one cap pass under arbitrary interference, file names, whole runs of one writer, and the writer object itself. |
| `StreamTrace.dfy`, `StreamStack.dfy` | Streaming SQL loads: what a stream delivers as a function of what the drivers answer, and the stack of generator frames over database connections that delivers it. |
| `JsonSafe.dfy`, `JsonUnfold.dfy`, `JsonEncode.dfy`, `JsonLeaves.dfy` | The strict-JSON sanitizer over a heap of possibly shared or cyclic containers, the `attrs` fast path, the encoder with its retry, and where each part of a value ends up. |
| `StatsKernel.dfy`, `StatsWire.dfy` | Tensor statistics, the rerun over finite elements, and their wire form. |
| `TraceBuffer.dfy` | The bounded in-memory trace buffer against the log of everything added to it. |
| `TraceTree.dfy`, `TraceWalk.dfy`, `TraceFilter.dfy` | Building and printing the span forest, the depth column, and filtering by name over links that may be cyclic. |
| `MarkText.dfy` | UTF-8 truncation of string marks. |
| `BlobMachine.dfy`, `BlobQueue.dfy` | Blob uploads with retries, as a state machine and as the queue and flush thread that refine it. |
| `Supervisor.dfy` | The supervisor's sliding window, latch and backoff. |
| `SqlText.dfy` | Composing SELECT text, and a scanner that reads it back. |

How the parts fit: where the SDK updates objects in place, a class does so too and its methods' contracts
equate the new state with a function of the old one; the theorems are lemmas about those functions. What the
outside world does is a parameter: a schedule of peer actions and refused unlinks, the answers of a database
driver, the outcome of each upload or CUDA call, the clock, Python's text conversion, the numeric library's
reductions. Every theorem holds for all of them.

Where the code falls short of a plain reading of what it promises, the model keeps the code and states exactly
when the promise holds:

* A scope is lost exactly when it is emitted by owner (`close_scope`, the fallback of `close_and_remove`,
  `emit_closed`) while the owner's thread id is not registered (`ScopeMachine.LostExactlyWhen`). This happens to a
  request span on a thread that never opened a scope of its own (`ScopeRuns.LossHappens`). Once the owner is
  registered a span not lost by then never is (`ScopeRuns.RegisteredSpanIsAccountedFor`).
* A closed span waits where no drain looks exactly when it waits in the state it was pushed on and that state was
  not registered at the push (`ScopeRuns.StrandedExactlyWhen`). This happens when a drain prunes a request between
  its being entered and its first push (`ScopeRuns.StrandingHappens`), so entering and pushing must be one step.
* Entering a request under a key in use is harmless exactly when nothing waits in the replaced state and nothing on
  its stack still runs (`ScopeRuns.OverwritingIsSafeExactlyWhen`).
* `emit_closed` has no guard: with a registered owner the ledger stays right exactly when the scope is still owed
  an emission. Any other span ends up in two places: still running or evicted and yet in a deque, or emitted twice
  (`ScopeMachine.EmitIsSafeExactlyWhenOwed`).
* `drop_count_all` sums over the states registered now. Each step hides exactly the drops of an idle request it
  forgets, or the one drop it makes on an unregistered state (`ScopeDrops.StepMisses`); over a run the count falls
  short by the sum of these (`ScopeDrops.DropCountAllExactlyWhen`), and a run of 65 pushes shows it
  (`ScopeDrops.ForgettingHappens`).
* Name order is creation order exactly for times below 10^20 ns (`SpoolNames.ChronologicalExactlyBelow`).
* A forced CUDA drain empties the list exactly when every pending span has its end time
  (`CudaTiming.ForcedDrainEmpties`).
* `_json_safe` is the identity on a clean value exactly when at most 32 of its containers nest
  (`JsonUnfold.CleanUnchangedUpToLimit`).
* `dumps` promises never to lose an object, and its retry to leave the encoder nothing to reject. But the sanitizer
  passes ints by reference and the interpreter refuses to print one of more than a limited number of digits (4300
  unless set otherwise), so a single attr can cost the batch (`JsonEncode.LongAttrIsRejected`). An object is lost
  exactly when the first attempt fails and either a container changes under the retry or an over-long int in value
  position is reached through at most 32 containers, none of them twice, by list elements and dict values whose key
  text does not recur later (`JsonEncode.RejectedExactlyWhen`). Without over-long ints in value position nothing
  that holds still is lost (`JsonEncode.ShortIntsAreNeverRejected`).
* `stats_to_wire` looks into the `finite` block only below a record that needed substitution itself; the wire
  form is free of non-finite floats exactly when no dirty block hides below a clean record
  (`StatsWire.WireIsFiniteExactlyWhen`). The statistics kernels never produce such a record.
* The printed tree shows every span exactly when the parent links are acyclic
  (`TraceWalk.AllPrintedExactlyWhenAcyclic`); it ends either way.
* `mark` documents ValueError and TypeError; a string with a lone surrogate raises UnicodeEncodeError instead
  (`MarkText.CoerceString`).

## Model

| member | source | states |
|---|---|---|
| ScopeMachine.InvNext | src/cirron/core/scope.py:292-649 | Every operation, run by any thread in any context, keeps: stacks of at most 64 in push order holding every open span, parents pushed earlier, each span where the ledger says and there once, drops counted. |
| ScopeMachine.InvConserved | src/cirron/core/scope.py:354-649 | Under the invariant every span ever pushed is in exactly one of: open, held, one closed deque, drained, evicted, lost; no deque or list holds a span twice and no two deques share one. |
| ScopeMachine.NothingTwiceNothingLost | src/cirron/core/scope.py:292-649 | Over every interleaving from the empty stack: that conservation, the stack bounds and orders, and total drops = refused pushes + evictions. |
| ScopeMachine.ThreadSpansStayReachable | src/cirron/core/scope.py:453-477 | A span pushed on a thread's own default state is never lost, its state stays registered, and if it waits it waits in a registered deque. |
| ScopeMachine.TrackedSpansStayReachable | src/cirron/core/scope.py:466-476 | The state of an open span that was registered at its push (request states included) stays registered, and so does the one it waits in: pruning removes neither. |
| ScopeMachine.PruningStrandsLaterSpans | src/cirron/core/scope.py:466-476 | From every state where an idle request entry is pruned, the span pushed and popped there next ends in a deque that is not registered. |
| ScopeRuns.StrandedExactlyWhen | src/cirron/core/scope.py:453-476 | Over every run a closed span waits in a deque no drain enumerates if and only if it waits in the state it was pushed on and that state was unregistered at the push. |
| ScopeRuns.StrandingHappens | src/cirron/core/scope.py:466-485 | A four-step run from the empty stack ends that way: enter, prune, push, pop. |
| ScopeRuns.ReachNext | src/cirron/core/scope.py:276-281 | Every step keeps: one registry entry a state, a state unregistered at a push stays unregistered, a span waiting away from home waits with its owner's thread. |
| ScopeRuns.NeverLostOnceRegistered | src/cirron/core/scope.py:534-545 | From any moment at which the owner's thread id is registered and the span is not lost, it is never lost, whichever state it was pushed on. |
| ScopeRuns.RegisteredSpanIsAccountedFor | src/cirron/core/scope.py:292-649 | Over every run such a span is then in exactly one of: open, held, one closed deque, drained, evicted. |
| ScopeRuns.LossHappens | src/cirron/core/scope.py:534-537 | A three-step run from the empty stack loses a span: enter a request on a thread without a state, push, close out of band. |
| ScopeRuns.LeadsSomewhere | src/cirron/core/scope.py:292-649 | Every list of steps enabled in turn is a run: the invariant asked for along a run excludes none. |
| ScopeRuns.NextMoves | src/cirron/core/scope.py:354-649 | In any step a waiting span stays in its deque or is drained or evicted, one that is out stays out, and a held one moves only by its emission. |
| ScopeRuns.DrainLeavesNothingBehind | src/cirron/core/scope.py:440-465 | Interleaved with anything: what waited in a deque before a drain found it empty is drained or evicted. |
| ScopeRuns.ChainsGrowWithoutBound | src/cirron/core/scope.py:547-585 | A run of pushes and closes below, on a stack of at most two, builds a parent chain of any length. |
| ScopeRuns.StopClockCuts | src/cirron/core/scope.py:597-618 | The owner's deferred close cuts the span out of the stack, the rest in order, and touches no deque and no other stack. |
| ScopeRuns.StoppedIsNoParent | src/cirron/core/scope.py:597-598 | The next push on that state does not nest under the span that ended. |
| ScopeRuns.PushNestsUnderTop | src/cirron/core/scope.py:334-351 | A new span's parent is the innermost span on its state, none on an empty stack. |
| ScopeRuns.OverwritingIsSafeExactlyWhen | src/cirron/core/scope.py:674-677 | Entering a request under a key in use keeps the invariant if and only if the replaced state has nothing closed and nothing running. |
| ScopeMachine.LostExactlyWhen | src/cirron/core/scope.py:534-537 | A step loses a span if and only if it emits that span by owner while the owner's id is unregistered. |
| ScopeMachine.EmitIsSafeExactlyWhenOwed | src/cirron/core/scope.py:625-649 | With a registered owner, `emit_closed` keeps the invariant, and every span in exactly one place, if and only if the span is held (or was lost). |
| ScopeDrops.StepMisses | src/cirron/core/scope.py:468-506 | Each step widens the gap between real and reported drops by exactly what can be read off before it: the drops of an idle request it forgets, or one drop on an unregistered state. |
| ScopeDrops.DropCountAllExactlyWhen | src/cirron/core/scope.py:493-506 | Over every run reported drops plus the drops its steps hid are the real ones: refused pushes and evictions. |
| ScopeDrops.LeavingForgetsDrops | src/cirron/core/scope.py:681-685 | In every run forgetting an idle request lowers the reported count by exactly that request's drops. |
| ScopeDrops.ForgettingHappens | src/cirron/core/scope.py:681-685 | A run from the empty stack, 65 pushes and 64 pops and drains in a request, reports one drop; leaving the request makes it report none. |
| ScopeMachine.InvPush | src/cirron/core/scope.py:322-352 | Pushing keeps the invariant, both when it opens a span and when the depth limit refuses it. |
| ScopeMachine.InvPop | src/cirron/core/scope.py:375-398 | Popping keeps it, also for a span that was closed out of band before. |
| ScopeMachine.InvCloseScope | src/cirron/core/scope.py:526-545 | Closing out of band, without touching the stack, keeps it. |
| ScopeMachine.InvCloseAndRemove | src/cirron/core/scope.py:564-585 | Closing with removal from mid-stack keeps it, with both fallbacks. |
| ScopeMachine.InvFinalizeDeferred | src/cirron/core/scope.py:610-623 | Stopping the clock without emitting keeps it. |
| ScopeMachine.InvEmitByOwner | src/cirron/core/scope.py:642-649 | Emitting a span not yet emitted keeps it, whether or not the owner is known, and through a full deque. |
| ScopeMachine.InvPopLeft | src/cirron/core/scope.py:461-465 | One `popleft` of a drain keeps it. |
| ScopeMachine.InvForget | src/cirron/core/scope.py:468-476 | Forgetting an idle request entry keeps it. |
| Scopes.ScopeStack.GetState | src/cirron/core/scope.py:266-281 | The context's state, else the thread's, else a fresh one registered under the thread id: the Register step. |
| Scopes.ScopeStack.EnterRequest | src/cirron/core/scope.py:674-678 | A fresh state under the request's key, replacing one in use: the Enter step; with a new key the invariant holds after it. |
| Scopes.ScopeStack.Forget | src/cirron/core/scope.py:683-685 | Removes the entry only when nothing is open or waiting in it: the Forget step. |
| Scopes.ScopeStack.Push | src/cirron/core/scope.py:322-352 | None exactly at 64 open spans, counted, nothing changed; else a new running span on top, its parent the span that was on top: the Push step. |
| Scopes.ScopeStack.Pop | src/cirron/core/scope.py:375-398 | The innermost span comes off; if it was running it gets its end time and goes into the bounded deque, else neither changes: the Pop step. |
| Scopes.ScopeStack.CloseScope | src/cirron/core/scope.py:526-545 | No stack changes; a running span gets its end time and goes into the deque registered under its owner's thread id, if there is one, and into no other: the CloseScope step. |
| Scopes.ScopeStack.CloseAndRemove | src/cirron/core/scope.py:564-585 | For the owner with the span on the stack: it is cut out, the rest in order, and goes into that state's deque if it was running; else exactly as close_scope. |
| Scopes.ScopeStack.FinalizeDeferred | src/cirron/core/scope.py:610-623 | For the owner with the span on the stack it is cut out, the rest in order; else the stack is unchanged. No deque changes; an end time once set is kept. |
| Scopes.ScopeStack.EmitClosed | src/cirron/core/scope.py:642-649 | Any span, unguarded, goes into the deque registered under its owner's thread id, if there is one; no stack changes; a held one keeps the invariant. |
| Scopes.ScopeStack.DrainState | src/cirron/core/scope.py:460-465 | Drains one deque left to right, in order, leaving every other deque and every stack alone. |
| Scopes.ScopeStack.DrainClosedAll | src/cirron/core/scope.py:451-477 | A run of single removals and prunings. Undisturbed, what comes out is exactly what waited in the registered deques, all of which end empty, and an entry is gone afterwards if and only if it is a request with an empty stack. |
| Scopes.ScopeState.AppendClosed | src/cirron/core/scope.py:187-199 | Appending to a full deque drops the oldest entry and counts one drop; else nothing is dropped. |
| CudaTiming.DrainSplits | src/cirron/hooks/_torch_impl.py:187-218 | A drain divides the pending spans between kept and emitted, none in both, lost or doubled, and emits only spans with an end time. |
| CudaTiming.ForcedDrainEmpties | src/cirron/hooks/_torch_impl.py:182-218 | Whatever the timing calls do, a forced drain empties the list if and only if all pending spans have an end time, and then emits them in order. |
| CudaTiming.DrainKeeps | src/cirron/hooks/_torch_impl.py:187-211 | A drain keeps, in order, exactly the pairs whose span has not ended or, unforced, whose end event has not completed. |
| CudaTiming.DrainReleases | src/cirron/hooks/_torch_impl.py:196-211 | It emits, in order, exactly the spans of the others: those that can be read and those whose reading raises. |
| CudaTiming.RecycleOk | src/cirron/hooks/_torch_impl.py:215-217 | Returning a released pair keeps the pool distinct, at most 64, and disjoint from all other pairs. |
| CudaTiming.CudaPending.Start | src/cirron/hooks/_torch_impl.py:372-381 | The span has a start event exactly if one was to be had, from the pool or newly, and was recorded; every event stays in at most one of pool, open span, pending pair. |
| CudaTiming.CudaPending.Drain | src/cirron/hooks/_torch_impl.py:165-218 | By index lists over the old pairs: a pair leaves and its span is emitted if and only if the span has ended and it is forced, readable or raising; both lists keep their order. Events come back only from pairs that were read, and from each of those while two more fit into 64. |
| CudaTiming.CudaPending.CloseOrDefer | src/cirron/hooks/_torch_impl.py:432-456 | The span is queued behind the others exactly if it had a start event, an end event could be recorded and finalizing worked, else emitted at once; then the reaping cadence applies. Every ended span is emitted once or pending once. |
| CudaTiming.CudaPending.QueueAndFinalize | src/cirron/hooks/_torch_impl.py:407-451 | The span is pending afterwards, or, if finalizing raises, its pair is discarded and it is emitted at once; never both. |
| CudaTiming.CudaPending.Reap | src/cirron/hooks/_torch_impl.py:413-430 | At 256 pairs a forced drain, else at every 32nd close an unforced one, else nothing; fewer than 256 pairs remain. |
| CudaTiming.CudaPending.Uninstall | src/cirron/hooks/_torch_impl.py:145-149 | The forced drain leaves nothing pending and emits each pending span, even when timing fails. |
| ScopeCuda.OtherKeepsHeld | src/cirron/core/scope.py:587-590 | No scope operation of any thread but its own emission moves a held span. |
| ScopeCuda.FinalizedIsHeld | src/cirron/hooks/_torch_impl.py:439-443 | Deferring a running span adds it to the held ones. |
| ScopeCuda.CollectIsARun | src/cirron/hooks/_torch_impl.py:187-218 | Every emission of a drain is owed when its turn comes, whatever the timing calls do, and the spans kept stay held. |
| ScopeCuda.ActIsARun | src/cirron/hooks/_torch_impl.py:432-456 | Any scope operation other than an emission, a deferral, or a drain of the pending pairs is a run of the scope machine and leaves only held spans pending. |
| ScopeCuda.JointIsARun | src/cirron/hooks/_torch_impl.py:432-456 | So is every interleaving of them: with the pending pairs as the only emitter, the missing guard of `emit_closed` is never needed. |
| SpoolPass.NeverUndercounts | src/cirron/core/flush.py:508-616 | Under any peers and refusals the total recorded by a pass is at least the bytes the scanned files still hold, sealed meanwhile or not. |
| SpoolPass.CapIsReached | src/cirron/core/flush.py:550-616 | Every eviction happens above the cap; an unblocked pass with no refused unlink ends within it; a blocked pass evicts nothing. |
| SpoolPass.PeerEvictedFirst | src/cirron/core/flush.py:591-597 | A batch a peer evicted first comes off the total and is not counted as ours. |
| SpoolPass.EvictedOrRefused | src/cirron/core/flush.py:589-604 | A batch still there is unlinked, taken off and counted, or refused, kept and still counted in the total. |
| SpoolPass.PeerTookTemp | src/cirron/core/flush.py:530-537 | A stale temp file that vanished is credited exactly if it was not sealed, and never counted as swept. |
| SpoolPass.TempSweptOrLeft | src/cirron/core/flush.py:525-543 | A stale temp file still there is swept and credited, or refused and not; a fresh one is left alone. |
| SpoolPass.PassStarts | src/cirron/core/flush.py:561-583 | The pass sweeps with an hour's grace and blocks exactly when the temp bytes left meet the cap; a blocked pass only sweeps. |
| SpoolNames.NameOrder | src/cirron/core/flush.py:469-469 | For creation times below 10^20 the earlier batch's file name sorts first, whatever the ids. |
| SpoolNames.ChronologicalExactlyBelow | src/cirron/core/flush.py:427-430 | Name order is creation order for all times below a bound if and only if the bound is at most 10^20. |
| SpoolRuns.ScanTotal | src/cirron/core/flush.py:432-458 | A truthful scan's total is the byte count of the directory. |
| SpoolRuns.CalmPass | src/cirron/core/flush.py:550-616 | Undisturbed, a pass removes exactly the stale temp files and then exactly the shortest oldest-first prefix of batches that suffices, or nothing when temp files alone fill the cap; the total is the bytes on disk. |
| SpoolRuns.BlockedExactlyWhen | src/cirron/core/flush.py:569-583 | Undisturbed, a pass blocks if and only if the temp files younger than an hour alone meet the cap. |
| SpoolRuns.EarlierNameIsOlder | src/cirron/core/flush.py:427-439 | What precedes a batch in the scan was created no later than it. |
| SpoolRuns.CalmWriteExact | src/cirron/core/flush.py:475-490 | One undisturbed write keeps total = bytes and fewer than 256 writes since a scan, and ends within the cap or blocked. |
| SpoolRuns.RunningTotalIsExact | src/cirron/core/flush.py:330-334 | Over every run of one writer with unique names, from any directory found at construction: all of that after every write. |
| SpoolRuns.RunEvictsOldestFirst | src/cirron/core/flush.py:427-439 | Over every such run, whatever else the directory holds: no evicted batch was created after one that stayed (times below 10^20). |
| SpoolWriting.SpoolWriter.constructor | src/cirron/core/flush.py:320-334 | The total starts as the bytes found; nothing is deleted. |
| SpoolWriting.SpoolWriter.ScanLocked | src/cirron/core/flush.py:432-458 | Lists every sealed batch in name order and every temp file, with sizes as on disk. |
| SpoolWriting.SpoolWriter.SweepStaleTmps | src/cirron/core/flush.py:522-548 | The loop computes the specified sweep: stale files only, a vanished one credited only if it was not sealed. |
| SpoolWriting.SpoolWriter.EnforceCap | src/cirron/core/flush.py:561-616 | The whole new state of the writer and directory is the specified pass over a truthful scan; returns the number of own evictions. |
| SpoolWriting.SpoolWriter.Write | src/cirron/core/flush.py:469-491 | A pass runs exactly when the new total is over the cap and not blocked, or at the 256th write; otherwise just the file, the total and the counter change. |
| StreamTrace.ChainIsConcatenation | src/cirron/data/load.py:617-624 | Chained sources deliver source 1's rows, then source 2's, and so on. |
| StreamTrace.ChainFailsExactlyWhen | src/cirron/data/sql.py:822-829 | From the drivers' answers alone: the stream fails with an error if and only if some source refuses the connection, the cursor or the query, or raises at a fetch after rows only, all before it deliver, and the error names that source and cause. |
| StreamTrace.ChainItemAt | src/cirron/data/sql.py:825-829 | Each non-empty fetch of each source reached comes at its place, none skipped. |
| StreamTrace.ChainLength | src/cirron/data/load.py:617-624 | Nothing else comes, up to the failing source or the end. |
| StreamTrace.BatchesAre | src/cirron/data/sql.py:825-829 | An opened source brings its fetches up to the first that is empty or raises. |
| StreamTrace.MapRowsMeans | src/cirron/data/transform.py:207-216 | All rows mapped, each at its place, or the index of the first row that raises. |
| StreamTrace.MapTraceBatchwise | src/cirron/data/transform.py:91-99 | Batches come out one for one, each mapped row by row, until the first with a raising row. |
| StreamTrace.MapTraceIsMapRows | src/cirron/data/transform.py:91-99 | Mapping batch by batch equals mapping the concatenation, including the stream-wide index of the first failing row. |
| StreamTrace.DeliveredIsMappedPrefix | src/cirron/data/transform.py:191-216 | Whatever was delivered before a failure is the mapping of that many first rows. |
| StreamTrace.StreamIsMaterialized | src/cirron/data/load.py:565-595 | When all sources deliver, streaming and materializing give the same rows or the same failing row. |
| StreamTrace.BatchIsOneFetch | src/cirron/data/load.py:569-571 | Each batch is one fetch of one source, so none spans two. |
| StreamTrace.BatchesAreShaped | src/cirron/data/sql.py:818-829 | No delivered batch is empty or longer than asked for. |
| StreamStack.StreamHandle.Select | src/cirron/data/sql.py:875-891 | Raises exactly for a refused connection, cursor or query or a raising first fetch, with that error and nothing open; an empty first fetch is an empty stream, rows are held ready. |
| StreamStack.StreamHandle.Fetch | src/cirron/data/sql.py:825-829 | Rows are yielded, an empty fetch stops, a raising one raises; the last two close the connection. |
| StreamStack.StreamHandle.NextChained | src/cirron/data/load.py:617-624 | Next over the sources delivers the next item of the specified trace; at most the current source is open, none after the end or a failure. |
| StreamStack.StreamHandle.RunMapping | src/cirron/data/transform.py:91-99 | Next through the row callable; a raising row closes everything beneath before it propagates. |
| StreamStack.StreamHandle.MapWithIndex | src/cirron/data/transform.py:207-216 | The loop computes the mapping that MapRowsMeans describes. |
| StreamStack.StreamHandle.RunFlattening | src/cirron/data/load.py:636-640 | Next through the flattening delivers single rows in order and closes the layers beneath when it ends. |
| StreamStack.StreamHandle.NextBatch | src/cirron/data/load.py:662-663 | In every reachable state: next advances the trace, at most one connection is open, none once the stream stops or raises. |
| StreamStack.StreamHandle.NextRow | src/cirron/data/load.py:662-663 | The same for the flattened stream. |
| StreamStack.StreamHandle.Close | src/cirron/data/load.py:665-668 | Close in any state, started or not, leaves no connection open and nothing to come; a second close changes nothing. |
| StreamStack.Load | src/cirron/data/load.py:585-595 | A failing first source raises here with nothing open; else the handle will deliver exactly the specified trace. |
| StreamStack.ConsumeBatches | src/cirron/data/load.py:565-595 | Iterating a batch stream to its end yields exactly its trace and leaves no connection open. |
| StreamStack.ConsumeRows | src/cirron/data/load.py:627-640 | The same for rows. |
| JsonSafe.SafeIsStrict | src/cirron/core/json.py:123-163 | On every heap, cyclic ones included: the result has string keys, each once, finite floats, nothing opaque, and at most 32 nested containers. |
| JsonLeaves.FloatsSanitized | src/cirron/core/json.py:97-120 | NaN and the infinities become "nan", "inf", "-inf", a finite float is itself, an unclassifiable one its text. |
| JsonLeaves.LeavesStayInPlace | src/cirron/core/json.py:149-163 | In a value of at most 32 levels every leaf comes out at its place, each float in its form, each dict entry under the text of its key. |
| JsonLeaves.FloatsToldApart | src/cirron/core/json.py:131-137 | From its form a classifiable float can be told back. |
| JsonLeaves.KeysInOrder | src/cirron/core/json.py:161-161 | A sanitized dict has its key texts in the order in which each first occurs. |
| JsonLeaves.CutIsText | src/cirron/core/json.py:156-163 | Opaque values, containers 32 levels down and containers met again become their text. |
| JsonLeaves.DumpsIsFinite | src/cirron/core/json.py:332-340 | Whichever attempt wrote, there is no NaN or infinity and no unnameable key on the wire. |
| JsonLeaves.RebuiltHas | src/cirron/core/json.py:166-176 | Rebuilt attrs hold exactly the entries whose key text does not recur later, each value sanitized on its own. |
| JsonUnfold.UnfoldsOnce | src/cirron/core/json.py:155-162 | A value unfolds to one tree only, which is why a container of an acyclic value never recurs on its own path. |
| JsonUnfold.SharedContainersUnfold | src/cirron/core/json.py:149-163 | A value that unfolds to at most 32 levels is mapped level by level however its containers are shared: neither the depth nor the cycle guard fires. |
| JsonUnfold.CleanUnchangedUpToLimit | src/cirron/core/json.py:126-147 | A clean value comes through unchanged if and only if at most 32 containers nest. |
| JsonUnfold.SanitizingTwice | src/cirron/core/json.py:123-163 | The sanitizer is idempotent, wherever its result is stored. |
| JsonUnfold.SelfReferenceIsCutAtOnce | src/cirron/core/json.py:156-159 | A list holding itself degrades at its first recurrence. |
| JsonEncode.RejectedExactlyWhen | src/cirron/core/json.py:314-340 | On every heap, cyclic ones included, under any digit limit: `dumps` raises if and only if the first attempt fails and a container changes under the retry or an over-long int is in the sanitizer's reach; what the retry writes is strict JSON of bounded depth. |
| JsonEncode.ShortIntsAreNeverRejected | src/cirron/core/json.py:317-321 | With no over-long int in value position in the heap, something is always written. |
| JsonEncode.TreeRejectedExactlyWhen | src/cirron/core/json.py:149-163 | For a value of at most 32 levels: lost if and only if the first attempt fails and its tree keeps an over-long int in value position, entries replaced by a later equal key text aside. |
| JsonEncode.LongAttrIsRejected | src/cirron/core/json.py:194-217 | The failing input: an attr one digit over the limit passes the attrs sanitizer by reference and both attempts refuse it. |
| JsonEncode.LongKeyIsHarmless | src/cirron/core/json.py:160-161 | An over-long int as a key fails the first attempt only: on the retry it is text. |
| JsonEncode.SafeDictHas | src/cirron/core/json.py:161-161 | A sanitized dict holds exactly the entries whose key text does not recur later, each value sanitized. |
| JsonEncode.RetryWritesTheSame | src/cirron/core/json.py:317-321 | A clean value of bounded depth reads the same whichever attempt wrote it; with an over-long int neither attempt writes it. |
| JsonEncode.RetryWritesScrubbed | src/cirron/core/json.py:338-340 | For a value of at most 32 levels a retry that writes, writes the scrubbed tree. |
| JsonUnfold.SafeAttrs | src/cirron/core/json.py:207-217 | The same object exactly when every value is a finite scalar; dropped exactly when the first other value makes the finiteness test raise; else rebuilt. |
| JsonUnfold.RebuiltIsStrict | src/cirron/core/json.py:166-176 | Rebuilt attrs are strict JSON of bounded depth. |
| JsonUnfold.FastPathAgrees | src/cirron/core/json.py:194-197 | The fast path returns what the slow path would have built. |
| StatsKernel.ExtremesAre | src/cirron/snapshots/stats.py:236-239 | NaN propagates through both extremes; without NaN they are the true least and greatest elements. |
| StatsKernel.ExtremesTell | src/cirron/snapshots/stats.py:236-239 | An extreme is non-finite if and only if some element is. |
| StatsKernel.HistogramRange | src/cirron/snapshots/stats.py:191-222 | A range exists exactly for finite extremes: these themselves, or one wide from the value of a constant tensor; over exact reals it is not empty. |
| StatsKernel.RerunsAtMostOnce | src/cirron/snapshots/stats.py:225-253 | The finite block appears exactly for a tensor with a non-finite element, has no such block itself, and the two counts add up to the elements. |
| StatsKernel.KernelExtremes | src/cirron/snapshots/stats.py:383-412 | The record has the five scalars; "min" and "max" are NaN if an element is, else elements, and bound all elements when these are finite. |
| StatsKernel.KernelReports | src/cirron/snapshots/stats.py:401-412 | Mean, deviation and norm are the library's for the elements, and so are bins and counts when all are finite. |
| StatsKernel.FiniteBlockIs | src/cirron/snapshots/stats.py:251-253 | The block of a diverged tensor is the kernel's report on exactly the finite elements, in order, with their number; none if there are none. |
| StatsKernel.EmptyTensor | src/cirron/snapshots/stats.py:174-188 | An empty tensor reports zeros, 17 edges and 16 counts. |
| StatsKernel.NormFromMeanAndDeviation | src/cirron/snapshots/stats.py:296-309 | Over exact reals N times (mean squared plus population variance) is the sum of squares, for every non-empty sequence. |
| StatsWire.StatsToWire | src/cirron/core/json.py:289-311 | The same object exactly when nothing needs substitution; what is read back is the specified wire form, finite block included. |
| StatsWire.HistogramToken | src/cirron/core/json.py:234-244 | The token of the first non-finite edge, present exactly when there is one. |
| StatsWire.WireIsFiniteExactlyWhen | src/cirron/core/json.py:272-278 | The wire form holds finite floats only if and only if no dirty finite block sits below a clean record. |
| StatsWire.WireRoundTrip | src/cirron/core/json.py:250-270 | From the nulls and the nonfinite maps every original scalar, outer and in the finite block, is recovered; only histograms over non-finite edges are gone. |
| StatsWire.WireNames | src/cirron/core/json.py:301-307 | The companion map names exactly the non-finite scalars, each with its token, and the histogram exactly if it was dropped for a non-finite edge; all else is unchanged. |
| StatsWire.WireOnce | src/cirron/core/json.py:247-311 | Substituting twice changes nothing more. |
| StatsWire.KernelRecordOnTheWire | src/cirron/snapshots/stats.py:353-412 | For every array and any library reductions the record reaches the wire with finite floats only and can be read back. |
| StatsWire.CleanOuterHidesDirtyBlock | src/cirron/core/json.py:299-300 | A clean record is passed by reference even if its finite block is not clean. |
| TraceBuffer.CapMarks | src/cirron/core/trace_buffer.py:107-119 | Within the cap nothing changes; beyond it both paths give all summaries first, then the newest points, each in arrival order. |
| TraceBuffer.TrimStep | src/cirron/core/trace_buffer.py:91-93 | Appending one mark and trimming keeps: summaries are all that arrived, points the newest that arrived, both in arrival order. |
| TraceBuffer.Buffer.AddBatch | src/cirron/core/trace_buffer.py:82-94 | After any sequence of batches the spans are the last `max_spans` ever added, and each id's bucket is what arrived for it since its last eviction, capped. |
| TraceBuffer.Buffer.Evict | src/cirron/core/trace_buffer.py:121-127 | Evicts exactly the spans pushed out and exactly their buckets. |
| TraceBuffer.Buffer.Snapshot | src/cirron/core/trace_buffer.py:139-142 | Returns that view. |
| TraceBuffer.Buffer.constructor | src/cirron/core/trace_buffer.py:55-58 | Caps below 1 are raised to 1. |
| TraceBuffer.BucketIsBounded | src/cirron/core/trace_buffer.py:99-102 | A bucket holds at most the cap plus its summaries. |
| TraceBuffer.RetainedSpanHasItsMarks | src/cirron/core/trace_buffer.py:32-36 | For a span that has not left the buffer (retained or never closed) everything that ever arrived counts. |
| TraceBuffer.RetainedIsNeverEvicted | src/cirron/core/trace_buffer.py:121-127 | With unique ids a retained span's marks have never been evicted. |
| TraceTree.DepthOf | src/cirron/core/render.py:287-294 | The loop ends on any links and returns the length of the parent chain whenever that chain ends. |
| TraceTree.DepthIsBounded | src/cirron/core/render.py:288-293 | A span's chain of present ancestors is shorter than the number of spans. |
| TraceTree.SortIsStable | src/cirron/core/render.py:156-160 | Siblings are sorted by start, a missing start as 0, and equal starts keep arrival order. |
| TraceTree.SortKeepsArrival | src/cirron/core/render.py:156-160 | Entries neither of which starts later keep the order they had. |
| TraceWalk.BuildTree | src/cirron/core/render.py:134-161 | The loops build the specified forest, for repeated and missing ids too. |
| TraceWalk.BuiltIsPlaced | src/cirron/core/render.py:147-160 | With unique ids every span sits once, under its parent when present and else among the roots, with sorted siblings. |
| TraceWalk.NodesAre | src/cirron/core/render.py:136-145 | The node of an id is the last span with it. |
| TraceWalk.SiblingsInDisplayOrder | src/cirron/core/render.py:156-160 | Roots and the children of every node are in order of their start times, a missing one as 0, and of arrival where these are equal. |
| TraceWalk.WalkInto | src/cirron/core/render.py:184-187 | The recursive printer terminates and appends exactly the subtree's lines. |
| TraceWalk.WalkPrintsExactly | src/cirron/core/render.py:177-191 | With unique ids, on any links: no span is printed twice, and a line is printed exactly for each span whose parent chain ends, at that chain's length. |
| TraceWalk.LinesNest | src/cirron/core/render.py:184-187 | The parent of every indented line is the nearest earlier line one level out. |
| TraceWalk.LinesInOrder | src/cirron/core/render.py:184-190 | The unindented lines are the roots, and one level below each line, before the next no further in, come just its children, all in display order. |
| TraceWalk.AllPrintedExactlyWhenAcyclic | src/cirron/core/render.py:117-191 | Every span is printed if and only if the parent links are acyclic. |
| TraceWalk.FlatDepths | src/cirron/core/render.py:296-313 | The depth column: each span's chain length, whenever the chain ends. |
| TraceWalk.IndentIsFlatDepth | src/cirron/core/render.py:277-294 | A line's indentation equals the depth of the flat form. |
| TraceFilter.KeptIsLeast | src/cirron/core/trace.py:92-101 | The kept ids are the least set with the named spans that is closed under children, on cyclic links too. |
| TraceFilter.ChildrenOf | src/cirron/core/trace.py:106-113 | The index lists under each parent id exactly the spans naming it. |
| TraceFilter.AddSubtree | src/cirron/core/trace.py:115-127 | The worklist ends on any links, adds only reached ids, and leaves a set closed under children. |
| TraceFilter.KeepIds | src/cirron/core/trace.py:129-133 | The kept set is exactly the reached ids. |
| TraceFilter.FilterByName | src/cirron/core/trace.py:135-140 | By an increasing index list: the spans returned are exactly those with a kept id, in their order; marks are dropped exactly for the others. |
| TraceFilter.KeptByAncestor | src/cirron/core/trace.py:92-92 | With unique ids a span is kept if and only if it has the name or its parent is kept. |
| MarkText.CutDecodes | src/cirron/core/mark.py:394-398 | Cutting the bytes anywhere and decoding with errors ignored gives the longest fitting prefix. |
| MarkText.LongestFittingIsLongest | src/cirron/core/mark.py:367-369 | That prefix fits the limit and no longer one does. |
| MarkText.RoundTrip | src/cirron/core/mark.py:394-398 | Decoding undoes encoding for every string without lone surrogates. |
| MarkText.EncodingLengths | src/cirron/core/mark.py:394-394 | Code points take one to four bytes by range, with an example of each. |
| MarkText.NextIsCharacter | src/cirron/core/mark.py:396-398 | On arbitrary bytes a decoded character is encodable and its bytes are its encoding. |
| MarkText.TruncationIsTight | src/cirron/core/mark.py:395-398 | A string is unchanged if and only if it fits; otherwise at most three bytes are wasted. |
| MarkText.CoerceString | src/cirron/core/mark.py:393-399 | The string branch: an error exactly for a lone surrogate, else the longest prefix of at most 256 bytes. |
| BlobMachine.NextPlaces | src/cirron/core/flush.py:760-847 | No step creates or loses a blob. |
| BlobMachine.InvNext | src/cirron/core/flush.py:760-847 | Every step, producers interleaved, keeps the ledger: conservation, attempts = failures below 3 for live blobs, drops counted, queue within its cap. |
| BlobMachine.EveryBlobOnce | src/cirron/core/flush.py:760-847 | Over every run each blob asked for is in exactly one place, and one that left gave up if and only if its uploads failed exactly three times. |
| BlobMachine.UploadEnds | src/cirron/core/flush.py:789-847 | A tried blob leaves as uploaded, as given up at its third failure, or as dropped at the cap; else it is queued again with one more attempt. |
| BlobQueue.OldBlobsLeaveInThreeTicks | src/cirron/core/flush.py:814-847 | Whatever the uploads do and whatever producers enqueue meanwhile, a blob is out of the queue after three ticks. |
| BlobQueue.EmptyAfterThreeTicks | src/cirron/core/flush.py:814-847 | With nothing new enqueued three ticks empty the queue. |
| BlobQueue.SegmentSends | src/cirron/core/flush.py:777-793 | With producers interleaved, the uploads of a tick take the drained blobs one by one, in order, and record exactly the successes. |
| BlobQueue.TwoTicksMayNotDo | src/cirron/core/flush.py:821-822 | Two do not suffice for a blob that keeps failing. |
| BlobQueue.SentThisTick | src/cirron/core/flush.py:777-793 | At any moment of a tick, producers interleaved, an entry was recorded if and only if a blob drained by this tick was uploaded with it. |
| BlobQueue.RemoteOnlyIfUploaded | src/cirron/core/flush.py:718-722 | A record leaves a tick with another URI only if a blob with its own local URI was uploaded in that tick, to that URI; producers may enqueue throughout. |
| BlobQueue.UploadedIsRewritten | src/cirron/core/flush.py:789-791 | The local URI of every blob uploaded in the tick is mapped. |
| BlobQueue.ApplyUriMap | src/cirron/core/flush.py:166-171 | Rewrites in place exactly the records whose URI is mapped. |
| BlobQueue.BlobUploadQueue.Enqueue | src/cirron/core/blob_queue.py:79-83 | At the cap the new blob is dropped and counted; else appended. |
| BlobQueue.BlobUploadQueue.Drain | src/cirron/core/blob_queue.py:91-94 | Returns everything in order and empties the queue. |
| BlobQueue.FlushThread.Produce | src/cirron/core/blob_queue.py:73-83 | A producer at any moment takes the Enqueue step. |
| BlobQueue.FlushThread.TryNext | src/cirron/core/flush.py:779-792 | One turn of the loop takes the Upload step. |
| BlobQueue.FlushThread.DrainBlobs | src/cirron/core/flush.py:776-793 | With producers at work between uploads, the loop takes exactly the steps of the tick, empties its hand, and returns the map of the tick's uploads. |
| BlobQueue.FlushThread.DiscardPending | src/cirron/core/flush.py:802-805 | Without a transport every queued blob is discarded. |
| BlobQueue.FlushThread.TickBlobs | src/cirron/core/flush.py:718-727 | With a transport the tick's records are rewritten by that tick's own map; without one they are left alone. |
| Supervisor.RecentNext | src/cirron/core/flush.py:998-1001 | Under a clock that never steps back, appending and trimming the old window gives the window of the whole log. |
| Supervisor.LatchedMeans | src/cirron/core/flush.py:1003-1004 | Some window held three deaths if and only if two deaths two apart in the log are at most 60 s apart. |
| Supervisor.LatchedForGood | src/cirron/core/flush.py:895-900 | The latch never reverts. |
| Supervisor.BackoffBounds | src/cirron/core/flush.py:1010-1010 | Backoffs lie between 1 and 30 s, and are 30 s exactly from six deaths in the window on. |
| Supervisor.BackoffDoubles | src/cirron/core/flush.py:1010-1010 | The first backoff is one second, each next one the lesser of its double and 30 s. |
| Supervisor.SpacedWindow | src/cirron/core/flush.py:985-1010 | Deaths at least a second apart leave at most 61 in the window, far below where the power would overflow. |
| Supervisor.SleepSpaces | src/cirron/core/flush.py:982-989 | A sleep of at least the shortest backoff before the next death keeps them so. |
| Supervisor.Supervisor.RecordDeath | src/cirron/core/flush.py:997-1012 | The deque is exactly the trailing window, the mode is spool-only exactly when latched, the backoff is the bounded power. |
| Supervisor.Supervisor.Spawn | src/cirron/core/flush.py:957-967 | The worker gets the transport unless latched. |
| Supervisor.Supervisor.HandleDeath | src/cirron/core/flush.py:981-989 | A death is recorded, the sleep is the backoff (none if a stop came first), a respawn follows unless a stop came; spaced deaths never crowd the window. |
| Supervisor.NoTransportAfterLatch | src/cirron/core/flush.py:963-963 | No worker started at or after the latch ever gets a transport. |
| SqlText.IdentifierRoundTrip | src/cirron/data/sql.py:613-638 | A quoted identifier is read back whatever characters it holds, delimiters included. |
| SqlText.ListRoundTrip | src/cirron/data/sql.py:675-710 | A joined list of quoted identifiers is read back name by name, commas and dots inside names included. |
| SqlText.QueryRoundTrip | src/cirron/data/sql.py:649-682 | The scanner recovers the exact columns, table parts and verbatim condition from the text. |
| SqlText.PrintingIsInjective | src/cirron/data/sql.py:649-682 | On one dialect two requests have the same text if and only if they agree in columns, parts and condition, absent and empty told as one. |
| SqlText.PartsTell | src/cirron/data/sql.py:701-710 | Which URI fields the parts determine, exactly. |
| SqlText.LoneQualifierIsAmbiguous | src/cirron/data/sql.py:702-706 | A lone database and a lone schema of the same name print alike. |
| SqlText.PostgresText | src/cirron/data/sql.py:641-682 | The text of a plain request: double quotes, schema and table, columns, condition. |
| SqlText.MysqlText | src/cirron/data/sql.py:641-682 | The same with backticks. |
| SqlText.WarehouseText | src/cirron/data/sql.py:701-710 | Snowflake and Databricks spell out database, schema and table. |
| SqlText.BareText | src/cirron/data/sql.py:673-679 | An unqualified table without columns or condition. |

## Left out

- Scope interleavings finer than one operation, such as a drain between the removal from the stack and the
  append to the closed deque; the code does not guard those against pruning of a request state.
- Reused thread ids, and runs in which two requests use the same key at the same time: both overwrite a registry entry.
  One such overwriting is covered by ScopeRuns.OverwritingIsSafeExactlyWhen.
- `drain_closed` (the owning thread replacing its own deque), `current`, `depth`, CPU time, one-time warnings.
- Scopes.ScopeStack.DrainClosedAll: the method runs alone; interleaved, its steps are covered by ScopeMachine and
  ScopeRuns.DrainLeavesNothingBehind. The order in which states are visited is not fixed, and entries are pruned if
  idle after the drain rather than if idle at their own turn.
- CudaTiming.CudaPending.CloseOrDefer: one producer thread; another hook ending the same scope between queueing
  and finalizing is not modelled.
- SpoolPass.NeverUndercounts: a temp file that still grows during the pass is credited at its scanned size.
- SpoolRuns.RunningTotalIsExact: a write that fails before the rename and overwritten file names are outside it,
  as the running total does not claim to track them.
- A scan that is not atomic, files that are not regular, and foreign files in the spool directory.
- Cursor and connection cleanup calls that themselves raise, garbage collection of a stream, and driver cursors.
- JsonUnfold.SafeAttrs: a container that changes while attrs are rebuilt, which drops them, is not modelled. In
  JsonEncode.RejectedExactlyWhen such a change is a parameter of either attempt.
- SpoolWriting.SpoolWriter.Write: starts from the encoded batch; one that the encoder rejects never reaches the spool.
- Text of encoded JSON: the encoder is modelled by what it accepts, not by the characters it writes.
- StatsKernel.NormFromMeanAndDeviation: exact reals.
- StatsKernel.HistogramRange: exact reals; a float as large as 2^53 plus 1.0 can round back to itself, and the widened
  range is empty then. Elsewhere rounding and overflow of the library's reductions enter as arbitrary results.
- Histogram binning, dtypes and devices, which libraries handle.
- TraceWalk.WalkInto: the interpreter's recursion limit; a parent chain longer than it makes the printer raise, and
  chains have no bound (ScopeRuns.ChainsGrowWithoutBound).
- Text of printed lines and JSON shapes of nodes and rows; a line is its span and its indentation.
- TraceTree.SortIsStable: Python's sort is modelled by insertion sort, which its promise (stable, by key) determines.
- The ring buffer of `mark`, and its numeric branches.
- A flush worker that dies with drained blobs in hand; the tick swallows ordinary exceptions.
- Supervisor.Supervisor.HandleDeath: the watcher's polling and the sleeping are reduced to one step per death; that the
  clock advances by the sleep is a condition (SleepSpaces), since both are injected.
- SQL dialect rules beyond quoting, the condition's content, and unknown schemes.
- HTTP retries, credentials, configuration, adapters, framework hooks, sinks and real input and output: easy,
  bounded, or owned by libraries.
