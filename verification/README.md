# Verified model of kaizen's core

A Dafny model of the parts of kaizen whose behaviour spans whole runs: the
outbox flush against an arbitrary server, the span hierarchy, the two hash
chains, the calendar formula, the cached aggregates, rule automation, the
capture supervisor, the git history miner and the usage scanner. The modules
follow the source: a specification as functions over values, results about it as
lemmas, and, where the source updates state in place, a class or a method with
loops that is proved to do exactly what the specification says.

`dafny verify dfyconfig.toml` checks the project.

| modules | source |
|---|---|
| `Calendar` | `src/shell/fmt.rs` |
| `OutboxModel`, `OutboxPost`, `OutboxFlush`, `OutboxAnswers`, `OutboxEngine` | `src/sync/engine.rs`, `src/store/sqlite/sync.rs` |
| `SpanTree`, `SpanTreeProofs`, `SpanForest`, `SpanRows`, `SpanTreeBuilder` | `src/store/span_tree.rs` |
| `SpanProjector`, `SpanChain`, `SpanLedger`, `SpanSteps`, `SpanSession` | `src/store/projector_hierarchy.rs`, `src/store/projector.rs`, `src/store/projector/` |
| `ParentIndex`, `SpanParents`, `SpanRollUp` | `src/store/tool_span_index/hierarchy.rs` |
| `EventChain` | `src/interchange/hash_chain.rs` |
| `AuditChain`, `AuditOrder`, `AuditBreaks` | `src/extensions/hash_chain.rs` |
| `Aggregates` | `src/extensions/aggregates.rs` |
| `RuleKeys`, `RuleStore`, `RuleRows`, `RuleRuns`, `RuleFacts`, `RuleEngine` | `src/core_loop/` |
| `ProxyRegistry`, `SupervisorRuns`, `SupervisorCalls`, `SupervisorState` | `src/daemon/supervisor.rs` |
| `GitHistory`, `CoChange`, `CoChangeFacts` | `src/metrics/git.rs` |
| `UsageJson`, `UsageScan`, `UsageKeys`, `UsageStream`, `UsageMerge` | `src/proxy/sse.rs` |

## How the outside is modelled

- Server, exporters and store: a script of replies, one for each attempt. A run
  over a script that is used up is a run cut off at that moment.
- Digests: a function parameter. Where two results can only differ by a collision
  the lemma returns the two inputs that collide or names the collision as the
  exception; injectivity is assumed only where the table says so.
- JSON texts and single log lines: decoders are parameters, or the decoded value
  is the input.
- Filters of rules: parsing and matching are parameters.
- UUIDs: a counter. Times are inputs; sleeps are recorded as numbers.
- Concurrency: one step for each locked section, in any interleaving.
- Hash maps: iteration in any order.

## What the code does that its documentation does not say

- Packing parses a row before it looks at the caps, so an unparsable row right
  after a full batch blocks that batch (`OutboxFlush.PackLongest`).
- A row of unknown kind at the head of the outbox ends a flush with success and
  keeps every row behind it waiting (`OutboxFlush.FlushDelivery`).
- Flushing a session does not roll open children up into their open parents: the
  records differ from those of closing the spans one by one exactly when a span
  has something to add to the one below it (`SpanLedger.FlushIsCloseAllIff`).
- The interchange chain binds bytes, not event ids, in its last hash
  (`EventChain.LastHashIffSameBytes`); verification does see ids.
- The audit reports a late append as a break: an untouched history passes exactly
  when its hashed events came in the order of their seq
  (`AuditOrder.CleanIffInOrder`). It cannot see that hashed events were cut off at
  either end (`AuditChain.RemovedEventBreaks`).
- A rebuild of a session without events keeps its timestamps NULL through later
  events (`Aggregates.CachedRowAgrees`).
- A rule looks at the oldest hundred matching events. As long as these still match
  (the status, score and feedback filters can change their verdict with time, and
  pruning can remove events), later matches are never acted on, however the log
  grows (`RuleRuns.LateMatchIsNeverActedOn`).
- Two concurrent starts of one proxy can leave a capture with an endpoint that no
  handle holds (`SupervisorRuns.RacePartsThem`), under the exact condition of
  `SupervisorRuns.AgreementLostIff`.
- The end sentinel of the git log does not flush the last commit
  (`CoChangeFacts.LastCommitCountsIff`).
- Token counts above 32 bits wrap when written as integers and saturate when
  written as floats (`UsageJson.CountsThatFit`).

## Model

| member | source | states |
|---|---|---|
| Calendar.DaysToYmdIsIterate | src/shell/fmt.rs:19-31 | the division formula equals the Gregorian next-day rule (section 3.2.1 of ISO 8601:2004) applied n times to 1970-01-01, for every n |
| Calendar.DaysToYmdNext | src/shell/fmt.rs:19-31 | for every day number the formula gives a valid date, and one day later it gives the Gregorian next day |
| Calendar.DaysToYmdInverse | src/shell/fmt.rs:19-31 | the formula and the count of days by years and months are inverse both ways: on every day number and on every valid date from 1970 on |
| Calendar.DaysToYmdMonotone | src/shell/fmt.rs:19-31 | an earlier day number has an earlier date, and only then |
| Calendar.YearOfEraBounds | src/shell/fmt.rs:22-24 | the year of the 400-year era lies in 0..400 and the day lies within that year |
| Calendar.YearOfEraUnique | src/shell/fmt.rs:22-24 | no other year of the era holds the day |
| Calendar.YmdToDaysOrder | src/shell/fmt.rs:19-31 | the independent day count follows the calendar order, so no two dates share a count |
| Calendar.FmtTsNamesTheMinute | src/shell/fmt.rs:5-17 | the printed fields are in range and give back the minute count of the instant |
| Calendar.FmtTsSameMinute | src/shell/fmt.rs:5-17 | two instants print alike if and only if both or neither is 0 and they lie in the same minute |
| OutboxModel.SplitBatch | src/sync/engine.rs:365-444 | the halves concatenate to the items, the first has the asked length, and both keep variant and header |
| OutboxModel.MakeBatch | src/sync/engine.rs:85-182 | exactly the known kinds give a batch; it keeps kind, items and (where the variant has one) the header |
| OutboxPost.PostDelivery | src/sync/engine.rs:261-363 | for every sequence of replies the marked ids are a prefix of the batch ids, the committed batches carried exactly the items at these positions in order under the unchanged header, each attempt carries an aligned slice of items and ids, and an Ok result counts all ids and the accepted posts |
| OutboxPost.MarkWasAccepted | src/sync/engine.rs:277-303 | the k-th mark was made by an attempt answered Accepted or Conflict, whose fan-out succeeded and which carried item k with id k |
| OutboxPost.EveryMoment | src/sync/engine.rs:261-363 | the same at every moment of a run, also one that ends in error or is cut off |
| OutboxPost.HalvesDelivery | src/sync/engine.rs:309-325 | the same for the two halves that follow a 413, where an error in the first half keeps the second from being sent |
| OutboxAnswers.AnswerDecides | src/sync/engine.rs:289-360 | each answer of the server in turn: accepted and conflict end the call as fan-out and store writes say; transport error, 401, other client errors and a single item too large end it with that error; 413 splits; 429 waits as long as it says; a server error waits and doubles the wait up to 30 seconds, the thirteenth ends the call |
| OutboxAnswers.FeedbackIsLocal | src/sync/engine.rs:243-246 | a feedback batch is accepted whatever the server would answer |
| OutboxAnswers.MarksWhenAccepted | src/sync/engine.rs:290-299 | the ids of an attempt are marked exactly when the answer accepts, the fan-out succeeded and the marking did, even if the sync state cannot be written |
| OutboxAnswers.HalvesInTurn | src/sync/engine.rs:316-325 | both halves of a split start with no failures and 200 ms; the second is sent only after success of the first, and the counts add up |
| OutboxAnswers.ThrottlesAre | src/sync/engine.rs:326-331 | the number of 429 replies that the results on termination speak of |
| OutboxPost.PostBounds | src/sync/engine.rs:268-272 | a call makes at most 13 POSTs of its own not answered 429 and sleeps at most 171000 ms after server errors; n items cost at most 13(2n - 1) such POSTs |
| OutboxPost.BoundsAreReached | src/sync/engine.rs:305-360 | these bounds are exact: every HTTP batch has a script of replies that spends all of them and still ends Ok |
| OutboxPost.SleepPerCall | src/sync/engine.rs:333-357 | the twelve doubling, capped back-offs of one call add up to 171000 ms |
| OutboxPost.PostConsumes | src/sync/engine.rs:261-363 | the attempts use up the replies in order, one each |
| OutboxPost.PostEnds | src/sync/engine.rs:305-360 | with finitely many 429 replies the call ends |
| OutboxPost.PostExtends | src/sync/engine.rs:261-363 | further replies do not change the steps taken on the earlier ones |
| OutboxFlush.PackLongest | src/sync/engine.rs:184-213 | packing fails exactly when an unparsable row of the kind directly follows rows that fit; otherwise it takes the longest same-kind prefix within both caps, the first row even if oversized |
| OutboxFlush.BuiltFromHead | src/sync/engine.rs:85-182 | a batch built for the kind of the head row holds a non-empty prefix of the pending rows with their ids; it is unsendable exactly when the kind is unknown |
| OutboxFlush.FlushDelivery | src/sync/engine.rs:47-83 | for every sequence of replies a flush delivers a prefix of the outbox in id order and leaves the rest pending; an Ok flush ends with an empty outbox or an unknown kind at its head, and counts exactly the rows removed and the accepted posts |
| OutboxFlush.FlushBounds | src/sync/engine.rs:47-83 | N pending rows cost at most 13(2N - 1) POSTs not answered 429 over all batches of a flush |
| OutboxFlush.FlushEnds | src/sync/engine.rs:47-83 | with finitely many 429 replies a flush ends |
| OutboxFlush.FlushDrains | src/sync/engine.rs:47-83 | when every reply accepts, a flush of parsable rows of known kinds empties the outbox |
| OutboxFlush.FlushExtends | src/sync/engine.rs:47-83 | further replies do not change the steps of a flush on the earlier ones, so what is proved of every script holds at every moment |
| OutboxFlush.FlushOnceDelivers | src/sync/engine.rs:39-71 | a call without an endpoint does nothing and uses no reply; a call with one delivers a prefix for every script, ends well only with an empty outbox or an unknown kind at its head, and drains under accepting replies |
| OutboxFlush.BadRowFails | src/sync/engine.rs:198-198 | an unparsable row right after rows that fit fails the flush before anything is sent |
| OutboxFlush.ListedIs | src/store/sqlite/sync.rs:18-24 | the first ten thousand pending rows, or all |
| OutboxEngine.MarkPrefix | src/store/sqlite/sync.rs:18-34 | marking the first k pending ids takes exactly these k rows out of the pending list |
| OutboxEngine.FlagsAre | src/store/sqlite/sync.rs:18-34 | marking sets the flag of exactly the given ids and changes no row; the pending rows are those whose flag is not set |
| OutboxEngine.PackBatchPayloads | src/sync/engine.rs:184-213 | the packing loop gives what the specification of packing gives |
| OutboxEngine.Engine.MarkOutboxSent | src/store/sqlite/sync.rs:26-34 | sets the sent flag of exactly the given ids |
| OutboxEngine.Engine.PostRound | src/sync/engine.rs:275-360 | one round in place: ends as the specification does, or goes on with nothing marked and one reply used |
| OutboxEngine.Engine.PostBatchResilient | src/sync/engine.rs:261-363 | the loop refines the specification: same outcome, same attempts, and exactly the ids of committed attempts are marked |
| OutboxEngine.Engine.PostSplit | src/sync/engine.rs:309-325 | the two posts of a split, in place; the second only after success of the first |
| OutboxEngine.Engine.Commit | src/sync/engine.rs:279-303 | fan-out before mark before sync state: ids are marked exactly when the fan-out succeeded |
| OutboxEngine.Engine.FlushHead | src/sync/engine.rs:48-70 | one iteration of the flush: what is built, what is marked, and that success removes at least one row |
| OutboxEngine.Engine.FlushOutboxOnce | src/sync/engine.rs:32-72 | without an endpoint nothing changes; with one the pending rows that go are a prefix, whose ids the new attempts marked, a good end leaves an empty outbox or an unknown kind at its head, and accepting replies drain an outbox of parsable rows of known kinds |
| SpanTreeProofs.InsertAllIndexes | src/store/span_tree.rs:31-49 | after the inserts each id is held once, in order of first appearance, with the first row seen for it |
| SpanTreeProofs.ChildNodesWalks | src/store/span_tree.rs:93-129 | any call, with any set of seen ids and any stack, yields nodes with distinct ids, none seen before, linked by real parent pointers in input order, and leaves every child of a seen id seen or on the stack |
| SpanTreeProofs.AssembleWalks | src/store/span_tree.rs:99-114 | the same for one new id, whose node is always built |
| SpanForest.ForestHoldsEachSpanOnce | src/store/span_tree.rs:17-129 | for any rows (missing parents, self-loops, cycles, repeated ids) the flattened forest holds each distinct id exactly once and every node is linked as its row says |
| SpanForest.TopLevel | src/store/span_tree.rs:17-29 | the top level is the roots in input order and then only spans no root reaches; there are none of these exactly when every chain ends at a root |
| SpanForest.WholeForestIffRooted | src/store/span_tree.rs:17-129 | the top level is exactly the roots, and each node has exactly the spans that name it as parent, if and only if every parent chain ends at a root |
| SpanForest.UnrootedIffCycle | src/store/span_tree.rs:62-91 | a span is out of reach of the roots exactly when its parent chain meets some ancestor twice |
| SpanForest.ParentInTree | src/store/span_tree.rs:93-129 | below the top level every id stands in the tree of its parent |
| SpanForest.CompleteHolds | src/store/span_tree.rs:93-129 | trees that are complete hold every child of their ids below the top |
| SpanRows.NodesCarryFirstRows | src/store/span_tree.rs:17-140 | every node at any depth carries the first row of its id and the totals of that row, 0 where absent; the row of each child names it as parent, and children stand in the order of their rows |
| SpanRows.RootsNameNoParent | src/store/span_tree.rs:69-82 | the roots are exactly the ids whose row names no parent or one without a row, in the order of their rows |
| SpanRows.ParentIsNamed | src/store/span_tree.rs:62-67 | the parent of an id is the one its first row names, if that has a row |
| SpanRows.CompleteNodesHoldNamers | src/store/span_tree.rs:93-129 | in a complete forest the children of a node are exactly the ids whose row names it |
| SpanTreeBuilder.SpanInput.constructor | src/store/span_tree.rs:31-60 | the mutable index equals the inserts of the specification and its child lists say what the parent pointers say |
| SpanTreeBuilder.SpanInput.LinkChildren | src/store/span_tree.rs:51-60 | the loop fills the child lists with the children of each id in input order |
| SpanTreeBuilder.SpanInput.Roots | src/store/span_tree.rs:69-82 | exactly the roots, in input order |
| SpanTreeBuilder.SpanInput.Remaining | src/store/span_tree.rs:84-91 | exactly the ids not seen, in input order |
| SpanTreeBuilder.Walk.AssembleNode | src/store/span_tree.rs:99-114 | the recursion over the mutable seen set and stack gives the specified node and restores the stack |
| SpanTreeBuilder.Walk.CollectChildren | src/store/span_tree.rs:116-129 | the loop over ids does, too |
| SpanTreeBuilder.BuildSpanTree | src/store/span_tree.rs:17-29 | the whole procedure returns the forest the results above are about |
| SpanChain.StepKeepsChain | src/store/projector_hierarchy.rs:7-51 | every open, result, hook, close, expiry or flush, in any order, keeps the open stack a chain: no duplicates, position as depth, the span before as parent |
| SpanChain.RunKeepsChain | src/store/projector_hierarchy.rs:7-51 | so the stack is a chain after every run |
| SpanChain.NewSpanGoesOnTop | src/store/projector_hierarchy.rs:7-18 | after any run a new span gets the top of the stack as parent and the stack length as depth |
| SpanChain.RemoveEffect | src/store/projector_hierarchy.rs:33-51 | taking out position k relinks the next span to the parent of the one removed, lifts all deeper spans by one and touches nothing else |
| SpanChain.RemoveKeepsChain | src/store/projector/close.rs:65-73 | removal leaves a chain without that span and keeps the totals of all others |
| SpanChain.OpenKeepsChain | src/store/projector/open.rs:87-134 | opening keeps the chain |
| SpanChain.CloseMoves | src/store/projector/close.rs:44-63 | a close conserves amounts: what was open and the own amount of the span equal what left without a parent and what is open now |
| SpanSteps.StepOpens | src/store/projector/open.rs:22-39 | a call or a hook leaves its span open with the usage copied: a new span on top, under the one that was there, an open one in its place with its amounts; no other span changes and nothing is recorded |
| SpanSteps.StepCloses | src/store/projector/open.rs:41-69 | a result, a post hook or an expiry of an open span takes that span and no other out, and records it once with the usage copied, present values replacing and absent ones keeping |
| SpanSteps.PostHookAlone | src/store/projector/open.rs:54-69 | a post hook of a span that is not open records an empty one at the depth of the stack |
| SpanSteps.UnknownIsIgnored | src/store/projector/open.rs:41-52 | a result or an expiry of a span that is not open changes nothing |
| SpanSteps.FlushRecordsAll | src/store/projector.rs:53-58 | a flush leaves nothing open and records every open span once, newest first, with its own amounts, parent and depth |
| SpanSteps.OwnIs | src/store/projector_hierarchy.rs:20-26 | what a span counts for itself: its cost, and tokens in plus tokens out, nothing without tokens in |
| SpanSteps.RecordsInNumbers | src/store/projector_hierarchy.rs:20-59 | in every run a record's cost and tokens are the sums of the costs and of the tokens in and out of the spans that closed into it |
| SpanChain.FlushMoves | src/store/projector/close.rs:9-16 | a flush conserves amounts, too |
| SpanChain.StepMoves | src/store/projector_hierarchy.rs:20-31 | the same for every step |
| SpanChain.RunConserves | src/store/projector_hierarchy.rs:20-59 | in any close order the own totals of all closed spans are the subtree totals of the records closed without an open parent plus what is held in open spans; tokens count only where tokens_in is present |
| SpanLedger.CloseExplained | src/store/projector_hierarchy.rs:20-59 | in every run the total of each record is the sum of the own totals of the records that closed into its span since it was opened, at every level, itself included; it is absent exactly when none of them had anything to count |
| SpanLedger.OpenExplained | src/store/projector_hierarchy.rs:20-59 | in every state reached the amount held by an open span is that sum without its own |
| SpanLedger.RunAccounts | src/store/projector/close.rs:44-63 | in every run each record is its own total and the totals of the records closed into it, and nothing is kept for spans that are not open |
| SpanLedger.FlushIsCloseAllIff | src/store/projector.rs:53-58 | flushing records the same spans as closing them one by one, newest first, if and only if no open span has anything to add to the total of the one below it |
| SpanLedger.AddsNothing | src/store/projector_hierarchy.rs:53-59 | when that is so: the addend is absent, or zero beside a present value |
| SpanLedger.FlushCreditsNothing | src/store/projector.rs:53-58 | a flush adds no child to any parent |
| SpanLedger.FlushLosesChildren | src/store/projector.rs:53-58 | with a parent of cost 1 and an open child of cost 2 the parent is recorded with 3 when closed in turn and with 1 by a flush |
| SpanLedger.TwoOpenIsReachable | src/store/projector.rs:46-58 | that state is reached by a run |
| SpanSession.Session.FindOpenParent | src/store/projector_hierarchy.rs:7-18 | the scan from the top gives the specified parent and depth |
| SpanSession.Session.OpenSpan | src/store/projector/open.rs:94-134 | inserts unless open and pushes unless listed, as specified |
| SpanSession.Session.Detach | src/store/projector_hierarchy.rs:33-51 | the in-place relink and depth loop give the specified map and order |
| SpanSession.Session.CloseRemoved | src/store/projector/close.rs:44-63 | seeds the totals and credits the parent if it is open |
| SpanSession.Session.CloseId | src/store/projector/close.rs:30-37 | removes and closes an open span, and does nothing for an unknown id |
| SpanSession.Session.FlushSession | src/store/projector.rs:53-58 | empties both containers and returns the specified records |
| SpanSession.Session.ApplyStep | src/store/projector.rs:46-63 | every step in place equals the specified step |
| ParentIndex.PrevRankClears | src/store/tool_span_index/hierarchy.rs:49-58 | clearing the lowest set bit subtracts it, for every rank |
| ParentIndex.NextRankAdds | src/store/tool_span_index/hierarchy.rs:41-47 | the bit trick with negation adds the lowest set bit, for every rank that does not overflow |
| ParentIndex.UpdateChain | src/store/tool_span_index/hierarchy.rs:41-47 | the next slot on the way up covers the rank, and no slot in between does |
| ParentIndex.Index.Rank | src/store/tool_span_index/hierarchy.rs:37-39 | position of an indexed end counted from the largest |
| ParentIndex.Index.Insert | src/store/tool_span_index/hierarchy.rs:41-47 | updates exactly the slots whose range holds the rank |
| ParentIndex.Index.Best | src/store/tool_span_index/hierarchy.rs:49-58 | the read on the way down gives the best of all candidates inserted with an end at least as large |
| SpanParents.BestEnclosingIsBest | src/store/tool_span_index/hierarchy.rs:12-25 | the preferred candidate is the deepest, and the earliest of several |
| SpanParents.KeyOrders | src/store/tool_span_index/hierarchy.rs:84-89 | the sort key orders any two spans: by start, a missing one last, then by end, the later first and a missing one as 0 |
| SpanParents.ParentsAreDeepestContainers | src/store/tool_span_index/hierarchy.rs:91-122 | over spans in key order every complete span gets the deepest span containing it as parent, depth one more, the earliest of several; no later span contains it except ones with the same interval |
| SpanParents.AssignParents | src/store/tool_span_index/hierarchy.rs:115-122 | the loop over the Fenwick index writes exactly what a scan over all earlier spans gives |
| SpanRollUp.TotalsAreSubtreeTotals | src/store/tool_span_index/hierarchy.rs:124-183 | when parent links go up, the totals left are the solution of the subtree equation: own total plus the final totals of the children |
| SpanRollUp.AssignedLinksGoUp | src/store/tool_span_index/hierarchy.rs:91-122 | the assigned parents do go up when ids are not repeated |
| SpanRollUp.ParentOfIs | src/store/tool_span_index/hierarchy.rs:159-164 | the parent of a span is the first span with the id that it names |
| SpanRollUp.FirstSpanIndices | src/store/tool_span_index/hierarchy.rs:131-139 | maps each id to the first span that has it, and no other id |
| SpanRollUp.DescendingDepthIndices | src/store/tool_span_index/hierarchy.rs:141-145 | every index once, deepest first |
| SpanRollUp.ComputeSubtreeCosts | src/store/tool_span_index/hierarchy.rs:124-183 | seeds every span with its own amounts, rolls up deepest first, and, when parent links go up, leaves each span with its own total plus the final totals of its children |
| EventChain.LinkAt | src/interchange/hash_chain.rs:50-59 | link i depends on the events up to i alone and stands at its own place |
| EventChain.LinksAre | src/interchange/hash_chain.rs:50-109 | each link names its event, the digest of its bytes and the chain hash of the link before it, the first one none; its chain hash is the digest of that hash or of the text genesis, a newline and the event hash |
| EventChain.LengthsFirst | src/interchange/hash_chain.rs:61-72 | lists of different lengths give exactly the length error with both lengths |
| EventChain.LastHashBinds | src/interchange/hash_chain.rs:50-109 | two non-empty lists with the same last chain hash hold the same bytes at every position, or the two inputs returned are a collision of the digest |
| EventChain.LastHashIffSameBytes | src/interchange/hash_chain.rs:50-109 | for an injective digest the last hash is equal exactly when length and bytes are; event ids are not bound |
| EventChain.VerifiedIffComputed | src/interchange/hash_chain.rs:61-72 | verification succeeds on exactly the computed links |
| EventChain.FirstMismatchIsFirst | src/interchange/hash_chain.rs:74-86 | the reported index is the first that differs; None exactly when all agree |
| EventChain.AlterationIsFound | src/interchange/hash_chain.rs:61-86 | verifying altered events of the same number reports exactly the least altered position, a changed event id included, or a collision is returned |
| AuditChain.IncreasingHistory | src/extensions/hash_chain.rs:26-37 | appends with increasing seq leave a linked history, whichever of them lack hashes |
| AuditChain.HonestHistoryPasses | src/extensions/hash_chain.rs:49-78 | the audit of such a history finds no break, verifies every hashed event, and checked = verified + unverifiable |
| AuditChain.LinkedAudit | src/extensions/hash_chain.rs:49-78 | what the audit counts on any linked list of entries |
| AuditChain.AlteredEventBreaks | src/extensions/hash_chain.rs:61-78 | altering one hashed event gives exactly one break, at that event, unless the digest collides |
| AuditChain.RemovedEventBreaks | src/extensions/hash_chain.rs:61-78 | removing a hashed event with its row gives exactly one break, at the next hashed event, if and only if hashed events stand on both sides (and hashes differ) |
| AuditChain.LateAppendBreaks | src/extensions/hash_chain.rs:111-123 | an event appended below a hashed seq gives exactly one break, at the next hashed event, though nothing was altered |
| AuditOrder.CleanIffInOrder | src/extensions/hash_chain.rs:26-78 | with a digest free of collisions, the audit of any history of appends finds no break if and only if its hashed events came in the order of their seq |
| AuditOrder.InsertClean | src/extensions/hash_chain.rs:26-37 | an event inserted anywhere leaves the audit clean exactly when it was clean and the event has no hash or stands above all hashed ones |
| AuditOrder.HistorySound | src/extensions/hash_chain.rs:26-37 | after any history the entries stand in order of seq, are exactly the events that were first with their seq, and each row continues the genesis text or a stored hash |
| AuditBreaks.EveryBreakIsReported | src/extensions/hash_chain.rs:49-78 | over any list of entries: all are counted, rows that are the digest of their event as verified, events without a row as unverifiable, and breaks are reported in order, of the link exactly where a row names another hash than the row before it, of the digest exactly where it is not that of its event |
| AuditChain.SessionStore.FindPreviousHash | src/extensions/hash_chain.rs:111-123 | the stored hash of the greatest smaller seq, or the genesis text |
| AuditChain.SessionStore.AppendEvent | src/extensions/hash_chain.rs:26-37 | an append in place is the specified append |
| AuditChain.Auditor.CheckRow | src/extensions/hash_chain.rs:61-78 | one row of the audit updates report and previous hash as specified |
| AuditChain.Auditor.CheckSession | src/extensions/hash_chain.rs:49-59 | the loop over a session gives the specified report |
| Aggregates.RecomputeNext | src/extensions/aggregates.rs:128-158 | how the recomputation changes when one event is added |
| Aggregates.BoundsOfEvents | src/extensions/aggregates.rs:128-158 | the recomputed times are the least and the greatest time of an event of the session, absent exactly when there is none |
| Aggregates.ColumnsAre | src/extensions/aggregates.rs:128-158 | each column of the recomputation sums its own field over the events of the session, absent values as zero |
| Aggregates.AppendStores | src/store/sqlite/event_write.rs:33-146 | a new event is stored and counted in the row of its session, no other row changes, and an event whose seq is taken changes nothing |
| Aggregates.BatchStores | src/store/sqlite/event_batch.rs:4-41 | after a batch of one session each event, or one with its seq, is stored and the row is the recomputation; an empty or mixed batch changes nothing |
| Aggregates.ApplyKeeps | src/extensions/aggregates.rs:46-68 | a cached row that agrees with the recomputation, or has its times hidden, still does after a new event is inserted and applied |
| Aggregates.UpsertAgrees | src/extensions/aggregates.rs:78-111 | after an upsert the row agrees with the recomputation |
| Aggregates.CachedRowAgrees | src/extensions/aggregates.rs:26-158 | after any mix of appends, batches and rebuilds counts and sums of a cached row equal the full recomputation; its two times do if and only if the last recomputation of the row saw an event or there is none still |
| Aggregates.RunAgrees | src/extensions/aggregates.rs:26-111 | the invariant behind it, for every row after any run |
| Aggregates.RebuildRepairs | src/extensions/aggregates.rs:70-76 | whatever a row held, a rebuild sets it to the recomputation |
| Aggregates.EmptyRebuildHidesTimes | src/extensions/aggregates.rs:26-44 | a rebuild of an empty session and one event leave both times NULL, and the next rebuild sets both |
| Aggregates.UpsertAllEffect | src/extensions/aggregates.rs:70-76 | a rebuild recomputes every session of the workspace and leaves the others |
| Aggregates.AggregateStore.AppendEvent | src/store/sqlite/event_write.rs:33-146 | inserts a new event and updates its row; a repeated seq changes nothing |
| Aggregates.AggregateStore.AppendBatch | src/store/sqlite/event_batch.rs:4-28 | a scanned batch ends with a recomputation of its session |
| Aggregates.AggregateStore.RebuildWorkspace | src/extensions/aggregates.rs:70-76 | the loop over sessions in place |
| RuleKeys.SourceKeyNamesItsParts | src/core_loop/rules.rs:106-165 | for rule ids without a colon two actions share a source key exactly when rule, kind of action, session and seq agree |
| RuleKeys.HitKeyInjective | src/core_loop/rules.rs:161-165 | the hit key of hits with a seq determines session and seq |
| RuleKeys.HitWithoutSeqCollides | src/core_loop/rules.rs:161-165 | a hit without a seq can share the key of another session's event |
| RuleKeys.DecimalInjective | src/core_loop/rules.rs:161-165 | the decimal text of a seq determines it |
| RuleFacts.KeysAre | src/core_loop/rules.rs:106-165 | the source keys, letter by letter |
| RuleFacts.DecimalIs | src/core_loop/rules.rs:161-165 | the text of a seq is its decimal form: digits only, no zero in front, and the right value |
| RuleStore.RerunCompletes | src/core_loop/rules.rs:92-159 | interrupted after any write of any hit and run again on the same hits, a run reaches exactly the case, ref, review and alert entries of one uninterrupted run: those before and those its jobs ask for |
| RuleStore.SecondRunChangesNothing | src/core_loop/rules.rs:92-159 | a further run changes no table |
| RuleStore.ArchivedForGood | src/core_loop/cases.rs:62-68 | whatever runs and clicks follow, a case keeps all but its status and an archived one stays archived |
| RuleStore.ReviewChangesByClickOnly | src/core_loop/review.rs:40-46 | a review changes only by a click on its own id; no run reopens it |
| RuleStore.IdsStayFresh | src/core_loop/cases.rs:8-32 | ids of cases, of reviews and of alerts stay distinct in every reachable state, which is what these results ask of the tables |
| RuleStore.ArchivesOne | src/core_loop/cases.rs:62-68 | archiving changes the status of the one case with the id, or nothing when there is none, and doing it again changes nothing |
| RuleStore.ClickSetsOne | src/core_loop/review.rs:40-46 | a click changes status and time of the one review with the id, or nothing when there is none |
| RuleStore.LastClickCounts | src/core_loop/review.rs:40-46 | of two clicks on a review the last one counts |
| RuleStore.AddRefEffect | src/core_loop/cases.rs:26-32 | adds exactly the entry of the case that has the id, and keeps ids distinct |
| RuleStore.ApplyAllEffect | src/core_loop/rules.rs:92-104 | the entries after a list of jobs are those before and those asked for |
| RuleRuns.HitIffAmongFirst | src/core_loop/query.rs:18-41 | an event is a hit exactly when it matches and fewer than a hundred matching events come before it |
| RuleRuns.HitsSaturate | src/core_loop/query.rs:18-33 | once a hundred events match, events that come later change no hit |
| RuleRuns.ActedOnIffAmongFirst | src/core_loop/rules.rs:57-90 | a pass acts on an event exactly when the rule is enabled, the event matches and is among the first hundred matches |
| RuleRuns.LateMatchIsNeverActedOn | src/core_loop/rules.rs:71-90 | an event with a hundred matches before it is never acted on by any number of runs, whatever events come between them, as long as the matches before it still match |
| RuleRuns.MatchesStayBefore | src/core_loop/query.rs:18-33 | a log that grows anywhere, with verdicts kept, leaves no fewer matches before an event |
| RuleFacts.JobsInTurn | src/core_loop/rules.rs:57-69 | rules that are off give no job, the others theirs in turn, and a filter that does not parse ends the pass |
| RuleFacts.DryRunChangesNothing | src/core_loop/rules.rs:80-84 | a dry run changes no table |
| RuleFacts.ReportsAre | src/core_loop/rules.rs:85-89 | one report for each enabled rule, with its hits, and as many actions unless the run is dry |
| RuleRuns.RunEnabledCompletes | src/core_loop/rules.rs:57-98 | completion and idempotence for whole passes over the enabled rules |
| RuleRows.RowsAlwaysTell | src/core_loop/rules.rs:106-159 | whatever the tables held before, each case, review, alert and ref added by runs, cut short or not and among any clicks, stands under the source key of some rule and hit, with the session, text, severity and fingerprint these prescribe |
| RuleFacts.NewRowsAreOpen | src/core_loop/cases.rs:8-24 | cases, reviews and alerts that a run adds, cut short or not, are open, unresolved and of the time of the run |
| RuleEngine.Tables.CreateCase | src/core_loop/cases.rs:8-24 | insert or ignore, then the row found by the source key |
| RuleEngine.Tables.CreateReview | src/core_loop/review.rs:7-22 | insert or ignore, then the row found by the source key |
| RuleEngine.Tables.Emit | src/core_loop/alerts.rs:9-34 | insert or ignore, then the row found by the source key |
| RuleEngine.Tables.ApplyOne | src/core_loop/rules.rs:98-159 | the three actions in place; it fails exactly when a case action finds no session |
| RuleEngine.Tables.ApplyAll | src/core_loop/rules.rs:92-96 | the loop stops at the first failure and keeps what was written before it |
| RuleEngine.Tables.RunOne | src/core_loop/rules.rs:71-90 | query, then actions unless dry; the reported numbers |
| RuleEngine.Tables.RunEnabled | src/core_loop/rules.rs:57-69 | the pass in place equals the specified pass over all jobs; it succeeds exactly when every enabled filter parses and no action fails |
| SupervisorRuns.EveryRunIsGood | src/daemon/supervisor.rs:47-143 | in every interleaving of the sections of any number of calls, with tasks ending at any time, each capture lists a provider at most once and lists every provider with a handle for its workspace |
| SupervisorRuns.NextKeeps | src/daemon/supervisor.rs:84-143 | each step keeps that invariant, and keeps every status on its way free of repeated providers |
| SupervisorCalls.LookReuses | src/daemon/supervisor.rs:57-59 | a call that looks for a running proxy gets that very endpoint and changes no handle; it goes on to start one exactly when there is no handle or its task has ended |
| SupervisorCalls.RunningProxyIsReused | src/daemon/supervisor.rs:47-63 | until its task ends a running proxy stays the one of its key in every run, no call starts another, and whoever looks for it gets it |
| SupervisorCalls.StoredIsFound | src/daemon/supervisor.rs:101-123 | what was stored last is what later looks find, until its task ends or another is stored |
| SupervisorCalls.MoveGoesOn | src/daemon/supervisor.rs:60-143 | the other sections: a start yields an endpoint of the provider or an error, a store makes it the running one, and the last one adds the capture and keeps all others |
| SupervisorCalls.NewCallsLook | src/daemon/supervisor.rs:84-99 | a plain capture looks for no proxy, a deep one for both providers in turn |
| SupervisorRuns.AgreementLostIff | src/daemon/supervisor.rs:101-143 | captures and handles stop agreeing at exactly the steps that store a status naming another endpoint than the live handle |
| SupervisorRuns.AgreesUnlessOvertaken | src/daemon/supervisor.rs:47-143 | in every run in which no call stores a proxy for a provider another call carries, each capture lists the endpoint of each live handle at every moment |
| SupervisorRuns.RacePartsThem | src/daemon/supervisor.rs:47-143 | a run in which a capture ends with an endpoint no handle holds and without the live one |
| ProxyRegistry.DropKeeps | src/daemon/supervisor.rs:101-107 | what is found is never a finished task; captures stay |
| ProxyRegistry.RememberProxyKeeps | src/daemon/supervisor.rs:109-123 | map and capture hold the same endpoint for the key, and every other entry stays |
| ProxyRegistry.RememberCaptureKeeps | src/daemon/supervisor.rs:125-143 | a status without repeated providers keeps the invariant, and the capture agrees with its handles if and only if the status did |
| ProxyRegistry.AddHandlesContents | src/daemon/supervisor.rs:127-140 | in whatever order the handles come, exactly those whose provider is not listed are added |
| ProxyRegistry.WithoutContents | src/daemon/supervisor.rs:120-120 | exactly the endpoints of the provider go |
| ProxyRegistry.WithoutKeepsOrder | src/daemon/supervisor.rs:120-120 | the others keep their order |
| SupervisorState.Supervisor.ExistingProxy | src/daemon/supervisor.rs:101-107 | drops only a finished handle of the key and returns the endpoint that is left, if any |
| SupervisorState.Supervisor.RememberProxy | src/daemon/supervisor.rs:109-123 | stores a running handle and replaces the endpoint of the provider in the capture, as the specified section does |
| SupervisorState.Supervisor.RememberCapture | src/daemon/supervisor.rs:125-143 | the loop over the handles in any order gives the specified capture |
| CoChange.ParseHistory | src/metrics/git.rs:34-89 | the line loop gives exactly the histories of the listed files, and edges for all commits but the last |
| CoChange.FlushCommit | src/metrics/git.rs:91-102 | each key gains the number of index pairs that name it, no other key appears, and the sum of weights grows by k(k - 1)/2 |
| CoChangeFacts.LogReadsBack | src/metrics/git.rs:42-75 | the log of any commits reads back as these commits |
| CoChangeFacts.EdgesCountPairs | src/metrics/git.rs:80-102 | edges are ordered pairs, none twice; a pair has one exactly when a commit names both at different places; its weight is the number of naming index pairs; all weights add up to the sum of k(k - 1)/2 |
| CoChangeFacts.LastCommitCountsIff | src/metrics/git.rs:42-56 | the edges are those of all commits if and only if the last one lists fewer than two files |
| CoChangeFacts.ReportedCommits | src/metrics/git.rs:42-56 | the commits of a rendered log that are reported: all but the last |
| CoChangeFacts.WeightIsOrdered | src/metrics/git.rs:91-102 | a weight is positive exactly when some commit names the pair, and then its key is ordered |
| GitHistory.HistoryBounds | src/metrics/git.rs:61-78 | churn_30d and authors_90d never exceed churn_90d; a time of change exists exactly for listed files |
| GitHistory.ChurnCountsListings | src/metrics/git.rs:61-65 | churn_90d is the number of listings of the file, churn_30d the number of those no older than thirty days before now |
| GitHistory.AuthorsOf | src/metrics/git.rs:71-78 | the authors of a file are exactly those of the groups that list it |
| GitHistory.FirstListedIsFirst | src/metrics/git.rs:66-68 | the time of change is that of the first group that lists the file |
| GitHistory.FirstListedIsLatest | src/metrics/git.rs:66-68 | in a log with the newest commit first it is the latest time |
| GitHistory.PairKeyUnordered | src/metrics/git.rs:94-98 | the key is ordered and names its two paths whatever their order |
| GitHistory.LeqIsLexicographic | src/metrics/git.rs:96-98 | the order of a key is the lexicographic one |
| CoChange.CountAuthors | src/metrics/git.rs:76-78 | sets the number of authors of every listed file and changes nothing else |
| CoChange.Collect | src/metrics/git.rs:80-88 | one edge for each stored key with its weight |
| UsageScan.WalkIsFold | src/proxy/sse.rs:56-77 | the recursive scan equals the left fold over the nodes in pre-order down to depth 32 |
| UsageScan.WaysAreNodes | src/proxy/sse.rs:56-60 | the nodes visited are exactly those at depth 32 or less |
| UsageScan.WaysOrdered | src/proxy/sse.rs:66-74 | each is visited once, in pre-order |
| UsageScan.BeforeOrders | src/proxy/sse.rs:66-74 | pre-order is a strict total order, so it fixes the list |
| UsageScan.WalkSummary | src/proxy/sse.rs:56-146 | each count is the last one any node states, or the one known before; the stop reason is the one known before, or the first |
| UsageKeys.DirectKeys | src/proxy/sse.rs:79-97 | which key feeds which count: prompt before input, completion before output, and the creation of the cache; a count without its keys stays |
| UsageKeys.DetailKeys | src/proxy/sse.rs:101-116 | cached tokens and reasoning from the details, under the first key or else the second; cached tokens win over the direct key |
| UsageKeys.CacheWithoutDetails | src/proxy/sse.rs:95-97 | without cached tokens in details the direct key of the cache counts |
| UsageKeys.NoUsageStays | src/proxy/sse.rs:63-65 | without a usage object every count stays |
| UsageKeys.StopReasonSources | src/proxy/sse.rs:118-153 | a known reason stays; else the delta, the node itself, the first choice that has one, and the details of an incomplete status, in this order |
| UsageKeys.NumbersToU32 | src/proxy/sse.rs:159-163 | unsigned numbers wrap at 32 bits, negative ones give 0, floating ones lose their fraction and saturate |
| UsageKeys.ChildrenAre | src/proxy/sse.rs:66-74 | every item of an array and every value of an object is scanned, in order |
| UsageKeys.OneLine | src/proxy/sse.rs:26-51 | a body of one line is that line's value; an unreadable one says nothing |
| UsageStream.PiecesJoin | src/proxy/sse.rs:28-28 | the pieces hold no newline and join to the body: no byte is lost |
| UsageStream.PiecesCut | src/proxy/sse.rs:28-28 | a cut at a newline cuts no piece |
| UsageStream.ScanCut | src/proxy/sse.rs:26-42 | scanning a body cut at a newline is scanning the first part and going on from its result on the second |
| UsageStream.StreamSummary | src/proxy/sse.rs:26-42 | over a stream each count is the last one stated by any node of any line, the stop reason the first |
| UsageStream.StopReasonStays | src/proxy/sse.rs:118-121 | a stop reason once found never changes |
| UsageJson.CountsThatFit | src/proxy/sse.rs:159-163 | an unsigned and a floating spelling of a count agree exactly when it fits 32 bits or wraps to the largest value |
| UsageMerge.UsageData.MergeUsageObject | src/proxy/sse.rs:79-99 | the sequence of updates equals what the node says about counts |
| UsageMerge.UsageData.MergeStopReason | src/proxy/sse.rs:118-146 | keeps a known reason; otherwise takes the first source that has one |
| UsageMerge.UsageData.WalkMerge | src/proxy/sse.rs:56-77 | the recursion in place equals the specified scan |
| UsageMerge.UsageData.ParseSseLines | src/proxy/sse.rs:26-42 | the loop over the lines equals the specified stream scan |
| UsageMerge.FirstFinishReason | src/proxy/sse.rs:148-153 | the first choice with a finish reason |
| UsageMerge.FindUsageInBody | src/proxy/sse.rs:18-51 | a fresh record with the result of the scan of the chosen kind |

## Left out

- HTTP, compression, sockets, git processes, file locks, SQLite and Tantivy: only outcomes and tables are modelled.
- Integer widths: counters, milliseconds and costs are unbounded; overflow of `u32`, `u64` and `i64` is not modelled, except the conversion to `u32` in the usage scanner and the bit operations of the Fenwick index.
- Rows arriving while a flush is on its way: a flush sees the table it started with, less its own marks.
- A crash between the row updates of one transaction: transactions are atomic.
- Foreign keys: a write that a foreign key refuses is not modelled; sessions of events are taken as stored where a result needs it.
- `reset_session` of the projector, and more than one session in a projector or an audit: sessions do not share state.
- The choice of span ids and the matching of results to calls in the projector: the id is an input of each step.
- The library's sorts: spans enter `SpanParents` in key order, and the sort by depth is an insertion sort.
- Text parsing: JSON, UTF-8, trimming, the header format of the git log and the query language.
- Reruns after an interruption are over the same events; what new events do to the hits is `RuleRuns.HitsSaturate`.
- Manual and mined cases, built-in alerts and their refs, as writes between the steps of a history: they may stand in the tables it starts from.
- The alert checks and the listing functions of the core loop: same insert-or-ignore statements, easier.
- Fields of a capture status other than proxies and errors, canonical paths, and a poisoned lock: the workspace path of a status is taken as canonical.
- The task handle that a replaced proxy leaves running: only its endpoint is modelled.
- Config merging, enum names, session and experiment lifecycles, cost tables, caches, IPC framing: true but easier.
- Scores and statistics in floating point.
