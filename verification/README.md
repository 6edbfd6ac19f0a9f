# Workspace sync, proved

A Dafny model of how this system keeps chats and workspaces the same on every device: the registry
replica that merges rows by clock, the transcript pipeline from agent events to viewers, the chat log
relay, and the host and room machinery under them (command draining, document eviction, update logs,
fragments, the wedge break). Each fast or incremental form is proved against a simple one, and the
safety claims are about every run of a state machine.

`dafny verify dfyconfig.toml` checks the whole project.

## How the model is laid out

| module | what it models |
|---|---|
| `Hlc`, `Digits` | hybrid logical clocks as strings, and the monotonic clock source |
| `RegistryMerge`, `RegistryHistory` | the per-field last-writer-wins merge, tombstones, seed ops |
| `RegistryDoc`, `RegistryQueue`, `RegistryRuns`, `RegistryLink` | the replica object: overlay, pending batches, wipe recovery, reconnects and restarts |
| `DeviceMerge` | folding a superseded device into another |
| `MessageParts`, `EventFold`, `FoldLaw`, `SegmentWriter` | events to parts to document records, and what the parts show told by the events alone |
| `ListEdits`, `TranscriptDelta`, `TranscriptRoundTrip`, `FrameContents`, `ApplyLaws` | transcript frames to viewers: what travels, where it lands, what the viewer ends with |
| `Pipeline` | the streaming pipeline from events to a viewer, end to end |
| `Utf8`, `SplitParts` | splitting an oversized message |
| `ChatLog`, `ChatRoom`, `ChatRelay`, `RoomLaws`, `CheckpointFetch`, `FetchLaws`, `CheckpointChains` | the chat log, its relay and answers, resumable checkpoint download |
| `CommandDrain`, `Eviction`, `EvictionLaws` | the host executor and its document cache |
| `UpdateLog`, `UpdateRows`, `Fragments`, `SendUpdates`, `FragmentLaws` | room storage and wire fragments |
| `WedgeBreak`, `WedgeWidth`, `WedgeLimits`, `WedgeLog` | crash recovery of a room, overlapping opens, exactly how many it stands, and what it keeps |
| `Picking` | lists picked by a mark on each place, shared by the laws above |

Code that changes fields is a class whose methods are proved equal to a specification function; the
lemmas are about that function. Every induction is written out: no lemma leaves one to the verifier. Wall clocks, random batch ids, quotas, socket failures, crashes and
download interruptions are parameters, so the theorems hold for every choice of them. A Durable Object
event is one atomic step, except in `WedgeBreak`, where an open of the document is cut at its two storage
syncs and any number of opens may be under way at once.

## What turned out to need a condition

Each of these holds of the code exactly under the condition given, and a lemma shows the failure:

- A transcript delta rebuilds the new transcript exactly when the entries it does not re-send keep their
  order (`DiffRoundTrip`). Swapping two blocks passes every check a viewer makes and leaves another
  order (`SwappedBlocksDiverge`): anchors, lengths and the count detect missing rows, not reordered ones.
- The incremental writer equals a wholesale rewrite exactly when no tool that showed diff statistics
  later gets a result without a diff (`WriterRefinesRewrite`): an update never clears a field.
  `StaleStatsStay` shows the stale record on three events.
- A re-seeded row is the old row exactly when it is a tombstone, or was never deleted and has no clocks
  for removed fields (`SeedIsLossless`). The comment at crates/doc/src/registry.rs:148-149 says that
  recovery never coarsens causality; the code forgets those clocks, and the model follows the code.
  `ReseedForgetsRemoval` gives a row whose re-seeded copy takes a stale write that the row itself refuses,
  `ReseedForgetsTombstone` one that was deleted and made again.
- A row leaves a merged device exactly when the fresh clock beats one deciding clock of the row
  (`LeavesExactly`, and `DeviceRowExactly` for the device row itself); the clock source does not look at
  remote clocks. `AheadChatStays` shows a chat left on a tombstoned device. Chats and spaces still fit
  together exactly when each chat of the source moves together with its space (`IntegrityExactly`);
  `LateChatStrands` shows a chat that moves and still names its old space, by then a tombstone.
- A push is recognised as a repeat exactly while its first copy is above the floor (`DedupeWindow`);
  repeated after a checkpoint pruned it, it is stored twice (`ReplayAfterPruneAppends`).
- A checkpoint download from a room returns one committed checkpoint, whatever is cut and whenever it is
  tried, exactly when every mix along its commits is committed (`RoomSplicesExactly`): start with one
  checkpoint, and at each cut go on with a later one of the same seq. The client alone, against a server
  that may hold its checkpoints in any order, needs the stronger condition that they are closed under
  splicing (`SplicesExactly`); `OrderMatters` tells the two apart. Distinct seqs give both
  (`AdvancingStays`, `ClosedStay`), and seqs are distinct exactly when every commit advances
  (`DistinctIffAdvancing`); but the log also accepts a second checkpoint at the same floor
  (`RecommitAtFloorIsAccepted`), and two such blobs can be spliced (`SharedSeqSplices`).
- A dropped log follows `d` deaths of opens in a row, whatever crashes, exactly when at most 4 - d opens are
  between their increment and their reset at once (`DropsNeed`); so the three deaths the limit speaks of
  need opens to come one at a time. The code takes no lock: an open that enters while another waits for its
  sync raises the count again, and four overlapping opens of a healthy room drop its log (`FourOpensDrop`).
  The same overlap makes the count differ from the deaths (`CountIsStreak`), lets a fourth open die in a row
  (`AtMostThreeDeaths`), and with four opens the one the alarm makes right after passing its gate can drop
  the log, so that the emptied document is backed up (`BackupsNeed`, `HollowBackup`).
  The comments at edge/src/session-room.ts:930-936 and 1042-1048 describe opens that do not overlap.
- Only the newest steers run exactly when every steer that stands behind a newer one has expired by its turn
  or is overtaken by one listed later or already in the ledger (`OnlyGreatestSteers`); list order by issue
  time is enough (`SortedSteers`), and out of order a stale steer runs last (`StaleSteerRuns`).
- No command runs twice exactly when no id can fail both of its ledger reads (`LedgerReadsDecide`): a
  failed read counts as "not processed" (crates/engine/src/doc_host.rs:1937).
- Fragment reassembly counts arrivals, not different indexes, so arrivals, however many, restore every update
  exactly when the first of them, as many as there are fragments, are all different (`EachOnceExactly`).
- Emitted clocks strictly increase, across saves and loads, exactly when each call finds the last emitted
  clock in memory or a wall clock past it (`IncreasingExactly`); the comment at
  crates/doc/src/registry.rs:54-55 promises it for every restart, but a load of an older save emits the same
  string again (`StaleLoadRepeats`).
- The same condition keeps batch ids apart (`LinkSafe`): after a restart from an older save two different
  batches can share an id (`StaleRestartRepeats`).
- Clock strings sort as clocks for all clocks below a limit exactly when the limit is at most 10^13 ms
  (`OrderLimit`); the first longer one sorts before its predecessor (`WiderSortsEarlier`).

## Model

| member | source | states |
|---|---|---|
| `Hlc.EncodedOrder` | crates/doc/src/registry.rs:38-50 | Below 10^13 ms and with counters up to 999999, comparing encoded clocks as strings is comparing (ms, counter, device). |
| `Hlc.EncodedApart` | crates/doc/src/registry.rs:42-45 | Clocks with different ms or counter never share a string, whatever the devices. |
| `Hlc.EncodedShape` | crates/doc/src/registry.rs:42-45 | Within those limits a clock is thirteen digits, a dash, six digits, a dash and the device. |
| `Hlc.HlcClock.Next` | crates/doc/src/registry.rs:63-76 | The clock object moves to the next state (wall clock, counter, carry into the next ms) and returns its string. |
| `Hlc.TickLeast` | crates/doc/src/registry.rs:63-76 | The next clock is the least one that is later than the last, not behind the wall clock, and within the counter's width; nothing else is. |
| `Hlc.IncreasingExactly` | crates/doc/src/registry.rs:52-76 | For any sequence of calls, saves and loads, with wall clocks that regress and counter carry, the strings handed out strictly increase if and only if each call finds the last emitted clock in memory, or a wall clock past it, or repeats it under a later device name. |
| `Hlc.EmittedIncreasing` | crates/doc/src/registry.rs:374-412 | In particular if every load gives back the clock in memory. |
| `Hlc.StaleLoadRepeats` | crates/doc/src/registry.rs:392-412 | A load of a save made before the last call hands the same string out again. |
| `Hlc.WiderSortsEarlier` | crates/doc/src/registry.rs:42-45 | At 10^13 ms the padding runs out and a later clock sorts earlier. |
| `Hlc.OrderLimit` | crates/doc/src/registry.rs:38-50 | String order is clock order for all clocks below a limit if and only if the limit is at most 10^13 ms. |
| `RegistryMerge.ComputeMaxClock` | crates/doc/src/registry.rs:113-122 | The loop returns the greatest of the field clocks and the tombstone clock, none if there is none. |
| `RegistryMerge.Apply` | crates/doc/src/registry.rs:166-250 | The cloning, looping merge computes the specification merge and the specified report of a change (`RevivalIs`, `DeleteIs`, `FoldJoins` and `ChangedExactly` say what those are). |
| `RegistryMerge.MergeWrites` | crates/doc/src/registry.rs:228-249 | Going through the writes one by one gives the field-wise merge, and the flag tells whether any write won. |
| `RegistryMerge.ChangedExactly` | crates/doc/src/registry.rs:227-250 | A change is reported if and only if the row, with its clocks, is another one afterwards. |
| `RegistryMerge.DeleteIs` | crates/doc/src/registry.rs:167-192 | A delete leaves an empty tombstone at its own clock if and only if it is later than the tombstone clock and, on a live row, than every field clock; otherwise the row stays; on a missing row it always does. |
| `RegistryMerge.RevivalIs` | crates/doc/src/registry.rs:209-243 | A row that is not live becomes live if and only if an upsert creates it or is newer than its tombstone; its fields are then exactly the upsert's non-null values, its clocks exactly the upsert's clocks of the fields written, and key, seq and tombstone clock stay. |
| `RegistryMerge.RevivalJoins` | crates/doc/src/registry.rs:209-243 | From a reviving or creating upsert on, with refused deletes in between or not, the row is the join of what that upsert and the later ops wrote; nothing of the time before is left. |
| `RegistryMerge.RevivalConverges` | crates/doc/src/registry.rs:209-243 | After the same reviving upsert, op lists with the same writes end in the same row. |
| `RegistryMerge.LifeIs` | crates/doc/src/registry.rs:166-250 | After any ops at all, a live row is the join of the writes of its current life: all ops if it never died, otherwise those from the last reviving upsert on. |
| `RegistryMerge.FoldJoins` | edge/src/registry-core.ts:106-156 | Folding upserts and updates over a live row leaves, per field, a write with the greatest clock among the row and all ops; fields nobody wrote are kept. |
| `RegistryMerge.Convergence` | crates/doc/src/registry.rs:166-250 | Two op lists with the same set of field writes give the same row, whatever their order, grouping and repetition. |
| `RegistryMerge.AnyDeliveryOrder` | crates/doc/src/registry.rs:166-250 | Any permutation or duplication of the ops gives the same row. |
| `RegistryMerge.UpdateBeforeCreateIsLost` | crates/doc/src/registry.rs:194-198 | Off a live row order matters: an update before its create is dropped. |
| `RegistryMerge.DeleteDoesNotCommute` | crates/doc/src/registry.rs:166-192 | A delete and a later field write do not commute. |
| `RegistryHistory.HistorySafe` | crates/doc/src/registry.rs:113-250 | Over any ops from nothing: tombstones have no fields and no field clocks, every present field has a clock, rows never vanish, and the newest clock never decreases. |
| `RegistryHistory.TombstoneHolds` | crates/doc/src/registry.rs:166-220 | Any number of ops stamped at or below a tombstone's clock leave it unchanged. |
| `RegistryHistory.DeleteGuards` | crates/doc/src/registry.rs:166-220 | After an accepted delete at clock d, the row stays that tombstone under every list of ops stamped at or below d. |
| `RegistryHistory.RowToSeedOp` | crates/doc/src/registry.rs:254-284 | The looped seed op is the specified one: a delete for a tombstone, otherwise an upsert with the original clocks of the fields present. |
| `RegistryHistory.SeedRebuilds` | crates/doc/src/registry.rs:254-284 | Applied to nothing, the seed op rebuilds the row: key, fields, clock of every present field, tombstone clock. |
| `RegistryHistory.SeedIsLossless` | crates/doc/src/registry.rs:254-284 | The rebuilt row is the old row if and only if it is a tombstone, or has no tombstone clock and no clock without a field. |
| `RegistryHistory.SeedIsIdempotent` | crates/doc/src/registry.rs:254-284 | A seed op changes nothing on a server that still has the row. |
| `RegistryHistory.SeedMeetsTombstone` | crates/doc/src/registry.rs:254-284 | Against a tombstone a seeded live row comes back if and only if one of its own clocks is later than the tombstone, or, if it has none, the zero clock is. |
| `RegistryHistory.ReseedForgetsRemoval` | crates/doc/src/registry.rs:272-282 | A row reached by setting and removing a field refuses an older write to it; the row its seed rebuilds takes that write. |
| `RegistryHistory.ReseedForgetsTombstone` | crates/doc/src/registry.rs:272-282 | A row deleted and made again comes back without its tombstone clock. |
| `RegistryDoc.ChunkExact` | crates/doc/src/registry.rs:543-573 | Cutting ops into batches loses, repeats and reorders nothing, and every batch is nonempty, within the cap and not in flight. |
| `RegistryQueue.ChunkFull` | crates/doc/src/registry.rs:543-573 | All batches but the last hold exactly 400 ops, so there are as few as possible. |
| `RegistryDoc.Replica.EnqueueOps` | crates/doc/src/registry.rs:543-573 | The loop appends exactly those batches to the pending queue and advances the clock once per batch. |
| `RegistryDoc.Replica.NextHlc` | crates/doc/src/registry.rs:534-541 | The replica's clock ticks on the wall clock alone; remote clocks are never looked at. |
| `RegistryDoc.Replica.ApplyState` | crates/doc/src/registry.rs:417-479 | A delta puts rows; a full state replaces the table and re-seeds exactly the rows it lacks; a full state with a lower seq keeps the table and re-seeds everything, each row once. |
| `RegistryDoc.Replica.SeedFor` | crates/doc/src/registry.rs:430-470 | The seed ops list each wanted row exactly once. |
| `RegistryDoc.Replica.ApplyRows` | crates/doc/src/registry.rs:481-490 | Broadcast rows replace their own keys and nothing else; the cursor never goes back. |
| `RegistryQueue.PutAllExactly` | crates/doc/src/registry.rs:417-490 | A list of rows replaces each key it names by the last row for it, whole, and touches no other key. |
| `RegistryDoc.Replica.AckBatch` | crates/doc/src/registry.rs:492-503 | An ack removes the batches of that name, keeps the rest in order and reports whether there was one. |
| `RegistryQueue.RetireExactly` | crates/doc/src/registry.rs:492-503 | What is left after an ack is every batch of another id, in order. |
| `RegistryDoc.Replica.TakePushable` | crates/doc/src/registry.rs:507-517 | Returns the batches not in flight, in order, and marks all as in flight. |
| `RegistryQueue.PushExactly` | crates/doc/src/registry.rs:507-517 | A push takes exactly the batches that were not in flight, oldest first. |
| `RegistryQueue.FlagExactly` | crates/doc/src/registry.rs:507-523 | Marking all batches, on a push or a disconnect, keeps ids, ops and order. |
| `RegistryDoc.Replica.MarkDisconnected` | crates/doc/src/registry.rs:519-523 | Every pending batch becomes pushable again, in place. |
| `RegistryDoc.Replica.OverlayRow` | crates/doc/src/registry.rs:606-623 | What the nested loops show is the server row with all pending ops of that key folded in, hidden if that is a tombstone. |
| `RegistryDoc.ReplayAt` | crates/doc/src/registry.rs:606-623 | Replaying ops on a whole table does to each row what folding that row's own ops does. |
| `RegistryRuns.WipeRecovery` | crates/doc/src/registry.rs:417-451 | Replaying the enqueued seed batches on an empty table rebuilds every row, in whatever order the table was walked. |
| `RegistryRuns.RecoverFromWipe` | crates/doc/src/registry.rs:417-451 | The same of the object: after a full state with no rows and a lower seq, with nothing pending before, the pending batches rebuild the table on an empty server and each respects the cap. |
| `RegistryRuns.OverlayStable` | crates/doc/src/registry.rs:481-523 | On a live row with delete-free ops: however the server interleaved the first batch with others' writes, the overlay over its merged row is the old overlay joined with those writes, before the ack and after it. |
| `RegistryRuns.AckKeepsOverlay` | crates/doc/src/registry.rs:492-523 | The same for the replica's overlay of a key when the merged row arrives and the first batch is acknowledged. |
| `RegistryLink.LinkSafe` | crates/doc/src/registry.rs:374-601 | In every run of stamping, enqueueing, pushing, disconnecting, acknowledging, saving and restarting whose clock calls are safe: no two batches ever made share an id, none is pushed twice on one connection, and a batch is in flight exactly when it was pushed on this connection. |
| `RegistryLink.RunDraws` | crates/doc/src/registry.rs:534-601 | The clock of a run is the clock source after exactly its calls (one per write, one per batch), saves and loads. |
| `RegistryLink.DrawnExactly` | crates/doc/src/registry.rs:374-412 | The clock strings a run draws strictly increase if and only if each call finds the last one drawn in memory or a wall clock past it. |
| `RegistryLink.NoLoadSafe` | crates/doc/src/registry.rs:538-541 | Without a restart every call is safe. |
| `RegistryLink.StaleRestartRepeats` | crates/doc/src/registry.rs:392-412 | A restart from a save made before the last enqueue gives two different batches one id. |
| `RegistryLink.UnackedStaysPending` | crates/doc/src/registry.rs:492-523 | A batch stays pending with its ops until its own id is acknowledged or a restart goes back to a save without it. |
| `DeviceMerge.AfterAt` | crates/doc/src/registry.rs:702-800 | Key by key, what the batch does: one op per row of the source device, one for its device row, nothing elsewhere. |
| `DeviceMerge.MergeKeepsIntegrity` | crates/doc/src/registry.rs:686-800 | If every chat's space is a live space on the chat's own device and the fresh clock beats the touched rows, that still holds afterwards, the chat ids are the same, each chat and space of the source is as the two rows below say, its sessions are tombstones, nothing of the source remains, and other rows are untouched. |
| `DeviceMerge.TwinExactly` | crates/doc/src/registry.rs:718-724 | Spaces are coalesced by path and nothing else: a space has a counterpart if and only if a live space of the target has its path, and then it is such a space. |
| `DeviceMerge.SpaceRehomes` | crates/doc/src/registry.rs:773-788 | A space of the source is a tombstone if and only if a live space of the target has the same path; otherwise it is the target's with its id, its path and all other fields, less checkout and git stamp. |
| `DeviceMerge.ChatRehomes` | crates/doc/src/registry.rs:743-771 | A chat of the source is the target's with all other fields kept; if it named a space it names one at the same path, that of the target unchanged if it has the path and otherwise its own, and has that space's checkout; if it named none its checkout stays. |
| `DeviceMerge.LeavesExactly` | crates/doc/src/registry.rs:702-800 | Without assuming anything about clocks: a row leaves the source device if and only if the fresh clock beats its `deviceId` clock (re-homed) or its newest clock (tombstoned). |
| `DeviceMerge.DeviceRowExactly` | crates/doc/src/registry.rs:702-800 | The source device's own row is gone if and only if the fresh clock beats its newest clock. |
| `DeviceMerge.ChatFitsExactly` | crates/doc/src/registry.rs:738-790 | A chat of the source names a live space on its own device afterwards if and only if the fresh clock beats its `deviceId`, its `spaceId` and the deciding clock of its space alike: with a twin it gets both device and space or nothing moves, without one both move or neither. |
| `DeviceMerge.IntegrityExactly` | crates/doc/src/registry.rs:702-800 | Whatever the clocks, every chat still fits its space if and only if each chat of the source that names a space moves together with it. |
| `DeviceMerge.LateChatStrands` | crates/doc/src/registry.rs:738-790 | A chat whose `spaceId` was written at a clock ahead of the batch moves to the target and names a tombstone. |
| `DeviceMerge.AheadChatStays` | crates/doc/src/registry.rs:702-800 | A chat whose `deviceId` was written at a clock ahead of the batch stays on the source device, whose row is a tombstone. |
| `DeviceMerge.ReadKind` | crates/doc/src/registry.rs:626-656 | The loop lists each visible, readable row of a kind exactly once. |
| `DeviceMerge.MergeDevice` | crates/doc/src/registry.rs:702-800 | The object merges exactly when both devices are different and visible, otherwise changes no batch; when it merges, its overlay has the integrity result above, with every chat in a space at its old path. |
| `EventFold.Segment.Fold` | crates/doc/src/parts.rs:230-376 | The in-place edits (growing the trailing part, searching for the tool to refresh or the input already asked, resolving in a loop) leave the specified fold of the parts list, which `FoldTells` describes by the events alone. |
| `FoldLaw.FoldTells` | crates/doc/src/parts.rs:230-376 | For any events, the fold has one part per opening event since the last boundary, in order: a text or commentary holds its own run of deltas, a tool its last call and the error flag and diff statistics of the last result since its first call (and is resolved if and only if there is one), an input is resolved if and only if its request was resolved since it was asked, and each notice, error and failed end holds its message. |
| `FoldLaw.OpensExactly` | crates/doc/src/parts.rs:230-376 | An event opens a part if and only if no part takes it up: a delta unless the newest part is of its kind, the first call of a tool, the first request under its id, every notice, error and failed end. |
| `SegmentWriter.DocPartRoundTrip` | crates/doc/src/schema.rs:99-215 | Reading back a written part gives it exactly when an input's id is its request id and an errored tool is resolved; an input always comes back named by its request. |
| `SegmentWriter.ReadsBackAnything` | crates/doc/src/schema.rs:167-215 | Any record reads back as a part with its id; an unknown kind, or a tool without a call, as text, and missing fields as their defaults. |
| `SegmentWriter.DocSegmentWriter.Commit` | crates/doc/src/schema.rs:865-925 | The writing loop stores the specified difference and its mirror, and fails exactly when a text record it must grow has no body. |
| `SegmentWriter.SyncKeepsRest` | crates/doc/src/schema.rs:865-925 | Records past the end of the folded parts stay as they are. |
| `SegmentWriter.FoldCovers` | crates/doc/src/parts.rs:230-376 | An event never shortens the list, and keeps every stored field of a part expressible unless it is a result without a diff for a tool that shows diff statistics. |
| `SegmentWriter.SyncExact` | crates/doc/src/schema.rs:945-988 | From a faithful record list, a sync leaves the records of the new parts if and only if no part loses a field the writer cannot clear. |
| `SegmentWriter.FaithfulIsWritable` | crates/doc/src/schema.rs:884-905 | While the records are those of the parts written, a sync never fails for a missing text body. |
| `SegmentWriter.FinishedFaithful` | crates/doc/src/schema.rs:865-940 | For events without a turn boundary or downgrade and any choice of ticks, the finished document holds the records of the folded parts. |
| `SegmentWriter.EveryTickMirrors` | crates/doc/src/schema.rs:865-925 | Syncing after every event keeps the mirror and the records equal to the fold. |
| `SegmentWriter.DowngradeShows` | crates/doc/src/schema.rs:945-988 | The first downgrade leaves a stale record when it is synced after each earlier event. |
| `SegmentWriter.WriterRefinesRewrite` | crates/doc/src/schema.rs:865-988 | Every prefix of the events and every choice of ticks ends with the records of a wholesale rewrite, if and only if there is no downgrade. |
| `SegmentWriter.StaleStatsStay` | crates/doc/src/schema.rs:945-988 | A tool call, a result with a diff and a result without one, synced after the first two: the finished record keeps the old statistics, the fold has none. |
| `ListEdits.PassReaches` | crates/doc/src/transcript_delta.rs:183-220 | A pass of "take out, put back after the predecessor" over distinct ids reaches the target order if and only if the ids it leaves alone were in order. |
| `TranscriptDelta.TryTextAppend` | crates/doc/src/transcript_delta.rs:78-113 | The early-returning loop computes the scan, which `TailExactly` describes. |
| `FrameContents.TailExactly` | crates/doc/src/transcript_delta.rs:75-113 | The fast path is taken if and only if one text or commentary part grew and nothing else of the entry changed, and it carries exactly that part's tail and new length. |
| `TranscriptDelta.DiffTranscript` | crates/doc/src/transcript_delta.rs:119-173 | The looped diff is the specified plan per entry and frame, which `PlanExactly` and `FrameExactly` describe by the two transcripts alone. |
| `FrameContents.PlanExactly` | crates/doc/src/transcript_delta.rs:119-165 | An entry travels whole if and only if it is new, follows another entry than before, or changed other than by growth of one text part; it travels by its tail if and only if it stands where it stood and one text part grew. |
| `FrameContents.FrameExactly` | crates/doc/src/transcript_delta.rs:119-173 | The frame is the whole transcript if and only if that has more than four entries of which at least half travel whole; otherwise it lists, each in order, those entries with their neighbours, the tails, and the ids that are gone. |
| `FrameContents.OneTextGrows` | crates/doc/src/transcript_delta.rs:75-113 | When one text part of one entry grew, its tail is all the frame holds, whatever the length of the transcript. |
| `FrameContents.NothingChanged` | crates/doc/src/transcript_delta.rs:115-173 | The diff of a transcript with itself is empty if and only if no id repeats. |
| `TranscriptDelta.TranscriptView.Apply` | crates/doc/src/transcript_delta.rs:183-255 | Editing the list in place gives the specified result, or reports the same desync. |
| `ApplyLaws.UpsertExactly` | crates/doc/src/transcript_delta.rs:203-217 | An upsert replaces the entry of its id and lands first or directly behind its anchor; the viewer is out of step exactly when the anchor is missing. |
| `ApplyLaws.AppendExactly` | crates/doc/src/transcript_delta.rs:218-245 | A tail goes to the first text part of its id in the first entry of its id and changes nothing else; the viewer is out of step exactly when one is missing or the length told is not reached. |
| `ApplyLaws.RetainExactly` | crates/doc/src/transcript_delta.rs:198-202 | A removal leaves every other entry, in order. |
| `ApplyLaws.CountHolds` | crates/doc/src/transcript_delta.rs:246-252 | An accepted frame leaves as many entries as it says. |
| `TranscriptRoundTrip.AppendRebuilds` | crates/doc/src/transcript_delta.rs:78-113 | Growing the old entry by the found tail gives exactly the new entry, if its text parts have distinct ids. |
| `TranscriptRoundTrip.DiffRoundTrip` | crates/doc/src/transcript_delta.rs:119-255 | Applying a diff never desyncs, keeps the length and only entries of the new transcript, and gives the new transcript if and only if the frame is a reset or the entries not re-sent keep their order. |
| `TranscriptRoundTrip.SurvivorsImplyKept` | crates/doc/src/transcript_delta.rs:115-118 | Survivors in the same relative order, as a list without moves gives, are enough. |
| `TranscriptRoundTrip.WatchFollowsSource` | crates/doc/src/transcript_delta.rs:119-255 | A viewer fed a reset and then any stream of diffs holds the source after each. |
| `TranscriptRoundTrip.SwappedBlocksDiverge` | crates/doc/src/transcript_delta.rs:119-255 | `[a,b,c,d]` to `[c,d,a,b]` applies without error and is not reproduced. |
| `Pipeline.FoldSays` | crates/doc/src/parts.rs:230-376 | For any events, the texts of the folded parts end to end are the text deltas since the last turn boundary end to end, and the same for commentary. |
| `Pipeline.FoldAllNames` | crates/doc/src/parts.rs:235-260 | In every fold a text or commentary part is named by its place in the list. |
| `Pipeline.NamedIsUnique` | crates/doc/src/parts.rs:235-260 | So no two of them share an id, which is what the delta codec needs of an entry. |
| `Pipeline.RunNames` | crates/doc/src/schema.rs:865-925 | The same of what the writer has stored at any tick. |
| `Pipeline.StreamReachesViewer` | crates/doc/src/transcript_delta.rs:119-255 | Events folded, stored at any choice of ticks, read back and sent as diffs: the viewer ends with the earlier entries as they were and the live entry complete, with one part per opening event, each showing what the events tell of it (an input under its request id), and its text and commentary are exactly what the deltas carried. |
| `Utf8.BoundaryExactly` | crates/doc/src/parts.rs:498-501 | A well-formed string splits into well-formed halves exactly at its ends and at bytes that continue no character (sections 3 and 4 of RFC 3629). |
| `SplitParts.GuardNeverTaken` | crates/doc/src/parts.rs:497-505 | From a boundary of a well-formed text the search for a cut moves forward, stops on a boundary at most three bytes short of the cap, and the guard is never taken. |
| `SplitParts.FindCut` | crates/doc/src/parts.rs:498-505 | The inner loop and guard compute the last boundary within reach. |
| `SplitParts.SplitTextRestored` | crates/doc/src/parts.rs:493-517 | A split text becomes at least two pieces of its kind with its numbered ids, each nonempty well-formed text within the cap, and their concatenation is the exact text. |
| `SplitParts.Push` | crates/doc/src/parts.rs:481-489 | Pushing a part keeps the chunks packed, adds the part at the end of the joined list, and keeps the running size right. |
| `SplitParts.Split` | crates/doc/src/parts.rs:477-552 | Joining the chunks restores all parts in order with each oversized text as its pieces, and a new chunk is opened only when the next part does not fit. |
| `SplitParts.AllTextRestored` | crates/doc/src/parts.rs:477-552 | Over all parts together the texts, end to end, are what they were. |
| `SplitParts.ChunksWithinCap` | crates/doc/src/parts.rs:472-546 | Every chunk is within the cap if and only if every part that is not text is. |
| `ChatLog.CommitOk` | edge/src/chat-log.ts:128-149 | A commit is accepted exactly when it is nonempty and between floor and head, prunes exactly new floor minus old floor rows, and keeps the log invariant. |
| `ChatLog.AppendOk` | edge/src/chat-log.ts:65-88 | An append is accepted exactly when its bytes are neither empty nor over the row cap; it then adds the next seq to the history or is a repeat, and otherwise leaves the log as it was. |
| `ChatLog.LogConserved` | edge/src/chat-log.ts:65-149 | In every reachable state floor is at most head, the rows are the accepted history at (floor, head] with distinct batch ids, and reading after any cursor from the floor up is the history suffix, filtered by device when asked. |
| `ChatLog.LogMonotone` | edge/src/chat-log.ts:65-149 | Over any run head and floor never decrease and the history only grows. |
| `ChatLog.DedupeWindow` | edge/src/chat-log.ts:65-80 | A push is a duplicate if and only if its batch id is on a row above the floor, and is then answered with that row's seq. |
| `ChatLog.ReplayAfterPruneAppends` | edge/src/chat-log.ts:65-149 | A batch repeated after the checkpoint that covers it is stored again. |
| `ChatRoom.RoomObject.HandleHello` | edge/src/chat-room.ts:266-291 | Hello takes the device name, makes the socket ready and answers with the log's state. |
| `RoomLaws.HelloExactly` | edge/src/chat-room.ts:266-291 | In every reachable state: hello makes the socket ready under the name given, or its old name if none is, and answers with how much was ever accepted, the floor, and the number of rows between. |
| `ChatRoom.RoomObject.HandleRowsReq` | edge/src/chat-room.ts:293-305 | A ready socket gets the rows after its cursor in order and a done frame, another one an error. |
| `RoomLaws.RowsExactly` | edge/src/chat-room.ts:293-305 | In every reachable state: before hello one refusal; then the rows of the accepted history above floor and cursor, in order, less the asking device's own if it asks so and has a name, and then the head; nobody else hears anything. |
| `ChatRoom.RoomObject.HandlePush` | edge/src/chat-room.ts:307-358 | The four refusals, the stored row relayed to every other ready socket, and the ack to the sender alone. |
| `RoomLaws.PushExactly` | edge/src/chat-room.ts:307-358 | In every reachable state: a push is refused with its reason, or acknowledged with the seq of the stored row of its batch, and nothing else changes; or it becomes the next row of the history, goes once to every other ready socket, and is acknowledged with its seq. |
| `ChatRoom.RoomObject.HandleCheckpoint` | edge/src/chat-log.ts:128-149 | A checkpoint changes rows and floor only and returns the commit's outcome. |
| `RoomLaws.CheckpointExactly` | edge/src/chat-log.ts:128-149 | In every reachable state: an empty checkpoint, one below the floor and one above the head are told apart and change nothing; any other becomes the floor and exactly the rows it covers go. |
| `ChatRelay.RunAllOk` | edge/src/chat-room.ts:266-358 | In every run the row frames each open socket got since its request are exactly the backfill it asked for and every later row it did not push. |
| `ChatRelay.NoGapRelay` | edge/src/chat-room.ts:266-358 | So they have strictly increasing seqs, each is the accepted row of that seq, and every seq after the cursor was sent, pushed by the socket itself, or written by the device it excluded. |
| `CheckpointFetch.NoSplice` | crates/engine/src/chat2_host.rs:142-219 | If a seq names one blob, then for any pattern of drops and replacements the resume loop returns an error or the complete bytes of one checkpoint (compare section 15.3.7.3 of RFC 9110). |
| `CheckpointFetch.Fetch` | crates/engine/src/chat2_host.rs:142-219 | The loop computes that result from the ranged answers of edge/src/chat-room.ts:135-161. |
| `FetchLaws.SteadyExactly` | crates/engine/src/chat2_host.rs:142-219 | While one checkpoint is held the download returns it if and only if some attempt completes before one is refused, each cut attempt resuming where the last one stopped (a range at or past the end is refused); it reports a missing token if and only if that comes first. |
| `FetchLaws.ReplacedRestarts` | crates/engine/src/chat2_host.rs:142-219 | When another checkpoint has taken its place, the attempt that finds out starts over and succeeds exactly when the remaining attempts would from nothing; if the new one is no longer than what was gathered the download fails. |
| `FetchLaws.NothingHeld` | edge/src/chat-room.ts:135-161 | With nothing committed an attempt that reaches the server ends the download with an error. |
| `FetchLaws.ThreeMayFail` | crates/engine/src/chat2_host.rs:142-219 | There are four attempts: three may fail to connect and the fourth still returns the checkpoint. |
| `CheckpointFetch.DistinctIffAdvancing` | edge/src/chat-log.ts:128-149 | Committed checkpoints have distinct seqs if and only if every commit advances past the one it replaces. |
| `CheckpointFetch.AdvancingRoomNeverSplices` | edge/src/chat-room.ts:135-161 | In a room where every commit advances, no download is spliced. |
| `CheckpointFetch.RecommitAtFloorIsAccepted` | edge/src/chat-log.ts:128-149 | The log accepts two different checkpoints at the same seq. |
| `CheckpointFetch.SharedSeqSplices` | crates/engine/src/chat2_host.rs:142-219 | Two blobs with one seq can be spliced into bytes that are neither. |
| `CheckpointFetch.SplicesExactly` | crates/engine/src/chat2_host.rs:142-219 | The client against a server that holds any of a set of checkpoints at each attempt, from two attempts up: every completed download is one of them with a seq that was held, if and only if splicing two of equal seq anywhere gives one of them. |
| `CheckpointChains.ChainsExactly` | crates/engine/src/chat2_host.rs:142-219 | For any list of commits and number of attempts: every completed download, over all cuts and all forward moves of the server along the list, is one of the commits with a seq that was held, if and only if the mix of every chain of at most so many of them is. |
| `CheckpointChains.RoomSplicesExactly` | edge/src/chat-room.ts:135-161 | The same of a room: four attempts at any moments of its run, against the checkpoint it holds at each. |
| `CheckpointChains.ClosedStay` | edge/src/chat-log.ts:128-149 | Commits closed under splicing have only mixes that are commits. |
| `CheckpointChains.OrderMatters` | edge/src/chat-log.ts:128-149 | Two commits at one seq that no download from the room can mix, although together they are not closed. |
| `CheckpointFetch.AdvancingStays` | edge/src/chat-log.ts:128-149 | Where every commit advances, the committed checkpoints are closed under splicing. |
| `CommandDrain.Host.Drain` | crates/engine/src/doc_host.rs:1918-1987 | On a frozen list the loop ends; it resolves each unprocessed pending entry by a verdict stated on the list as it was, executes in document order, and marks all of them. |
| `CommandDrain.EvaluateIsVerdict` | crates/doc/src/commands.rs:138-175 | What evaluation sees halfway through a pass is the verdict on the original list: newer entries count if listed later or already in the ledger. |
| `CommandDrain.RunsExactly` | crates/doc/src/commands.rs:138-175 | Of every kind: a pass runs a command if and only if it is pending and not in the ledger, its own limit or one day after issue is not reached, no newer pending one of its kind is listed later or in the ledger if it is a steer or interrupt, and, for an interrupt, it names no turn, the running turn, or a turn the transcript does not hold. |
| `CommandDrain.FateExactly` | crates/doc/src/commands.rs:138-175 | What the pass leaves of each entry over the same fields: expired, superseded, applied or rejected, with all else untouched, or the entry as it was. |
| `CommandDrain.RunsInOrder` | crates/engine/src/doc_host.rs:1918-1987 | Commands run in document order. |
| `CommandDrain.DrainResolves` | crates/engine/src/doc_host.rs:1918-1987 | After a pass no entry is left to handle, handled entries changed in status only, others not at all, and exactly the executed ones end applied or rejected. |
| `CommandDrain.ExecutedOnce` | crates/engine/src/doc_host.rs:1918-1987 | One pass executes no id twice. |
| `CommandDrain.OnlyGreatestSteers` | crates/doc/src/commands.rs:148-165 | Only steers with the greatest issue time execute, if and only if every steer to be handled that stands behind a newer one has expired when its turn comes or is overtaken by one listed later or already in the ledger. |
| `CommandDrain.SortedSteers` | crates/doc/src/commands.rs:148-165 | So it is when list order follows issue time. |
| `CommandDrain.StaleSteerRuns` | crates/doc/src/commands.rs:148-165 | Out of order, the older steer also runs, after the newer one. |
| `CommandDrain.NeverTwice` | crates/engine/src/doc_host.rs:1948-1962 | With one drainer, crashes at any point and any edits to the document, no id is executed twice and nothing the ledger held is executed, as long as no id can fail both ledger reads. |
| `CommandDrain.LedgerReadsDecide` | crates/engine/src/doc_host.rs:1937-1962 | That condition is exact: if some id can fail both reads, there is a run that executes it twice. |
| `Eviction.DocHost.EvictOverBudget` | crates/engine/src/doc_host.rs:1540-1581 | The pass removes exactly the unpinned documents before the point where it stops, and stops at the first young document, within both caps, or at the end. |
| `Eviction.EvictedFairly` | crates/engine/src/doc_host.rs:1540-1628 | An evicted document was neither pinned nor recently touched, every older unpinned one went too, and a cap was still exceeded without those. |
| `Eviction.EvictionGuarantee` | crates/engine/src/doc_host.rs:1530-1628 | The pass ends within both caps, or every document left is pinned or idle under the minimum; kept documents are unchanged. |
| `EvictionLaws.PassExactly` | crates/engine/src/doc_host.rs:1530-1628 | Over the documents' own fields: the pass goes on as long as the next oldest was idle for thirty seconds and more than twelve documents or more than eighty megabytes are open, stops there, and has closed exactly the documents before that which nobody watches or writes and which owe no pending command. |
| `UpdateLog.UpdateTable.AppendUpdateRow` | edge/src/update-log.ts:32-43 | Whatever the table held, an append adds exactly that logical update (nothing if empty), in rows that are nonempty and within the row cap. |
| `UpdateRows.ChunksExactly` | edge/src/update-log.ts:32-43 | Row i of an update holds its i-th 1 500 000 bytes, all rows but the last are full, and only the first opens an update. |
| `UpdateLog.UpdateTable.ReadUpdateRows` | edge/src/update-log.ts:45-66 | The gathering loop yields the logical updates of the rows. |
| `UpdateRows.ReadsExactly` | edge/src/update-log.ts:45-66 | Whatever rows there are, reading gives one update per opening row (the first row always is one), in order, with the bytes up to the next opening row. |
| `UpdateLog.AppendReads` | edge/src/update-log.ts:32-66 | Reading after an append is reading before it plus the update, for any earlier rows. |
| `UpdateLog.LogRoundTrip` | edge/src/update-log.ts:32-66 | After any sequence of appends, reading yields the nonempty updates in order and every row is within the cap. |
| `Fragments.Socket.HandleFragmentHeader` | edge/src/session-room.ts:806-853 | A header is refused for a stranger, for its size or for a penalized device; otherwise it opens its batch and no other. |
| `FragmentLaws.HeaderExactly` | edge/src/session-room.ts:806-853 | The refusals in order with their limits (32 megabytes, 4096 fragments, 4096 bytes for a penalized sender), each changing nothing; otherwise the batch starts over with that many empty parts. |
| `FragmentLaws.UpdateExactly` | edge/src/session-room.ts:640-659 | A plain update over 262 144 bytes is refused before membership is looked at, then a stranger, and otherwise all its updates go on. |
| `Fragments.Socket.HandleFragment` | edge/src/session-room.ts:855-884 | A fragment without a batch is refused or ignored; the last one closes its batch and hands on the assembled bytes, or throws. |
| `FragmentLaws.StrayFragment` | edge/src/session-room.ts:855-872 | A fragment nobody announced asks for the batch again, or is dropped from a penalized sender, and changes nothing. |
| `Fragments.Assemble` | edge/src/session-room.ts:876-882 | Copying the parts into a zeroed buffer gives their concatenation padded with zeros, and throws exactly on a hole or an overrun. |
| `Fragments.BatchesIndependent` | edge/src/session-room.ts:806-884 | What a batch yields, and what is left of it, depends on its own messages only. |
| `Fragments.OneUpdateReassembles` | edge/src/session-room.ts:855-884 | An admitted update whose fragments arrive once each in any order comes out exactly and leaves nothing behind. |
| `Fragments.InterleavedReassembles` | edge/src/session-room.ts:806-884 | The same whatever other batches arrive in between. |
| `Fragments.EachOnceExactly` | edge/src/session-room.ts:873-875 | Arrivals in some order, however many, restore every update of a length if and only if there are at least as many as fragments and the first that many are all different. |
| `SendUpdates.Send` | edge/src/session-room.ts:1328-1381 | Small updates travel first, in order, in tightly packed nonempty frames within `FRAGMENT_BYTES`; then each large update once, as a header and its slices; success means every frame was taken. |
| `SendUpdates.NothingLost` | edge/src/session-room.ts:1345-1354 | The two loops together take every update exactly as often as it was given. |
| `SendUpdates.SentIsReceived` | edge/src/session-room.ts:1328-1381 | A receiver with the room's rules gets the small updates in order and then the large ones in order, except exactly those over its reassembly limit. |
| `FragmentLaws.ReceivedExactly` | edge/src/session-room.ts:1328-1381 | The receiver gets exactly the updates up to 200 000 bytes in order and then the larger ones up to 32 megabytes in order. |
| `FragmentLaws.FragmentsFull` | edge/src/session-room.ts:1355-1379 | A large update goes in as few fragments as possible, all but the last of 200 000 bytes. |
| `SendUpdates.SentIsBounded` | edge/src/session-room.ts:1328-1381 | No frame carries more than `FRAGMENT_BYTES` of payload. |
| `WedgeBreak.SessionRoom.EnsureDocEnter` | edge/src/session-room.ts:888-937 | Up to the first sync, whatever other opens are doing: a loaded document is a hit; otherwise the log is dropped if the stored count is at the limit, and the count is raised. |
| `WedgeBreak.SessionRoom.EnsureDocReplay` | edge/src/session-room.ts:938-969 | From the first sync to the second: the replay, then the reset of the count. |
| `WedgeBreak.SessionRoom.EnsureDocSettle` | edge/src/session-room.ts:970-980 | After the second sync the document is published. |
| `WedgeBreak.SessionRoom.DropLog` | edge/src/session-room.ts:1034-1050 | Clears log and buffer and shuts the backup gate. |
| `WedgeBreak.SessionRoom.RecordLoroUpdates` | edge/src/session-room.ts:784-804 | Buffers the nonempty updates, and opens the gate and marks the backup due only if there is one. |
| `WedgeBreak.SessionRoom.AlarmStart` | edge/src/session-room.ts:1215-1217 | The alarm goes on exactly when a backup is due. |
| `WedgeBreak.SessionRoom.AlarmHold` | edge/src/session-room.ts:1218-1218 | It then holds the document. |
| `WedgeBreak.SessionRoom.AlarmGate` | edge/src/session-room.ts:1244-1248 | It passes the gate exactly when no drop is outstanding, and in the same stretch calls for the document again, which may be gone by then. |
| `WedgeBreak.SessionRoom.AlarmPut` | edge/src/session-room.ts:1246-1286 | After another open of the document, which other flows may interleave with, the backup is put exactly when the version advances. |
| `WedgeBreak.CountBounded` | edge/src/session-room.ts:888-980 | In every run, with crashes anywhere and any number of overlapping opens: the count is at most the deaths in a row plus the opens inside, what a crash comes back to is at most the deaths in a row after it, a loaded document, or an alarm that has held it, means no death since the last completion, and a clear reset flag means real state since the last drop. |
| `WedgeWidth.WidthSafe` | edge/src/session-room.ts:908-934 | With at most k opens inside at once, every drop follows at least 4 - k deaths in a row, and for k up to three no backup is put between a drop and the next nonempty recorded update. |
| `WedgeLimits.DropsNeed` | edge/src/session-room.ts:908-937 | Over all runs with at most k opens inside, every drop follows d deaths in a row if and only if d + k is at most four (or d is zero); for three deaths, if and only if no open enters between another's increment and its reset. |
| `WedgeLimits.FourOpensDrop` | edge/src/session-room.ts:908-937 | Four overlapping opens of a healthy room drop its log with no death. |
| `WedgeLimits.CountIsStreak` | edge/src/session-room.ts:927-969 | The stored count is the deaths in a row plus the open under way, in all runs with at most k opens inside, if and only if k is at most one. |
| `WedgeWidth.DropsExactly` | edge/src/session-room.ts:908-934 | Opens one at a time drop the log if and only if three have died in a row and none is between its reset and its sync. |
| `WedgeLimits.AtMostThreeDeaths` | edge/src/session-room.ts:896-969 | If an open with nothing to read is not killed: never more than three die in a row, in all runs with at most k opens inside, if and only if k is at most one. |
| `WedgeLimits.HollowBackup` | edge/src/session-room.ts:1244-1286 | A run in which an alarm holds the document, three opens enter after its release, and the open the alarm makes right after passing the gate drops the log; the emptied document is backed up. |
| `WedgeLimits.BackupsNeed` | edge/src/session-room.ts:1244-1286 | No backup is put between a drop and the next nonempty recorded update, in all runs with at most k opens inside, if and only if k is at most three. |
| `WedgeLog.ContentStep` | edge/src/session-room.ts:784-1050 | Log and buffer together: a crash takes them back to the last durable log, a drop at three counted deaths empties them, a recording adds its nonempty updates, nothing else touches them. |
| `WedgeLog.NothingForgotten` | edge/src/session-room.ts:784-804 | Over any stretch without crash or drop, log and buffer hold what they held and then everything recorded, in order. |
| `WedgeLog.CrashReturns` | edge/src/session-room.ts:888-980 | In every run a crash leaves exactly the log as it was last made durable, and an empty buffer. |
| `WedgeLog.FlushedIsSafe` | edge/src/session-room.ts:1074-1100 | What was buffered when the flush ran survives a crash after the next commit. |
| `WedgeLog.GateExactly` | edge/src/session-room.ts:784-804 | In every run the backup gate is shut if and only if nothing real was recorded since the last drop, in memory and in what a crash comes back to. |

## Left out

- Loro itself: documents are lists and maps of records, an update never clears a field, and replay is a step that may die.
- JSON, serde and malformed-entry salvage: JSON payloads are opaque values with a distinguished null; a row that does not parse is skipped.
- Registry rooms, the sync clients and the key-value store behind the ledger are the environment: messages, answers and failures they may produce.
- The replica's change counter, persistence to bytes beyond the clock and the pending queue, and the typed setters over rows.
- Turn boundaries in the writer: a boundary starts a new segment, so the refinement is stated for events without one.
- Sidecar references and payload summaries, which the live fold leaves empty, and the sanitizing of tool calls.
- Quota windows, presence, tail and diff sidecars, HTTP routing and the manual log reset of the rooms.
- The frontier and size figures in the hello answer, and row timestamps.
- Folding, trimming and checkpointing of room documents, and what a document published after a drop still holds in memory.
- The version vectors behind the backup's monotonic test: whether the put advances is a parameter (with no earlier backup it always does).
- The import and salvage of updates after reassembly, and the penalty bookkeeping behind the `penalized` flag.
- Sorting handles by age: the pass takes the sorted list, and the map lock, snapshots and other threads are not modelled.
- The chat2 seed and cutover path, account handling, git watching and the command line.
- RecoverFromWipe: assumes nothing was pending before the wipe; with earlier batches the seeds are still enqueued behind them.
- NeverTwice: the drainer's early returns on a failed list read are crashes without a rollback of the ledger.
- EvictOverBudget: taken as one pass in which nothing else opens, touches or pins a document.
