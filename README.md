# Export stream buffer manager

A Dafny model of VoltDB's export stream buffer manager: the `TupleStreamWrapper` that
turns exported rows into a totally ordered byte stream of fixed-capacity `StreamBlock`s,
and the `DummyTopend` sink the test suite hands finalised blocks to. Rows are opaque
94-byte records tagged with the transaction that wrote them and the generation they
belong to. A block is handed to the sink only once every row in it is known to be
committed. Rows of two generations never share a block. `rollbackTo(mark)` forgets
exactly the bytes written at or after a mark, across block boundaries.

The wrapper's implementation files are not part of this model; the behaviour is
reconstructed from `tests/ee/storage/TupleStreamWrapper_test.cpp`, whose scenarios fix
every offset, length and generation the wrapper produces. The project has these parts:

- `stream_block.dfy` (module `StreamBlocks`): rows, blocks, `truncateTo`, and facts
  about contiguous runs of blocks (each block starts where the previous one ends).
- `topend.dfy` (module `Topend`): the `DummyTopend` recorder as a class, and the
  value-level effect of a sequence of `pushExportBuffer` calls.
- `export_stream.dfy` (module `ExportStream`): the wrapper as a state machine over
  values. Each operation returns the next state and the notices it hands to the sink:
  a finalised block, or the end of a generation. It states the wrapper's invariant:
  - the owned blocks are contiguous from the first byte not yet handed over;
  - no queued block is empty;
  - every block is allocated with the default capacity, is not overfull, starts on a
    row boundary and holds rows of one generation;
  - rows before the committed offset belong to committed transactions, and rows after
    it to the open one.

  It also proves that every operation keeps this invariant and says what each one
  delivers.
- `tuple_stream_wrapper.dfy` (module `TupleStream`): `TupleStreamWrapper` as a class.
  Its methods update the fields in place and push to the sink. Each is proved to move
  the wrapper to the state the value model computes, with the sink receiving exactly
  the model's notices, in order.
- `scenario_steps.dfy` and `scenarios.dfy` (modules `ScenarioSteps`, `Scenarios`): the
  test fixture and every test scenario, driven through the two classes. Each
  scenario's postcondition states the values the test expects.

Behaviour the tests fix, and choices the model makes where they are silent:
- `appendTuple` does reach the sink. In scenario Fill (:377-384) the eleventh append
  hands over the full block, because it commits the transaction before it.
- A generation change pushes its end-of-stream notice at once, with no block. The
  notice is not deferred to the next append or flush (:744-753).
- A rolled-back append that switched generation leaves the new generation active, and
  the block it split off stays finalised (:699-703).
- Rollback is computed from block offsets, not from an undo log. What is kept is the
  same: exactly the rows before the mark.
- A row's generation is adopted only when it is newer than the active one. A newer one
  always wins, even over a generation set earlier by `setSignatureAndGeneration`; an
  older one is ignored and the row is written under the active generation. The tests
  exercise a newer row generation at :525, :606, :699 and :730, and an older row
  generation after an explicit set at :640, :670 and :704.
- A commit in which neither transaction id moved does nothing, even when a queued
  block already lies wholly below the committed offset. That happens after a rollback
  to the committed offset followed by a forced flush with the same ids; the block
  goes out at the next commit in which an id moves. No test reaches this state.
- A forced flush always finalises the open block, even while its transaction is still
  open; the block then waits in the queue until that transaction commits. No test
  tells this apart from leaving a busy open block where it is.

## Model

| member | source | states |
|---|---|---|
| `StreamBlocks.TruncateTo` | tests/ee/storage/TupleStreamWrapper_test.cpp:545-565 | cutting a block at a mark keeps a prefix of its rows with the same offset, capacity and generation, ending at most one row before the mark and exactly at it when the mark is on a row boundary |
| `StreamBlocks.TotalBytesIsRows` | tests/ee/storage/TupleStreamWrapper_test.cpp:44-55 | the bytes held by any run of blocks are 94 per row they hold |
| `StreamBlocks.ContiguousSpan` | tests/ee/storage/TupleStreamWrapper_test.cpp:310-320 | a contiguous run starting at an offset ends at that offset plus its bytes, and every block lies in that range |
| `StreamBlocks.ContiguousConcat` | tests/ee/storage/TupleStreamWrapper_test.cpp:444-459 | a run is contiguous from an offset iff its first part is, and the second part is contiguous from where the first ends |
| `StreamBlocks.ContiguousSnoc` | tests/ee/storage/TupleStreamWrapper_test.cpp:318-320 | a block starting where a contiguous run ends extends it, adding its bytes and its rows |
| `StreamBlocks.FullBlockOffset` | tests/ee/storage/TupleStreamWrapper_test.cpp:364-385 | a block closed because the next row would not fit holds capacity / 94 rows (10 rows, 940 bytes, at capacity 1024) |
| `StreamBlocks.TruncatedRows` | tests/ee/storage/TupleStreamWrapper_test.cpp:571-595 | cutting a contiguous run at a row boundary inside one of its blocks, dropping every later block, keeps exactly the rows before the mark |
| `Topend.ReceiveAllContents` | tests/ee/storage/TupleStreamWrapper_test.cpp:91-104 | after a sequence of pushes the recorder holds its earlier blocks plus every pushed block, and its earlier column names plus every push's names, in order |
| `Topend.ReceiveAllQueues` | tests/ee/storage/TupleStreamWrapper_test.cpp:89-90 | after a sequence of pushes the partition and signature queues end with every push's partition and signature, in order |
| `Topend.ReceiveAllFlags` | tests/ee/storage/TupleStreamWrapper_test.cpp:96-100 | `receivedExportBuffer` is raised iff anything was pushed; `receivedEndOfStream` is sticky and raised iff some push, now or before, was an end of stream |
| `Topend.ReceiveAllConcat` | tests/ee/storage/TupleStreamWrapper_test.cpp:83-105 | pushing two batches one after the other equals pushing their concatenation |
| `Topend.Receive` | tests/ee/storage/TupleStreamWrapper_test.cpp:83-105 | one push adds one partition id and one signature, adds its block iff it carries one and keeps the earlier blocks, appends its column names, raises `receivedExportBuffer`, and raises `receivedEndOfStream` iff it was already raised or the push is an end of stream |
| `Topend.ReceiveAll` | tests/ee/storage/TupleStreamWrapper_test.cpp:89-104 | a sequence of pushes adds one partition id and one signature per push and at most one block per push; no pushes change nothing |
| `Topend.DummyTopend.constructor` | tests/ee/storage/TupleStreamWrapper_test.cpp:61-65 | a new recorder holds nothing and both flags are false |
| `Topend.DummyTopend.GetQueuedExportBytes` | tests/ee/storage/TupleStreamWrapper_test.cpp:75-81 | the loop returns the total length of every block the recorder still holds |
| `Topend.DummyTopend.PushExportBuffer` | tests/ee/storage/TupleStreamWrapper_test.cpp:83-105 | one push queues the partition and signature, keeps the block if there is one, appends the column names, raises the push flag and latches the end-of-stream flag |
| `Topend.DummyTopend.PopFront` | tests/ee/storage/TupleStreamWrapper_test.cpp:308-309 | the consumer takes the oldest held block and the recorder keeps the rest, nothing else changing |
| `ExportStream.Initial` | tests/ee/storage/TupleStreamWrapper_test.cpp:145 | a new wrapper satisfies the invariant, has written nothing and holds no row |
| `ExportStream.CommittedPrefix` | tests/ee/storage/TupleStreamWrapper_test.cpp:410-418 | the number of blocks handed over is the longest head of the queue whose blocks all end at or before the committed offset |
| `ExportStream.AppendTuple` | tests/ee/storage/TupleStreamWrapper_test.cpp:164-177 | appendTuple fails iff the transaction id moves backwards or a row cannot fit in a block, naming which, and otherwise succeeds |
| `ExportStream.UnwindShape` | tests/ee/storage/TupleStreamWrapper_test.cpp:582-586 | the rollback loop keeps a prefix of the queue and either reopens the newest block that starts before the mark, cut there, dropping every later block, or opens a fresh block at the mark when every queued block starts at or after it |
| `ExportStream.RollbackTo` | tests/ee/storage/TupleStreamWrapper_test.cpp:482-484 | rollbackTo fails iff the mark lies beyond the bytes written, inside committed data or inside a row, naming which, and otherwise succeeds |
| `ExportStream.ChainFacts` | tests/ee/storage/TupleStreamWrapper_test.cpp:318 | under the invariant the queue ends where the open block starts, and the first owned byte plus the owned bytes is bytesUsed |
| `ExportStream.ExtendPreserves` | tests/ee/storage/TupleStreamWrapper_test.cpp:377-384 | finalising the open block keeps the invariant and loses no row; the new open block is empty and starts at bytesUsed |
| `ExportStream.AdvanceCommitFacts` | tests/ee/storage/TupleStreamWrapper_test.cpp:410-418 | commit's bookkeeping makes the current transaction the open one, and either keeps the watermarks or moves the committed offset to bytesUsed; the committed id never decreases and the invariant holds |
| `ExportStream.DrainPreserves` | tests/ee/storage/TupleStreamWrapper_test.cpp:444-459 | the drain hands over a contiguous head of the queue, every block of it non-empty, below the committed offset and written by committed transactions, and keeps the invariant |
| `ExportStream.CommitPreserves` | tests/ee/storage/TupleStreamWrapper_test.cpp:410-418 | when a transaction id moved, commit hands over exactly the oldest queued blocks that are wholly committed (what stays queued starts with a block that is not), in order and without gap from what went before, under the current signature; when neither moved it hands over nothing; no row is lost and the invariant holds |
| `ExportStream.CommitInvariant` | tests/ee/storage/TupleStreamWrapper_test.cpp:410-418 | commit keeps the invariant and every row, and hands over under the current signature only whole committed blocks from the head of the queue, in order and without gap |
| `ExportStream.CommitStopsAtUncommitted` | tests/ee/storage/TupleStreamWrapper_test.cpp:410-418 | once a transaction id moved, the first block left queued after a commit ends beyond the committed offset |
| `ExportStream.SetGenerationPreserves` | tests/ee/storage/TupleStreamWrapper_test.cpp:744-753 | a generation change leaves the blocks and watermarks alone, hands over no block, and announces the end of the old generation iff one was set and it differs |
| `ExportStream.WritePreserves` | tests/ee/storage/TupleStreamWrapper_test.cpp:261-273 | writing a row into an open block with room for it adds exactly that row, 94 bytes, at the end of the stream and keeps the invariant |
| `ExportStream.PreparePreserves` | tests/ee/storage/TupleStreamWrapper_test.cpp:600-625 | preparing an append adopts a newer generation, loses no row, hands over no block, and leaves an open block with room for a row that is empty or of the active generation |
| `ExportStream.AppendPreserves` | tests/ee/storage/TupleStreamWrapper_test.cpp:364-385 | appendTuple keeps the invariant and adds 94 bytes; the blocks handed over followed by the blocks kept are the old rows plus the new one; the handed-over blocks are contiguous from the first owned byte and fully committed |
| `ExportStream.AppendValid` | tests/ee/storage/TupleStreamWrapper_test.cpp:164-177 | the three stages of appendTuple (prepare, commit, write) keep the invariant |
| `ExportStream.AppendPlacement` | tests/ee/storage/TupleStreamWrapper_test.cpp:600-625 | the row joins the open block unless that block holds rows and is of another generation or full; then it starts a new block at bytesUsed, and a full block held capacity / 94 rows |
| `ExportStream.PreparePlacement` | tests/ee/storage/TupleStreamWrapper_test.cpp:631-659 | after preparing an append the active generation is the newer of the active one and the row's, and the open block is a fresh one at bytesUsed exactly when the old one had to be finalised |
| `ExportStream.FlushPreserves` | tests/ee/storage/TupleStreamWrapper_test.cpp:425-460 | a forced periodicFlush finalises the open block, keeps the invariant, loses no row, and hands over only committed blocks that continue the stream without gap |
| `ExportStream.FlushCommitsAll` | tests/ee/storage/TupleStreamWrapper_test.cpp:444-445 | once the open transaction is known committed, the flush's commit moves the committed offset to bytesUsed and hands over the whole queue |
| `ExportStream.DrainsEverything` | tests/ee/storage/TupleStreamWrapper_test.cpp:336-342 | once everything written is committed, every queued block is ready to hand over |
| `ExportStream.FlushDeliversAll` | tests/ee/storage/TupleStreamWrapper_test.cpp:444-459 | once the open transaction is known committed, a forced flush hands every row the wrapper holds to the sink, in order, and leaves one empty block at bytesUsed |
| `ExportStream.CutPreserves` | tests/ee/storage/TupleStreamWrapper_test.cpp:586 | cutting the owned blocks at a row boundary outside committed data keeps the invariant and exactly the rows before the cut |
| `ExportStream.RollbackInOpen` | tests/ee/storage/TupleStreamWrapper_test.cpp:556 | a rollback to a mark inside the open block cuts the open block there and keeps the queue |
| `ExportStream.RollbackReopens` | tests/ee/storage/TupleStreamWrapper_test.cpp:586 | a rollback to a mark inside a queued block reopens that block cut at the mark and drops every later block |
| `ExportStream.RollbackRestarts` | tests/ee/storage/TupleStreamWrapper_test.cpp:522 | when no queued block starts before the mark, the mark is the first owned byte and one fresh block is opened there |
| `ExportStream.RollbackPreserves` | tests/ee/storage/TupleStreamWrapper_test.cpp:571-595 | a rollback to a row boundary outside committed data sets bytesUsed to the mark and keeps exactly the rows before it, the invariant, the watermarks, the transaction and the generation |
| `ExportStream.RestartPreserves` | tests/ee/storage/TupleStreamWrapper_test.cpp:517-537 | rolling back to the first owned byte leaves one empty block there and keeps the invariant |
| `ExportStream.UsoAligned` | tests/ee/storage/TupleStreamWrapper_test.cpp:482 | bytesUsed is always on a row boundary, so a mark taken from it is a valid rollback target |
| `ExportStream.RowCount` | tests/ee/storage/TupleStreamWrapper_test.cpp:482 | the rows the wrapper holds fill exactly the bytes from its first owned byte to bytesUsed, 94 each |
| `ExportStream.RollbackUndoesAppend` | tests/ee/storage/TupleStreamWrapper_test.cpp:467-494 | rolling back to the bytesUsed taken before an append succeeds and takes back exactly that row: the blocks handed over meanwhile, followed by what the wrapper keeps, are the stream as it was before |
| `ExportStream.RollbackForgetsRow` | tests/ee/storage/TupleStreamWrapper_test.cpp:553-556 | when a stream holds one row more than an earlier one, rolling it back to the earlier end restores exactly the earlier rows after those delivered |
| `ExportStream.Extend` | tests/ee/storage/TupleStreamWrapper_test.cpp:377-384 | finalising the open block opens an empty block of the default capacity at bytesUsed, keeps every row in the queue in order, and changes nothing else |
| `ExportStream.AdvanceCommit` | tests/ee/storage/TupleStreamWrapper_test.cpp:405-418 | a newer current transaction commits everything written so far and becomes the open one; a last-committed id reaching the open transaction commits everything too; otherwise nothing changes; only the watermarks and the open transaction id ever change |
| `ExportStream.Commit` | tests/ee/storage/TupleStreamWrapper_test.cpp:443-459 | committing hands to the sink, in order and under the current signature, a prefix of the queued blocks and keeps the rest queued; when neither transaction id moved it does nothing |
| `ExportStream.SetSignatureAndGeneration` | tests/ee/storage/TupleStreamWrapper_test.cpp:744-753 | the new signature and generation replace the old ones; exactly one end-of-generation notice for the old generation is emitted iff a generation was set and it changes, and none otherwise |
| `ExportStream.EffectiveGeneration` | tests/ee/storage/TupleStreamWrapper_test.cpp:637-640 | a row is written under the newer of the active generation and its own, never an older one |
| `ExportStream.Write` | tests/ee/storage/TupleStreamWrapper_test.cpp:261-273 | writing a row adds 94 bytes to bytesUsed and to the open block, appends the row with its transaction and the active generation, and changes nothing else |
| `ExportStream.PrepareAppend` | tests/ee/storage/TupleStreamWrapper_test.cpp:600-625 | before a row is written the active generation is the newer of the two, the end-of-generation notice is the one the switch calls for, the open block is either kept or replaced by a fresh one, holds only rows of the active generation and, when a row fits the capacity at all, has room for it; nothing else changes |
| `ExportStream.PeriodicFlush` | tests/ee/storage/TupleStreamWrapper_test.cpp:425-460 | a forced flush fails iff the current transaction id moves backwards; otherwise it leaves a fresh empty block open at bytesUsed |
| `ExportStream.Unwind` | tests/ee/storage/TupleStreamWrapper_test.cpp:579-586 | the rollback loop keeps a prefix of the queue and reopens a block that starts at or before the mark |
| `ExportStream.SetDefaultCapacity` | tests/ee/storage/TupleStreamWrapper_test.cpp:145-148 | setDefaultCapacity fails iff anything was written or any transaction was seen; otherwise the stream holds one empty block of the new capacity at offset 0 and nothing else changes |
| `ExportStream.RollbackDropsLastRow` | tests/ee/storage/TupleStreamWrapper_test.cpp:554-556 | rolling back to one row before bytesUsed forgets exactly the last row |
| `ExportStream.SetCapacityPreserves` | tests/ee/storage/TupleStreamWrapper_test.cpp:148 | setDefaultCapacity succeeds only while nothing is written, so no row is lost; afterwards one empty block of the new capacity sits at offset 0 |
| `ExportStream.FreshStream` | tests/ee/storage/TupleStreamWrapper_test.cpp:145-148 | a stream holding one empty block at offset 0 with nothing committed satisfies the invariant |
| `ExportStream.PrepareFacts` | tests/ee/storage/TupleStreamWrapper_test.cpp:606 | preparing an append announces the end of the active generation iff the row's generation is newer and one was set, and queues the open block iff it must be finalised |
| `ExportStream.AppendNewTxn` | tests/ee/storage/TupleStreamWrapper_test.cpp:410-418 | an append by a newer transaction commits everything written before it and hands over every queued block, plus the open block if it was finalised, in order, after any end-of-generation notice |
| `ExportStream.NoneCommitted` | tests/ee/storage/TupleStreamWrapper_test.cpp:403-408 | while the committed offset is where the owned chain starts, no queued block, including a just-finalised open block, lies wholly below it |
| `ExportStream.CommitIdle` | tests/ee/storage/TupleStreamWrapper_test.cpp:403-408 | a commit for the still-open transaction that no last-committed id reaches, with no queued block wholly committed, changes nothing and hands nothing over |
| `ExportStream.AppendOpenTxn` | tests/ee/storage/TupleStreamWrapper_test.cpp:391-408 | an append by a still-open transaction, while nothing written since the last delivery is committed, hands over no block; a block it finalises joins the queue |
| `TupleStream.PushesCarry` | tests/ee/storage/TupleStreamWrapper_test.cpp:101-104 | the pushes carry exactly the blocks the model delivers, and the column names once per push |
| `TupleStream.ReceiveNotices` | tests/ee/storage/TupleStreamWrapper_test.cpp:83-105 | after the notices are pushed the sink holds the delivered blocks in order, the names once per push, the push flag iff any notice, and the end-of-stream flag iff any end of generation |
| `TupleStream.TupleStreamWrapper.constructor` | tests/ee/storage/TupleStreamWrapper_test.cpp:145 | a new wrapper for a partition is the initial stream for its default capacity |
| `TupleStream.TupleStreamWrapper.BytesUsed` | tests/ee/storage/TupleStreamWrapper_test.cpp:482 | bytesUsed counts every byte already handed over plus every byte the wrapper still holds |
| `TupleStream.TupleStreamWrapper.AllocatedByteCount` | tests/ee/storage/TupleStreamWrapper_test.cpp:289-324 | allocatedByteCount is a full buffer per queued block plus the bytes the sink still holds |
| `TupleStream.TupleStreamWrapper.SetDefaultCapacity` | tests/ee/storage/TupleStreamWrapper_test.cpp:148 | the capacity changes as the model says, or the call fails and nothing changes |
| `TupleStream.TupleStreamWrapper.SetSignatureAndGeneration` | tests/ee/storage/TupleStreamWrapper_test.cpp:744-753 | the fields take the model's next state and the sink receives exactly the model's end-of-generation notice, if any |
| `TupleStream.TupleStreamWrapper.ExtendBufferChain` | tests/ee/storage/TupleStreamWrapper_test.cpp:377-384 | the open block is queued, or dropped when empty, and a fresh block opens at bytesUsed |
| `TupleStream.TupleStreamWrapper.Commit` | tests/ee/storage/TupleStreamWrapper_test.cpp:410-418 | the fields follow the model's commit and the sink receives exactly the blocks it hands over, in order |
| `TupleStream.TupleStreamWrapper.DrainCommitted` | tests/ee/storage/TupleStreamWrapper_test.cpp:444-459 | the loop pushes the longest head of the queue lying below the committed offset, oldest first, and keeps the rest queued |
| `TupleStream.TupleStreamWrapper.AppendTuple` | tests/ee/storage/TupleStreamWrapper_test.cpp:164-177 | on a backwards transaction id or an over-large row it reports the error and changes nothing; otherwise the fields and the sink follow the model's append and the invariant holds |
| `TupleStream.TupleStreamWrapper.AppendRow` | tests/ee/storage/TupleStreamWrapper_test.cpp:377-384 | once both checks pass the wrapper prepares, commits and writes the row, and the sink receives the prepare and commit notices in order |
| `TupleStream.TupleStreamWrapper.WriteRow` | tests/ee/storage/TupleStreamWrapper_test.cpp:265 | the row goes at the end of the open block and bytesUsed grows by one row |
| `TupleStream.TupleStreamWrapper.PrepareForAppend` | tests/ee/storage/TupleStreamWrapper_test.cpp:606 | the fields follow the model's preparation and the sink receives its end-of-generation notice, if any |
| `TupleStream.TupleStreamWrapper.PeriodicFlush` | tests/ee/storage/TupleStreamWrapper_test.cpp:266 | a forced flush reports a backwards transaction id and changes nothing; otherwise the fields and the sink follow the model's flush |
| `TupleStream.TupleStreamWrapper.RollbackTo` | tests/ee/storage/TupleStreamWrapper_test.cpp:484 | the fields take the model's rollback, or the error is reported and nothing changes; the sink is not touched |
| `TupleStream.TupleStreamWrapper.UnwindPending` | tests/ee/storage/TupleStreamWrapper_test.cpp:586 | the loop pops queued blocks until the model's unwind result is left and returns the block to reopen |
| `ScenarioSteps.TenRows` | tests/ee/storage/TupleStreamWrapper_test.cpp:366 | at capacity 1024 a block holds at most ten rows, and its room is 1024 less 94 per row |
| `ScenarioSteps.NewTxnStep` | tests/ee/storage/TupleStreamWrapper_test.cpp:368-371 | an append by a newer transaction hands over everything queued, then the open block when the row cannot join it; the row lands in the open block or starts one at bytesUsed |
| `ScenarioSteps.SameTxnStep` | tests/ee/storage/TupleStreamWrapper_test.cpp:395-408 | an append by the still-open transaction, with no newer row generation, no last-committed id reaching it and nothing written since the last delivery committed, hands nothing over; the row joins the open block, or a new one once ten rows fill it |
| `ScenarioSteps.CapacityTaken` | tests/ee/storage/TupleStreamWrapper_test.cpp:148 | on a new wrapper setDefaultCapacity(1024) succeeds and leaves the initial stream of capacity 1024 |
| `ScenarioSteps.FirstGeneration` | tests/ee/storage/TupleStreamWrapper_test.cpp:151 | the fixture's first generation is set without any notice, so the sink is unchanged |
| `ScenarioSteps.Fixture` | tests/ee/storage/TupleStreamWrapper_test.cpp:119-162 | the fixture yields a wrapper for partition 1 with capacity 1024 and generation 0, nothing written, and an empty sink |
| `ScenarioSteps.NewWrapper` | tests/ee/storage/TupleStreamWrapper_test.cpp:145-148 | a new wrapper with its capacity set to 1024, untouched, and an empty sink |
| `ScenarioSteps.FlushStep` | tests/ee/storage/TupleStreamWrapper_test.cpp:296-302 | a forced flush once the open transaction is known committed hands over every queued block, then the open block if it has rows, and leaves one empty block at bytesUsed |
| `ScenarioSteps.FlushQuiet` | tests/ee/storage/TupleStreamWrapper_test.cpp:487 | a forced flush with nothing written since the last one hands nothing over |
| `ScenarioSteps.RollbackStep` | tests/ee/storage/TupleStreamWrapper_test.cpp:556 | a rollback to a row boundary inside the open block keeps its first rows up to the mark and the transaction, generation and watermarks |
| `ScenarioSteps.RollbackToBaseStep` | tests/ee/storage/TupleStreamWrapper_test.cpp:586 | a rollback to the first owned byte, none of it committed, drops every queued block and opens one empty block there |
| `ScenarioSteps.SetGenerationStep` | tests/ee/storage/TupleStreamWrapper_test.cpp:639 | a generation change keeps the blocks and watermarks, hands over no block, and announces an end of generation iff one was set and it differs |
| `ScenarioSteps.NoticeFacts` | tests/ee/storage/TupleStreamWrapper_test.cpp:606-608 | an append's notices deliver exactly the handed-over blocks and contain an end of generation iff one was announced |
| `ScenarioSteps.AppendNew` | tests/ee/storage/TupleStreamWrapper_test.cpp:377 | on the class, an append by a newer transaction gives the sink the handed-over blocks in order, and the end-of-stream flag iff a generation ended |
| `ScenarioSteps.AppendSame` | tests/ee/storage/TupleStreamWrapper_test.cpp:404 | on the class, an append by the still-open transaction, with no newer row generation, no last-committed id reaching it and nothing written since the last delivery committed, leaves the sink unchanged |
| `ScenarioSteps.Flush` | tests/ee/storage/TupleStreamWrapper_test.cpp:445 | on the class, a forced flush gives the sink every queued block and then the open block if it has rows, each with the column names, and no end of stream |
| `ScenarioSteps.HandedOver` | tests/ee/storage/TupleStreamWrapper_test.cpp:89-104 | handing blocks over one push each queues them in order with the column names once per block, and raises no end-of-stream flag |
| `ScenarioSteps.FlushIdle` | tests/ee/storage/TupleStreamWrapper_test.cpp:487 | on the class, a flush with nothing new leaves the sink unchanged |
| `ScenarioSteps.RollbackWithin` | tests/ee/storage/TupleStreamWrapper_test.cpp:556 | on the class, a rollback inside the open block leaves the rows before the mark and bytesUsed at the mark |
| `ScenarioSteps.RollbackToBase` | tests/ee/storage/TupleStreamWrapper_test.cpp:522 | on the class, a rollback to the first owned byte leaves one empty block at the mark |
| `ScenarioSteps.SetGeneration` | tests/ee/storage/TupleStreamWrapper_test.cpp:669 | on the class, a generation change raises both sink flags iff a generation ended, and adds no block |
| `Scenarios.AppendEach` | tests/ee/storage/TupleStreamWrapper_test.cpp:292-301 | the loop of one-row transactions puts every row in the open block, commits all but the last, and hands nothing to the sink |
| `Scenarios.AppendOneTxn` | tests/ee/storage/TupleStreamWrapper_test.cpp:582-585 | the loop of rows of one transaction hands over only a full open block that its first append commits; nothing else reaches the sink |
| `Scenarios.DoOneTuple` | tests/ee/storage/TupleStreamWrapper_test.cpp:261-280 | one committed row and a flush give a 94-byte block at offset 0 of generation 0, and the five column names once, in order |
| `Scenarios.BasicOpsWrites` | tests/ee/storage/TupleStreamWrapper_test.cpp:292-302 | two rounds of appends and a flush leave the sink holding two blocks: 9 rows at 0, then 10 rows at 846, both of generation 0 |
| `Scenarios.BasicOps` | tests/ee/storage/TupleStreamWrapper_test.cpp:285-325 | allocatedByteCount is 0, then 1786, then 0 once the sink drops both blocks; the blocks are 846 bytes at 0 and 940 at 846, both of generation 0 |
| `Scenarios.FarFutureFlush` | tests/ee/storage/TupleStreamWrapper_test.cpp:330-359 | flushes naming far-future transactions give the 846-byte block at 0 and the 940-byte block at 846 |
| `Scenarios.Fill` | tests/ee/storage/TupleStreamWrapper_test.cpp:364-385 | ten rows hand nothing over; the eleventh hands over the 940-byte block at 0 |
| `Scenarios.FillSingleTxnAndAppend` | tests/ee/storage/TupleStreamWrapper_test.cpp:391-419 | one open transaction overflowing a block hands nothing over until the next transaction's row, which hands over the 940-byte block at 0 |
| `Scenarios.FillSingleTxnAndFlush` | tests/ee/storage/TupleStreamWrapper_test.cpp:425-460 | the flush that commits the overflowing transaction hands over 940 bytes at 0 and then 94 bytes at 940 |
| `Scenarios.FillSingleTxnAndCommitWithRollback` | tests/ee/storage/TupleStreamWrapper_test.cpp:467-494 | the row that committed the full block is rolled back, and the 940-byte block at 0 reaches the sink intact |
| `Scenarios.FillWithOneTxn` | tests/ee/storage/TupleStreamWrapper_test.cpp:500-511 | sixty-one rows of one open transaction fill several blocks and hand none over |
| `Scenarios.RollbackFirstTuple` | tests/ee/storage/TupleStreamWrapper_test.cpp:517-537 | after rolling back to 0 and writing under generation 5, the sink gets one 94-byte block at 0 of generation 5 |
| `Scenarios.RollbackMiddleTuple` | tests/ee/storage/TupleStreamWrapper_test.cpp:545-565 | rolling back one row leaves the committed 940-byte block at 0 intact |
| `Scenarios.RollbackWholeBuffer` | tests/ee/storage/TupleStreamWrapper_test.cpp:571-595 | rolling back forty rows spread over several blocks leaves the committed 940-byte block at 0 intact |
| `Scenarios.AdvanceExportWindow` | tests/ee/storage/TupleStreamWrapper_test.cpp:600-625 | a generation-1 row after nine of generation 0 reports end of stream and gives 846 bytes at 0 of generation 0, then 94 at 846 of generation 1 |
| `Scenarios.CatalogUpdateTest` | tests/ee/storage/TupleStreamWrapper_test.cpp:631-659 | a catalog update to 12 ends generation 0; the next row, asking for 10, goes under 12 in its own block: 940 bytes at 0, then 94 at 940 |
| `Scenarios.CatalogUpdateAfterFlush` | tests/ee/storage/TupleStreamWrapper_test.cpp:661-689 | after a flush, a catalog update to 12 puts the next row in a generation-12 block at 846, after the 846-byte block of generation 0 |
| `Scenarios.RolledBackGenerationSwitch` | tests/ee/storage/TupleStreamWrapper_test.cpp:693-701 | a generation-4 row after nine rows is rolled back; generation 4 stays active, the nine rows are already handed over, and no end of stream had been reported before the switch |
| `Scenarios.CatalogUpdateAfterRollback` | tests/ee/storage/TupleStreamWrapper_test.cpp:691-723 | after the rolled-back switch and a catalog update to 12, the blocks are 846 bytes at 0 of generation 0, then 94 at 846 of generation 12 |
| `Scenarios.PeriodicFlushEndOfStream` | tests/ee/storage/TupleStreamWrapper_test.cpp:725-742 | a flushed row of generation 0, then a generation-1 row, report end of stream, and the first block is 94 bytes at 0 of generation 0 |
| `Scenarios.JustGenerationChange` | tests/ee/storage/TupleStreamWrapper_test.cpp:744-753 | a generation change alone reports end of stream and the push, and leaves the sink holding no block |

## Left out

- Time-based flushing: `periodicFlush` is modelled only when forced by a negative time. No age threshold appears in the tests, so the time argument is not a parameter.
- Row contents and serialisation (`rand()`, `NValue`, `TupleSchema`, `TableTuple`): a row is a fixed 94-byte record carrying only its transaction id and generation.
- The release/acknowledgement and poll protocol, which moved to the Java side (:196-197).
- The sink's `data` vector of raw buffer pointers, `shared_ptr` ownership, `ExecutorContext`, `loadNextDependency`, `crashVoltDB`, `fallbackToEEAllocatedBuffer` and the test harness's `main`.
- The `sync` flag of `pushExportBuffer`: carried in every push and always false; nothing reads it.
- The site id: stored by the constructor; no operation uses it.
- The constructor's own default capacity: the wrapper's header is not part of this model, so the capacity is a constructor parameter. Every scenario sets 1024 before writing.
- Fatal errors: the wrapper's fatal conditions (a transaction id moving backwards, a row larger than the capacity, a rollback mark beyond bytesUsed) are returned as an `Error` and leave the state unchanged, instead of aborting the process. No test exercises them.
- The rollback errors for a mark inside committed data and a mark inside a row, and the `CapacityAfterUse` error of `setDefaultCapacity` once the stream is in use, are reconstructed; no test exercises them.
- Concurrency: one wrapper is driven by one thread, so there is none to model.
- Integer widths: transaction ids (64-bit signed) and byte offsets (`size_t`) are unbounded `int` and `nat`, so overflow and wrap-around are not modelled; the tests stay far from either bound.
