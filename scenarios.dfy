/** The wrapper's test scenarios, driven through the TupleStreamWrapper class and the
    DummyTopend recorder: each method builds the fixture, performs the scenario's calls
    and returns what the scenario inspects, and its postcondition states the values
    the scenario expects. */
module Scenarios {
  import opened Wrappers
  import opened StreamBlocks
  import opened Topend
  import opened ExportStream
  import opened TupleStream
  import opened ScenarioSteps

  /** How many rows fill one buffer of the fixture's capacity. */
  const TuplesToFill: nat := BufferSize / RowSize

  /** The scenarios' loop `for i in [from, to): appendTuple(i - 1, i, 0)`: one row per
      transaction, each append committing the transaction before it, all in the open
      block; nothing reaches the sink. When the open transaction is `from` itself, the
      first append adds to it. */
  method AppendEach(w: TupleStreamWrapper, ghost base: nat, ghost n: nat, from: int, to: int)
    requires w.Valid() && Shape(w.State(), [], base, n, w.openTransactionId, 0) && w.generation == 0
    requires w.partitionId == 1 && w.columnNames == ColumnNames
    requires from <= to && n + (to - from) <= 10
    requires w.openTransactionId < from || (w.openTransactionId == from && w.committedUso == base)
    modifies w, w.topend
    ensures w.Valid() && w.generation == 0
    ensures Shape(w.State(), [], base, n + (to - from), if from < to then to - 1 else old(w.openTransactionId), 0)
    ensures from + 1 < to ==> w.committedTransactionId == to - 2 && w.committedUso + RowSize == w.uso
    ensures w.topend.State() == old(w.topend.State())
  {
    var t := w.openTransactionId;
    var i := from;
    while i < to
      invariant from <= i <= to
      invariant w.Valid() && w.generation == 0
      invariant Shape(w.State(), [], base, n + (i - from), if from < i then i - 1 else t, 0)
      invariant i == from ==> w.openTransactionId == t && (t == from ==> w.committedUso == base)
      invariant from + 1 < i ==> w.committedTransactionId == i - 2 && w.committedUso + RowSize == w.uso
      invariant w.topend.State() == old(w.topend.State())
    {
      if i == from && t == from {
        AppendSame(w, [], base, n + (i - from), i - 1, 0);
      } else {
        AppendNew(w, [], base, n + (i - from), 0, i - 1, i, 0);
      }
      i := i + 1;
    }
  }

  /** The scenarios' loop repeating `appendTuple(lastCommittedTxnId, txnId, 0)`
      `count` times: one transaction writes every row. Its first append commits the
      transaction before it and hands over a full open block; after that nothing
      reaches the sink, and the rows stay within the first `n + count` of one block
      when that many fit. */
  method AppendOneTxn(w: TupleStreamWrapper, ghost base: nat, ghost n: nat, count: nat,
                      lastCommittedTxnId: int, txnId: int)
    requires w.Valid() && Shape(w.State(), [], base, n, w.openTransactionId, 0) && w.generation == 0
    requires w.partitionId == 1 && w.columnNames == ColumnNames
    requires 0 < count && lastCommittedTxnId < txnId && w.openTransactionId <= txnId
    requires w.openTransactionId < txnId ==> n == 0 || n == 10
    requires w.openTransactionId == txnId ==> w.committedUso == base
    modifies w, w.topend
    ensures var first := old(w.openTransactionId) < txnId;
      var split := first && n == 10;
      && w.Valid() && w.generation == 0 && w.openTransactionId == txnId
      && Shape(w.State(), w.pendingBlocks, w.currBlock.uso, |w.currBlock.rows|, txnId, 0)
      && w.committedUso == Base(w.State()) && Base(w.State()) == (if split then old(w.uso) else base)
      && w.committedTransactionId == (if first then old(w.openTransactionId) else old(w.committedTransactionId))
      && (!split && n + count <= 10 ==> Shape(w.State(), [], base, n + count, txnId, 0))
      && w.topend.blocks == old(w.topend.blocks) + (if split then [old(w.currBlock)] else [])
      && w.topend.receivedExportBuffer == (old(w.topend.receivedExportBuffer) || split)
      && w.topend.receivedEndOfStream == old(w.topend.receivedEndOfStream)
      && (!split ==> w.topend.State() == old(w.topend.State()))
  {
    ghost var first := w.openTransactionId < txnId;
    ghost var split := first && n == 10;
    ghost var exact := !split && n + count <= 10;
    ghost var b := if split then w.uso else base;
    ghost var c := if first then w.openTransactionId else w.committedTransactionId;
    var i := 0;
    while i < count
      invariant 0 <= i <= count
      invariant i == 0 ==> w.State() == old(w.State()) && w.topend.State() == old(w.topend.State())
      invariant w.Valid() && w.generation == 0
      invariant 0 < i ==> && w.openTransactionId == txnId
                          && Shape(w.State(), w.pendingBlocks, w.currBlock.uso, |w.currBlock.rows|, txnId, 0)
                          && w.committedUso == Base(w.State()) && Base(w.State()) == b
                          && w.committedTransactionId == c
                          && (exact ==> Shape(w.State(), [], base, n + i, txnId, 0))
                          && w.topend.blocks == old(w.topend.blocks) + (if split then [old(w.currBlock)] else [])
                          && w.topend.receivedExportBuffer == (old(w.topend.receivedExportBuffer) || split)
                          && w.topend.receivedEndOfStream == old(w.topend.receivedEndOfStream)
                          && (!split ==> w.topend.State() == old(w.topend.State()))
    {
      if w.openTransactionId < txnId {
        AppendNew(w, [], base, n, 0, lastCommittedTxnId, txnId, 0);
      } else if i == 0 {
        AppendSame(w, [], base, n, lastCommittedTxnId, 0);
      } else {
        AppendSame(w, w.pendingBlocks, w.currBlock.uso, |w.currBlock.rows|, lastCommittedTxnId, 0);
      }
      i := i + 1;
    }
  }

  /** One committed row, then a flush: one 94-byte block at offset 0, generation 0,
      and the sink received the five column names once, in order. */
  method DoOneTuple(initialCapacity: nat) returns (received: bool, results: StreamBlock, names: seq<string>)
    ensures received
    ensures results.uso == 0 && results.generationId == 0 && results.Offset() == RowSize
    ensures names == ColumnNames
  {
    var w, sink := Fixture(initialCapacity);
    AppendNew(w, [], 0, 0, 0, 1, 2, 0);
    Flush(w, [], 0, 1, 0, 2, 2);
    assert Repeat(ColumnNames, 1) == [] + ColumnNames;
    received := sink.receivedExportBuffer;
    names := sink.columnNames;
    results := sink.PopFront();
    OffsetOfRows(results, 1);
  }

  /** BasicOps' appends and flushes: nine one-row transactions and a flush that
      commits them, then ten more and a flush; the sink holds one block per flush. */
  method BasicOpsWrites(w: TupleStreamWrapper) returns (ghost b1: StreamBlock, ghost b2: StreamBlock)
    requires w.Valid() && AfterFixture(w.State()) && w.topend.State() == EmptySink
    requires w.partitionId == 1 && w.columnNames == ColumnNames
    modifies w, w.topend
    ensures w.Valid() && w.pendingBlocks == [] && w.topend.blocks == [b1, b2] && w.topend.receivedExportBuffer
    ensures b1.uso == 0 && b1.generationId == 0 && |b1.rows| == 9
    ensures b2.uso == RowSize * 9 && b2.generationId == 0 && |b2.rows| == 10
  {
    AppendEach(w, 0, 0, 1, 10);
    b1 := w.currBlock;
    Flush(w, [], 0, 9, 0, 9, 10);
    AppendEach(w, RowSize * 9, 0, 10, 20);
    b2 := w.currBlock;
    Flush(w, [], RowSize * 9, 10, 0, 19, 19);
  }

  /** Nine transactions of one row each and a flush, then ten more and a flush: two
      blocks, 846 bytes at offset 0 and 940 bytes at offset 846, both generation 0;
      allocatedByteCount is 0 before, 1786 while the sink holds both, 0 once it drops
      them. */
  method BasicOps(initialCapacity: nat)
    returns (before: nat, during: nat, after: nat, received: bool, first: StreamBlock, second: StreamBlock)
    ensures before == 0 && during == 1786 && after == 0 && received
    ensures first.uso == 0 && first.generationId == 0 && first.Offset() == RowSize * 9
    ensures second.uso == RowSize * 9 && second.generationId == 0 && second.Offset() == RowSize * 10
  {
    var w, sink := Fixture(initialCapacity);
    before := w.AllocatedByteCount();
    ghost var b1, b2 := BasicOpsWrites(w);
    TotalBytesPair(b1, b2);
    during := w.AllocatedByteCount();
    received := sink.receivedExportBuffer;
    first := sink.PopFront();
    second := sink.PopFront();
    after := w.AllocatedByteCount();
    OffsetOfRows(first, 9);
    OffsetOfRows(second, 10);
  }

  /** A flush naming a transaction far ahead commits everything written: nine rows,
      a flush to transaction 100, ten rows from there, a flush to 131 give a 846-byte
      block at 0 and a 940-byte block at 846, both generation 0. */
  method FarFutureFlush(initialCapacity: nat) returns (received: bool, first: StreamBlock, second: StreamBlock)
    ensures received
    ensures first.uso == 0 && first.generationId == 0 && first.Offset() == RowSize * 9
    ensures second.uso == RowSize * 9 && second.generationId == 0 && second.Offset() == RowSize * 10
  {
    var w, sink := Fixture(initialCapacity);
    AppendEach(w, 0, 0, 1, 10);
    Flush(w, [], 0, 9, 0, 99, 100);
    AppendEach(w, RowSize * 9, 0, 100, 110);
    Flush(w, [], RowSize * 9, 10, 0, 130, 131);
    received := sink.receivedExportBuffer;
    first := sink.PopFront();
    second := sink.PopFront();
    OffsetOfRows(first, 9);
    OffsetOfRows(second, 10);
  }

  /** Ten one-row transactions fill a buffer without handing it over; the eleventh
      finalises it and, committing the tenth, hands over the full 940-byte block. */
  method Fill(initialCapacity: nat) returns (receivedWhenFull: bool, received: bool, results: StreamBlock)
    ensures !receivedWhenFull && received
    ensures results.uso == 0 && results.generationId == 0 && results.Offset() == RowSize * TuplesToFill
  {
    var w, sink := Fixture(initialCapacity);
    assert TuplesToFill == 10;
    AppendEach(w, 0, 0, 1, TuplesToFill + 1);
    receivedWhenFull := sink.receivedExportBuffer;
    AppendNew(w, [], 0, 10, 0, TuplesToFill, TuplesToFill + 1, 0);
    received := sink.receivedExportBuffer;
    results := sink.PopFront();
    OffsetOfRows(results, 10);
  }

  /** One transaction fills a buffer, then overflows into a second one: nothing is
      handed over while it stays open; the next transaction's first row commits it
      and hands over the full 940-byte block. */
  method FillSingleTxnAndAppend(initialCapacity: nat)
    returns (receivedWhenFull: bool, receivedAfterOverflow: bool, received: bool, results: StreamBlock)
    ensures !receivedWhenFull && !receivedAfterOverflow && received
    ensures results.uso == 0 && results.generationId == 0 && results.Offset() == RowSize * TuplesToFill
  {
    var w, sink := Fixture(initialCapacity);
    assert TuplesToFill == 10;
    AppendOneTxn(w, 0, 0, TuplesToFill, 0, 1);
    receivedWhenFull := sink.receivedExportBuffer;
    ghost var full := w.currBlock;
    AppendSame(w, [], 0, 10, 0, 0);
    receivedAfterOverflow := sink.receivedExportBuffer;
    AppendNew(w, [full], w.currBlock.uso, 1, 0, 1, 2, 0);
    received := sink.receivedExportBuffer;
    results := sink.PopFront();
    OffsetOfRows(results, 10);
  }

  /** One transaction fills a buffer and overflows into a second one; a flush naming
      it as committed hands over both: 940 bytes at 0 and 94 bytes at 940. */
  method FillSingleTxnAndFlush(initialCapacity: nat)
    returns (receivedWhenFull: bool, receivedAfterOverflow: bool, received: bool, first: StreamBlock, second: StreamBlock)
    ensures !receivedWhenFull && !receivedAfterOverflow && received
    ensures first.uso == 0 && first.generationId == 0 && first.Offset() == RowSize * TuplesToFill
    ensures second.uso == RowSize * TuplesToFill && second.generationId == 0 && second.Offset() == RowSize
  {
    var w, sink := Fixture(initialCapacity);
    assert TuplesToFill == 10;
    AppendOneTxn(w, 0, 0, TuplesToFill, 0, 1);
    receivedWhenFull := sink.receivedExportBuffer;
    ghost var full := w.currBlock;
    AppendSame(w, [], 0, 10, 0, 0);
    receivedAfterOverflow := sink.receivedExportBuffer;
    Flush(w, [full], w.currBlock.uso, 1, 0, 1, 1);
    received := sink.receivedExportBuffer;
    first := sink.PopFront();
    second := sink.PopFront();
    OffsetOfRows(first, 10);
    OffsetOfRows(second, 1);
  }

  /** One transaction fills a buffer; the next one's first row commits it and hands
      it over, and rolling that row back leaves the 940-byte block with the sink. */
  method FillSingleTxnAndCommitWithRollback(initialCapacity: nat)
    returns (receivedWhenFull: bool, received: bool, results: StreamBlock)
    ensures !receivedWhenFull && received
    ensures results.uso == 0 && results.generationId == 0 && results.Offset() == RowSize * TuplesToFill
  {
    var w, sink := Fixture(initialCapacity);
    assert TuplesToFill == 10;
    AppendOneTxn(w, 0, 0, TuplesToFill, 0, 1);
    receivedWhenFull := sink.receivedExportBuffer;
    var mark := w.BytesUsed();
    AppendNew(w, [], 0, 10, 0, 1, 2, 0);
    RollbackWithin(w, mark, 1, 0, 0, mark);
    FlushIdle(w, mark, 0, 1, 2);
    received := sink.receivedExportBuffer;
    results := sink.PopFront();
    OffsetOfRows(results, 10);
  }

  /** Sixty-one rows of one open transaction fill several buffers and hand none over. */
  method FillWithOneTxn(initialCapacity: nat) returns (received: bool)
    ensures !received
  {
    var w, sink := Fixture(initialCapacity);
    AppendOneTxn(w, 0, 0, (TuplesToFill + 10) * 3 + 1, 1, 2);
    received := sink.receivedExportBuffer;
  }

  /** Rolling back the only row and writing one under generation 5 instead: the sink
      gets one 94-byte block at 0 of generation 5. */
  method RollbackFirstTuple(initialCapacity: nat) returns (received: bool, results: StreamBlock)
    ensures received
    ensures results.uso == 0 && results.generationId == 5 && results.Offset() == RowSize
  {
    var w, sink := Fixture(initialCapacity);
    AppendNew(w, [], 0, 0, 0, 1, 2, 0);
    RollbackWithin(w, 0, 1, 0, 0, 0);
    AppendNew(w, [], 0, 0, 0, 1, 3, 5);
    Flush(w, [], 0, 1, 5, 3, 3);
    received := sink.receivedExportBuffer;
    results := sink.PopFront();
    OffsetOfRows(results, 1);
  }

  /** Ten committed rows, then a row rolled back: the committed 940-byte block is
      handed over untouched. */
  method RollbackMiddleTuple(initialCapacity: nat) returns (received: bool, results: StreamBlock)
    ensures received
    ensures results.uso == 0 && results.generationId == 0 && results.Offset() == RowSize * 10
  {
    var w, sink := Fixture(initialCapacity);
    AppendEach(w, 0, 0, 1, 11);
    var mark := w.BytesUsed();
    AppendNew(w, [], 0, 10, 0, 10, 11, 0);
    RollbackWithin(w, mark, 1, 0, 0, mark);
    FlushIdle(w, mark, 0, 10, 11);
    received := sink.receivedExportBuffer;
    results := sink.PopFront();
    OffsetOfRows(results, 10);
  }

  /** Ten committed rows, then forty rows of one transaction spread over several
      buffers and all rolled back: the committed 940-byte block is handed over
      untouched. */
  method RollbackWholeBuffer(initialCapacity: nat) returns (received: bool, results: StreamBlock)
    ensures received
    ensures results.uso == 0 && results.generationId == 0 && results.Offset() == RowSize * 10
  {
    var w, sink := Fixture(initialCapacity);
    AppendEach(w, 0, 0, 1, 11);
    var mark := w.BytesUsed();
    AppendOneTxn(w, 0, 10, (TuplesToFill + 10) * 2, 10, 11);
    RollbackToBase(w, mark);
    FlushIdle(w, mark, 0, 10, 11);
    received := sink.receivedExportBuffer;
    results := sink.PopFront();
    OffsetOfRows(results, 10);
  }

  /** A row under generation 1 after nine rows of generation 0 ends generation 0 and
      starts a block of its own: 846 bytes at 0 of generation 0, then 94 bytes at 846
      of generation 1. */
  method AdvanceExportWindow(initialCapacity: nat)
    returns (endOfStream: bool, received: bool, first: StreamBlock, second: StreamBlock)
    ensures endOfStream && received
    ensures first.uso == 0 && first.generationId == 0 && first.Offset() == RowSize * 9
    ensures second.uso == RowSize * 9 && second.generationId == 1 && second.Offset() == RowSize
  {
    var w, sink := Fixture(initialCapacity);
    AppendEach(w, 0, 0, 1, 10);
    AppendNew(w, [], 0, 9, 0, 10, 11, 1);
    Flush(w, [], w.currBlock.uso, 1, 1, 11, 11);
    endOfStream := sink.receivedEndOfStream;
    received := sink.receivedExportBuffer;
    first := sink.PopFront();
    second := sink.PopFront();
    OffsetOfRows(first, 9);
    OffsetOfRows(second, 1);
  }

  /** A catalog update to generation 12 while ten rows of generation 0 are open ends
      generation 0; the next row, asking for the older generation 10, is written
      under 12 in a block of its own: 940 bytes at 0, then 94 bytes at 940. */
  method CatalogUpdateTest(initialCapacity: nat)
    returns (endOfStreamBefore: bool, endOfStream: bool, received: bool, first: StreamBlock, second: StreamBlock)
    ensures !endOfStreamBefore && endOfStream && received
    ensures first.uso == 0 && first.generationId == 0 && first.Offset() == RowSize * 10
    ensures second.uso == RowSize * 10 && second.generationId == 12 && second.Offset() == RowSize
  {
    var w, sink := Fixture(initialCapacity);
    AppendEach(w, 0, 0, 1, 10);
    AppendNew(w, [], 0, 9, 0, 10, 11, 0);
    endOfStreamBefore := sink.receivedEndOfStream;
    SetGeneration(w, [], 0, 10, 0, 12);
    AppendNew(w, [], 0, 10, 0, 12, 13, 10);
    Flush(w, [], w.currBlock.uso, 1, 12, 13, 13);
    endOfStream := sink.receivedEndOfStream;
    received := sink.receivedExportBuffer;
    first := sink.PopFront();
    second := sink.PopFront();
    OffsetOfRows(first, 10);
    OffsetOfRows(second, 1);
  }

  /** A catalog update right after a flush: the flushed 846-byte block of generation
      0, then the next row in a block of generation 12 at 846. */
  method CatalogUpdateAfterFlush(initialCapacity: nat)
    returns (endOfStreamBefore: bool, endOfStream: bool, received: bool, first: StreamBlock, second: StreamBlock)
    ensures !endOfStreamBefore && endOfStream && received
    ensures first.uso == 0 && first.generationId == 0 && first.Offset() == RowSize * 9
    ensures second.uso == RowSize * 9 && second.generationId == 12 && second.Offset() == RowSize
  {
    var w, sink := Fixture(initialCapacity);
    AppendEach(w, 0, 0, 1, 10);
    Flush(w, [], 0, 9, 0, 10, 10);
    endOfStreamBefore := sink.receivedEndOfStream;
    SetGeneration(w, [], w.currBlock.uso, 0, 0, 12);
    AppendNew(w, [], w.currBlock.uso, 0, 0, 12, 13, 10);
    Flush(w, [], w.currBlock.uso, 1, 12, 13, 13);
    endOfStream := sink.receivedEndOfStream;
    received := sink.receivedExportBuffer;
    first := sink.PopFront();
    second := sink.PopFront();
    OffsetOfRows(first, 9);
    OffsetOfRows(second, 1);
  }

  /** The first half of CatalogUpdateAfterRollback: nine rows of generation 0, then
      a row under generation 4 that splits them off and is rolled back. */
  method RolledBackGenerationSwitch(initialCapacity: nat)
    returns (w: TupleStreamWrapper, sink: DummyTopend, mark: nat, endOfStreamBefore: bool)
    ensures fresh(w) && fresh(sink) && w.topend == sink && w.partitionId == 1 && w.columnNames == ColumnNames
    ensures w.Valid() && Shape(w.State(), [], mark, 0, 11, 4) && w.generation == 4
    ensures mark == RowSize * 9 && !endOfStreamBefore
    ensures |sink.blocks| == 1 && sink.blocks[0].uso == 0 && sink.blocks[0].generationId == 0
    ensures |sink.blocks[0].rows| == 9
  {
    var s;
    w, s := Fixture(initialCapacity);
    sink := s;
    AppendEach(w, 0, 0, 1, 10);
    endOfStreamBefore := sink.receivedEndOfStream;
    mark := w.BytesUsed();
    AppendNew(w, [], 0, 9, 0, 10, 11, 4);
    RollbackWithin(w, mark, 1, 4, 0, mark);
  }

  /** A row under generation 4 is rolled back, but generation 4 stays active and the
      block of generation 0 it split off stays handed over; a catalog update to 12
      then puts the next row in a block of generation 12 at 846. */
  method CatalogUpdateAfterRollback(initialCapacity: nat)
    returns (endOfStreamBefore: bool, endOfStream: bool, received: bool, first: StreamBlock, second: StreamBlock)
    ensures !endOfStreamBefore && endOfStream && received
    ensures first.uso == 0 && first.generationId == 0 && first.Offset() == RowSize * 9
    ensures second.uso == RowSize * 9 && second.generationId == 12 && second.Offset() == RowSize
  {
    var w, sink, mark;
    w, sink, mark, endOfStreamBefore := RolledBackGenerationSwitch(initialCapacity);
    SetGeneration(w, [], mark, 0, 4, 12);
    AppendNew(w, [], mark, 0, 4, 12, 13, 10);
    Flush(w, [], mark, 1, 12, 13, 13);
    endOfStream := sink.receivedEndOfStream;
    received := sink.receivedExportBuffer;
    first := sink.PopFront();
    second := sink.PopFront();
    OffsetOfRows(first, 9);
    OffsetOfRows(second, 1);
  }

  /** A flushed row of generation 0, then a row under generation 1: the sink hears
      the end of generation 0, and the first block is the 94-byte one of generation 0. */
  method PeriodicFlushEndOfStream(initialCapacity: nat) returns (received: bool, endOfStream: bool, results: StreamBlock)
    ensures received && endOfStream
    ensures results.uso == 0 && results.generationId == 0 && results.Offset() == RowSize
  {
    var w, sink := Fixture(initialCapacity);
    AppendNew(w, [], 0, 0, 0, 1, 2, 0);
    Flush(w, [], 0, 1, 0, 2, 2);
    AppendNew(w, [], w.currBlock.uso, 0, 0, 2, 3, 1);
    Flush(w, [], w.currBlock.uso, 1, 1, 3, 3);
    received := sink.receivedExportBuffer;
    endOfStream := sink.receivedEndOfStream;
    results := sink.PopFront();
    OffsetOfRows(results, 1);
  }

  /** A catalog update alone ends generation 0: the sink is told, and holds no block. */
  method JustGenerationChange(initialCapacity: nat) returns (empty: bool, received: bool, endOfStream: bool)
    ensures empty && received && endOfStream
  {
    var w, sink := Fixture(initialCapacity);
    SetGeneration(w, [], 0, 0, 0, 3);
    empty := sink.blocks == [];
    received := sink.receivedExportBuffer;
    endOfStream := sink.receivedEndOfStream;
  }
}
