/** Building blocks of the wrapper's test scenarios: the fixture, the shape of the
    wrapper's state a scenario tracks, one lemma per kind of step saying what that step
    does to the shape, and one method per kind of step that performs it on the class
    and states what the sink then holds. */
module ScenarioSteps {
  import opened Wrappers
  import opened StreamBlocks
  import opened Topend
  import opened ExportStream
  import opened TupleStream

  /** The buffer capacity the fixture sets: ten rows fit, an eleventh does not. */
  const BufferSize: nat := 1024

  /** The export table's column names. */
  const ColumnNames: seq<string> := ["COLUMN0", "COLUMN1", "COLUMN2", "COLUMN3", "COLUMN4"]

  /** The wrapper as a scenario sees it: the fixture's capacity and signature, the
      given pending queue, an open block at `base` holding `n` rows of generation
      `blockGen`, and `txnId` as the open transaction. */
  ghost predicate Shape(s: Stream, pending: seq<StreamBlock>, base: nat, n: nat, txnId: int, blockGen: int) {
    && Inv(s) && s.capacity == BufferSize && s.signature == "dude"
    && s.pending == pending && s.open.uso == base && |s.open.rows| == n
    && (n > 0 ==> s.open.generationId == blockGen) && s.openTxnId == txnId
  }

  /** The wrapper right after the fixture: nothing written, no transaction, generation 0. */
  ghost predicate AfterFixture(s: Stream) {
    Shape(s, [], 0, 0, 0, 0) && s.committedTxnId == 0 && s.committedUso == 0 && s.generation == 0
  }

  /** A block of the fixture's capacity holds at most ten rows. */
  lemma TenRows(s: Stream)
    requires Inv(s) && s.capacity == BufferSize
    ensures |s.open.rows| <= 10 && s.open.Remaining() == BufferSize - RowSize * |s.open.rows|
  {
    assert s.open in Chain(s);
  }

  /** An append by a newer transaction: everything pending goes to the sink, then the
      open block too when the row does not join it (another generation, or ten rows
      already); the row lands in the open block or starts a new one at the offset. */
  lemma NewTxnStep(s: Stream, pending: seq<StreamBlock>, base: nat, n: nat, txnId: int, blockGen: int,
                   lastCommittedTxnId: int, newTxnId: int, generationId: int)
    requires Shape(s, pending, base, n, txnId, blockGen) && txnId < newTxnId
    ensures AppendTuple(s, lastCommittedTxnId, newTxnId, generationId).Success?
    ensures var st := AppendTuple(s, lastCommittedTxnId, newTxnId, generationId).value;
      var g := EffectiveGeneration(s, generationId);
      var split := n > 0 && (blockGen != g || n == 10);
      && st.notices == EndNotice(s, generationId) + DeliverAll(pending + (if split then [s.open] else []), "dude")
      && Shape(st.next, [], if split then s.uso else base, if split then 1 else n + 1, newTxnId, g)
      && st.next.generation == g && st.next.committedUso == s.uso
      && st.next.committedTxnId == (if newTxnId <= lastCommittedTxnId then newTxnId else txnId)
  {
    TenRows(s);
    var g := EffectiveGeneration(s, generationId);
    assert Splits(s, generationId) == (n > 0 && (blockGen != g || n == 10));
    var st := AppendTuple(s, lastCommittedTxnId, newTxnId, generationId).value;
    assert st.next.pending == [] && st.next.committedUso == s.uso by {
      AppendNewTxn(s, lastCommittedTxnId, newTxnId, generationId);
    }
    assert st.notices == EndNotice(s, generationId) + DeliverAll(pending + (if Splits(s, generationId) then [s.open] else []), "dude") by {
      AppendNewTxn(s, lastCommittedTxnId, newTxnId, generationId);
    }
    assert st.next.committedTxnId == (if newTxnId <= lastCommittedTxnId then newTxnId else txnId) by {
      AppendNewTxn(s, lastCommittedTxnId, newTxnId, generationId);
    }
    assert st.next.open.generationId == g by {
      AppendPlacement(s, lastCommittedTxnId, newTxnId, generationId);
    }
    assert Splits(s, generationId) ==> st.next.open.uso == s.uso && |st.next.open.rows| == 1 by {
      AppendPlacement(s, lastCommittedTxnId, newTxnId, generationId);
    }
    assert !Splits(s, generationId) ==> st.next.open.uso == base && |st.next.open.rows| == n + 1 by {
      AppendPlacement(s, lastCommittedTxnId, newTxnId, generationId);
    }
    assert Inv(st.next) && st.next.capacity == BufferSize && st.next.signature == "dude"
           && st.next.openTxnId == newTxnId && st.next.generation == g by {
      AppendPreserves(s, lastCommittedTxnId, newTxnId, generationId);
    }
  }

  /** An append by the open transaction, not yet known to have committed, while nothing
      written since the last delivery is committed: nothing goes to the sink, and the
      row joins the open block, or a new one when the open block holds ten rows (which
      then joins the pending queue). */
  lemma SameTxnStep(s: Stream, pending: seq<StreamBlock>, base: nat, n: nat, txnId: int,
                    lastCommittedTxnId: int, generationId: int)
    requires Shape(s, pending, base, n, txnId, s.generation) && lastCommittedTxnId < txnId
    requires s.committedUso == Base(s) && generationId <= s.generation
    ensures AppendTuple(s, lastCommittedTxnId, txnId, generationId).Success?
    ensures var st := AppendTuple(s, lastCommittedTxnId, txnId, generationId).value;
      var split := n == 10;
      && st.notices == []
      && Shape(st.next, pending + (if split then [s.open] else []), if split then s.uso else base,
               if split then 1 else n + 1, txnId, s.generation)
      && st.next.generation == s.generation && Base(st.next) == Base(s)
      && st.next.committedUso == s.committedUso && st.next.committedTxnId == s.committedTxnId
  {
    TenRows(s);
    var g := EffectiveGeneration(s, generationId);
    assert g == s.generation;
    assert Splits(s, generationId) == (n == 10);
    var st := AppendTuple(s, lastCommittedTxnId, txnId, generationId).value;
    assert st.notices == [] && st.next.pending == pending + (if n == 10 then [s.open] else [])
           && st.next.committedUso == s.committedUso && st.next.committedTxnId == s.committedTxnId by {
      AppendOpenTxn(s, lastCommittedTxnId, txnId, generationId);
    }
    assert st.next.open.generationId == g by {
      AppendPlacement(s, lastCommittedTxnId, txnId, generationId);
    }
    assert n == 10 ==> st.next.open.uso == s.uso && |st.next.open.rows| == 1 by {
      AppendPlacement(s, lastCommittedTxnId, txnId, generationId);
    }
    assert n != 10 ==> st.next.open.uso == base && |st.next.open.rows| == n + 1 by {
      AppendPlacement(s, lastCommittedTxnId, txnId, generationId);
    }
    assert Inv(st.next) && st.next.capacity == BufferSize && st.next.signature == "dude"
           && st.next.openTxnId == txnId && st.next.generation == g
           && Base(st.next) == Base(s) + TotalBytes(Delivered(st.notices)) by {
      AppendPreserves(s, lastCommittedTxnId, txnId, generationId);
    }
  }

  /** The fixture's first call on a new wrapper: the capacity is taken. */
  lemma CapacityTaken(initialCapacity: nat)
    ensures SetDefaultCapacity(Initial(initialCapacity), BufferSize) == Success(Initial(BufferSize))
  {
  }

  /** A wrapper with the fixture's capacity on which nothing has happened yet. */
  ghost predicate Untouched(s: Stream) {
    && s.capacity == BufferSize && s.uso == 0 && s.pending == [] && s.open == FreshBlock(0, BufferSize)
    && s.openTxnId == 0 && s.committedTxnId == 0 && s.committedUso == 0 && s.generation == NoGeneration
  }

  /** The fixture's second call: the first generation is set without any notice, so the
      sink receives nothing. */
  lemma FirstGeneration(s: Stream, n: Stream, before: SinkState, after: SinkState)
    requires Inv(s) && Untouched(s)
    requires n == SetSignatureAndGeneration(s, "dude", 0).next
    requires after == ReceiveAll(before, Pushes(SetSignatureAndGeneration(s, "dude", 0).notices, 1, ColumnNames))
    ensures AfterFixture(n) && after == before
  {
    SetGenerationPreserves(s, "dude", 0);
    assert SetSignatureAndGeneration(s, "dude", 0).notices == [];
  }

  /** The fixture: a wrapper for partition 1 on site 1 (whatever its default capacity),
      its capacity set to 1024, and a first generation 0 set, which pushes nothing. */
  method Fixture(initialCapacity: nat) returns (w: TupleStreamWrapper, sink: DummyTopend)
    ensures fresh(w) && fresh(sink) && w.topend == sink
    ensures w.partitionId == 1 && w.columnNames == ColumnNames
    ensures w.Valid() && AfterFixture(w.State()) && sink.State() == EmptySink
  {
    w, sink := NewWrapper(initialCapacity);
    ghost var s, before := w.State(), sink.State();
    w.SetSignatureAndGeneration("dude", 0);
    FirstGeneration(s, w.State(), before, sink.State());
  }

  /** The first half of the fixture: a new wrapper and sink, the capacity set to 1024. */
  method NewWrapper(initialCapacity: nat) returns (w: TupleStreamWrapper, sink: DummyTopend)
    ensures fresh(w) && fresh(sink) && w.topend == sink
    ensures w.partitionId == 1 && w.columnNames == ColumnNames
    ensures w.Valid() && Untouched(w.State()) && sink.State() == EmptySink
  {
    CapacityTaken(initialCapacity);
    sink := new DummyTopend();
    w := new TupleStreamWrapper(1, 1, ColumnNames, sink, initialCapacity);
    var failure := w.SetDefaultCapacity(BufferSize);
  }

  /** A forced flush once the open transaction is known to have committed: every
      pending block, then the open block if it holds rows, goes to the sink, and one
      empty block is left open at the offset. */
  lemma FlushStep(s: Stream, pending: seq<StreamBlock>, base: nat, n: nat, txnId: int, blockGen: int,
                  lastCommittedTxnId: int, currentTxnId: int)
    requires Shape(s, pending, base, n, txnId, blockGen) && txnId <= currentTxnId
    requires txnId < currentTxnId || (currentTxnId <= lastCommittedTxnId && s.committedTxnId < lastCommittedTxnId)
    ensures PeriodicFlush(s, lastCommittedTxnId, currentTxnId).Success?
    ensures var st := PeriodicFlush(s, lastCommittedTxnId, currentTxnId).value;
      && st.notices == DeliverAll(pending + (if n > 0 then [s.open] else []), "dude")
      && Shape(st.next, [], s.uso, 0, currentTxnId, blockGen)
      && st.next.generation == s.generation && st.next.committedUso == s.uso
      && st.next.committedTxnId == (if currentTxnId <= lastCommittedTxnId then currentTxnId else txnId)
  {
    var st := PeriodicFlush(s, lastCommittedTxnId, currentTxnId).value;
    assert st.notices == DeliverAll(Extend(s).pending, s.signature) && st.next.pending == []
           && st.next.open == FreshBlock(s.uso, s.capacity) && st.next.committedUso == s.uso by {
      FlushDeliversAll(s, lastCommittedTxnId, currentTxnId);
    }
    assert Inv(st.next) && st.next.openTxnId == currentTxnId by {
      FlushPreserves(s, lastCommittedTxnId, currentTxnId);
    }
  }

  /** A forced flush with nothing written since the last one hands nothing over. */
  lemma FlushQuiet(s: Stream, base: nat, txnId: int, blockGen: int, lastCommittedTxnId: int, currentTxnId: int)
    requires Shape(s, [], base, 0, txnId, blockGen) && txnId <= currentTxnId
    ensures PeriodicFlush(s, lastCommittedTxnId, currentTxnId).Success?
    ensures var st := PeriodicFlush(s, lastCommittedTxnId, currentTxnId).value;
      && st.notices == []
      && Shape(st.next, [], base, 0, currentTxnId, blockGen) && st.next.generation == s.generation
  {
    var st := PeriodicFlush(s, lastCommittedTxnId, currentTxnId).value;
    assert Extend(s).pending == [];
    assert Inv(st.next) && st.next.openTxnId == currentTxnId && st.next.open == FreshBlock(s.uso, s.capacity) by {
      FlushPreserves(s, lastCommittedTxnId, currentTxnId);
    }
  }

  /** A rollback to a row boundary inside the open block, at or after the committed
      offset, with nothing pending: the open block keeps its first `m` rows; the
      transaction, the generation and the watermarks stay. */
  lemma RollbackStep(s: Stream, base: nat, n: nat, txnId: int, blockGen: int, m: nat)
    requires Shape(s, [], base, n, txnId, blockGen) && m <= n && s.committedUso <= base + RowSize * m
    ensures RollbackTo(s, base + RowSize * m).Success?
    ensures var r := RollbackTo(s, base + RowSize * m).value;
      && Shape(r, [], base, m, txnId, blockGen) && r.uso == base + RowSize * m
      && r.generation == s.generation && r.committedUso == s.committedUso && r.committedTxnId == s.committedTxnId
  {
    var mark := base + RowSize * m;
    assert mark % RowSize == 0 && mark <= s.uso by {
      assert s.open in Chain(s);
      MultipleOfRowSize(base, m);
      OffsetOfRows(s.open, n);
    }
    var r := RollbackTo(s, mark).value;
    assert Inv(r) && r.uso == mark && r.committedUso == s.committedUso && r.committedTxnId == s.committedTxnId
           && r.openTxnId == txnId && r.generation == s.generation && r.signature == s.signature
           && r.capacity == s.capacity by {
      RollbackPreserves(s, mark);
    }
    if base < mark {
      assert r.pending == [] && r.open == TruncateTo(s.open, mark);
      assert |r.open.rows| == m by {
        WholeRows(m);
      }
    } else {
      assert r.pending == [] && r.open == FreshBlock(mark, s.capacity);
    }
  }

  /** A rollback to the first byte the wrapper still holds, when none of it is
      committed: every pending block is dropped and one empty block is opened there. */
  lemma RollbackToBaseStep(s: Stream)
    requires Inv(s) && s.capacity == BufferSize && s.signature == "dude" && s.committedUso == Base(s)
    ensures RollbackTo(s, Base(s)).Success?
    ensures var r := RollbackTo(s, Base(s)).value;
      && Shape(r, [], Base(s), 0, s.openTxnId, 0) && r.uso == Base(s)
      && r.generation == s.generation && r.committedUso == s.committedUso && r.committedTxnId == s.committedTxnId
  {
    var mark := Base(s);
    ChainFacts(s);
    assert Chain(s)[0] in Chain(s);
    RollbackPreserves(s, mark);
    var r := RollbackTo(s, mark).value;
    if s.pending != [] {
      assert s.pending[0] in Chain(s);
    }
    assert !(s.open.uso < mark);
    UnwindShape(s.pending, mark, s.capacity);
  }

  /** setSignatureAndGeneration with the fixture's signature: the blocks and the
      watermarks stay; the sink hears the end of the previous generation when one was
      set and the new one differs, and receives no block. */
  lemma SetGenerationStep(s: Stream, pending: seq<StreamBlock>, base: nat, n: nat, txnId: int, blockGen: int,
                          generation: int)
    requires Shape(s, pending, base, n, txnId, blockGen)
    ensures var g := SetSignatureAndGeneration(s, "dude", generation);
      var ended := s.generation != NoGeneration && generation != s.generation;
      && Shape(g.next, pending, base, n, txnId, blockGen) && g.next.generation == generation
      && g.next.committedUso == s.committedUso && g.next.committedTxnId == s.committedTxnId
      && Delivered(g.notices) == [] && (g.notices != [] <==> ended)
      && ((exists i :: 0 <= i < |g.notices| && g.notices[i].EndOfGeneration?) <==> ended)
  {
    var g := SetSignatureAndGeneration(s, "dude", generation);
    SetGenerationPreserves(s, "dude", generation);
    if g.notices != [] {
      assert g.notices[0].EndOfGeneration?;
    }
  }

  /** The notices of an append by a newer transaction, as the sink sees them: the
      blocks handed over, and an end of generation exactly when one was announced. */
  lemma NoticeFacts(s: Stream, generationId: int, bs: seq<StreamBlock>)
    ensures var ns := EndNotice(s, generationId) + DeliverAll(bs, s.signature);
      && Delivered(ns) == bs
      && ((exists i :: 0 <= i < |ns| && ns[i].EndOfGeneration?) <==> EndNotice(s, generationId) != [])
      && (ns != [] <==> EndNotice(s, generationId) != [] || bs != [])
  {
    var e := EndNotice(s, generationId);
    var ns := e + DeliverAll(bs, s.signature);
    DeliveredConcat(e, DeliverAll(bs, s.signature));
    DeliveredAll(bs, s.signature);
    if e != [] {
      assert Delivered(e) == Delivered([]) + [];
      assert ns[0].EndOfGeneration?;
    } else {
      assert ns == DeliverAll(bs, s.signature);
    }
  }

  // ---------------------------------------------------------------------------
  // The steps performed on the class

  /** appendTuple by a transaction newer than the open one (see NewTxnStep): the sink
      hears the end of the active generation when a newer one is adopted, then receives
      the blocks handed over, in order. */
  method AppendNew(w: TupleStreamWrapper, ghost pending: seq<StreamBlock>, ghost base: nat, ghost n: nat,
                   ghost blockGen: int, lastCommittedTxnId: int, txnId: int, generationId: int)
    requires w.Valid() && Shape(w.State(), pending, base, n, w.openTransactionId, blockGen)
    requires w.openTransactionId < txnId && w.partitionId == 1 && w.columnNames == ColumnNames
    modifies w, w.topend
    ensures var g := if generationId > old(w.generation) then generationId else old(w.generation);
      var split := n > 0 && (blockGen != g || n == 10);
      var ended := generationId > old(w.generation) && old(w.generation) != NoGeneration;
      var handed := pending + (if split then [old(w.currBlock)] else []);
      && w.Valid() && Shape(w.State(), [], if split then old(w.uso) else base, if split then 1 else n + 1, txnId, g)
      && w.generation == g && w.committedUso == old(w.uso)
      && w.committedTransactionId == (if txnId <= lastCommittedTxnId then txnId else old(w.openTransactionId))
      && w.topend.blocks == old(w.topend.blocks) + handed
      && w.topend.receivedExportBuffer == (old(w.topend.receivedExportBuffer) || ended || handed != [])
      && w.topend.receivedEndOfStream == (old(w.topend.receivedEndOfStream) || ended)
      && (!ended && handed == [] ==> w.topend.State() == old(w.topend.State()))
  {
    ghost var s := w.State();
    ghost var sink := w.topend.State();
    ghost var st := AppendTuple(s, lastCommittedTxnId, txnId, generationId).value;
    ghost var g := EffectiveGeneration(s, generationId);
    ghost var handed := pending + (if n > 0 && (blockGen != g || n == 10) then [s.open] else []);
    NewTxnStep(s, pending, base, n, s.openTxnId, blockGen, lastCommittedTxnId, txnId, generationId);
    NoticeFacts(s, generationId, handed);
    var failure := w.AppendTuple(lastCommittedTxnId, txnId, generationId);
    ReceiveNotices(sink, st.notices, 1, ColumnNames);
  }

  /** appendTuple by the open transaction while nothing held is committed (see
      SameTxnStep): the sink receives nothing. */
  method AppendSame(w: TupleStreamWrapper, ghost pending: seq<StreamBlock>, ghost base: nat, ghost n: nat,
                    lastCommittedTxnId: int, generationId: int)
    requires w.Valid() && Shape(w.State(), pending, base, n, w.openTransactionId, w.generation)
    requires lastCommittedTxnId < w.openTransactionId && w.committedUso == Base(w.State())
    requires generationId <= w.generation && w.partitionId == 1 && w.columnNames == ColumnNames
    modifies w, w.topend
    ensures var split := n == 10;
      && w.Valid()
      && Shape(w.State(), pending + (if split then [old(w.currBlock)] else []), if split then old(w.uso) else base,
               if split then 1 else n + 1, old(w.openTransactionId), old(w.generation))
      && w.generation == old(w.generation) && Base(w.State()) == old(Base(w.State()))
      && w.committedUso == old(w.committedUso) && w.committedTransactionId == old(w.committedTransactionId)
      && w.topend.State() == old(w.topend.State())
  {
    ghost var s := w.State();
    ghost var sink := w.topend.State();
    SameTxnStep(s, pending, base, n, s.openTxnId, lastCommittedTxnId, generationId);
    var failure := w.AppendTuple(lastCommittedTxnId, w.openTransactionId, generationId);
    ReceiveNotices(sink, [], 1, ColumnNames);
  }

  /** A forced periodicFlush once the open transaction is known to have committed (see
      FlushStep): the sink receives every pending block, then the open block if it
      holds rows, each with the column names. */
  method Flush(w: TupleStreamWrapper, ghost pending: seq<StreamBlock>, ghost base: nat, ghost n: nat,
               ghost blockGen: int, lastCommittedTxnId: int, currentTxnId: int)
    requires w.Valid() && Shape(w.State(), pending, base, n, w.openTransactionId, blockGen)
    requires w.openTransactionId <= currentTxnId
    requires w.openTransactionId < currentTxnId
             || (currentTxnId <= lastCommittedTxnId && w.committedTransactionId < lastCommittedTxnId)
    requires w.partitionId == 1 && w.columnNames == ColumnNames
    modifies w, w.topend
    ensures var handed := pending + (if n > 0 then [old(w.currBlock)] else []);
      && w.Valid() && Shape(w.State(), [], old(w.uso), 0, currentTxnId, blockGen)
      && w.generation == old(w.generation) && w.committedUso == old(w.uso)
      && w.committedTransactionId == (if currentTxnId <= lastCommittedTxnId then currentTxnId else old(w.openTransactionId))
      && w.topend.blocks == old(w.topend.blocks) + handed
      && w.topend.columnNames == old(w.topend.columnNames) + Repeat(ColumnNames, |handed|)
      && w.topend.receivedExportBuffer == (old(w.topend.receivedExportBuffer) || handed != [])
      && w.topend.receivedEndOfStream == old(w.topend.receivedEndOfStream)
  {
    ghost var s := w.State();
    ghost var sink := w.topend.State();
    ghost var handed := pending + (if n > 0 then [s.open] else []);
    FlushStep(s, pending, base, n, s.openTxnId, blockGen, lastCommittedTxnId, currentTxnId);
    var failure := w.PeriodicFlush(lastCommittedTxnId, currentTxnId);
    HandedOver(sink, handed);
  }

  /** Handing blocks over one push each: the sink queues them in order, with the column
      names once per block, and sees no end of stream. */
  lemma HandedOver(sink: SinkState, handed: seq<StreamBlock>)
    ensures var r := ReceiveAll(sink, Pushes(DeliverAll(handed, "dude"), 1, ColumnNames));
      && r.blocks == sink.blocks + handed
      && r.columnNames == sink.columnNames + Repeat(ColumnNames, |handed|)
      && r.receivedExportBuffer == (sink.receivedExportBuffer || handed != [])
      && r.receivedEndOfStream == sink.receivedEndOfStream
  {
    var ns := DeliverAll(handed, "dude");
    DeliveredAll(handed, "dude");
    ReceiveNotices(sink, ns, 1, ColumnNames);
    assert forall i :: 0 <= i < |ns| ==> ns[i] == Deliver(handed[i], "dude");
  }

  /** A forced periodicFlush with nothing written since the last one (see FlushQuiet):
      the sink receives nothing. */
  method FlushIdle(w: TupleStreamWrapper, ghost base: nat, ghost blockGen: int,
                   lastCommittedTxnId: int, currentTxnId: int)
    requires w.Valid() && Shape(w.State(), [], base, 0, w.openTransactionId, blockGen)
    requires w.openTransactionId <= currentTxnId && w.partitionId == 1 && w.columnNames == ColumnNames
    modifies w, w.topend
    ensures w.Valid() && Shape(w.State(), [], base, 0, currentTxnId, blockGen) && w.generation == old(w.generation)
    ensures w.topend.State() == old(w.topend.State())
  {
    ghost var s := w.State();
    ghost var sink := w.topend.State();
    FlushQuiet(s, base, s.openTxnId, blockGen, lastCommittedTxnId, currentTxnId);
    var failure := w.PeriodicFlush(lastCommittedTxnId, currentTxnId);
    ReceiveNotices(sink, [], 1, ColumnNames);
  }

  /** rollbackTo a mark `m` rows into the open block (see RollbackStep). */
  method RollbackWithin(w: TupleStreamWrapper, ghost base: nat, ghost n: nat, ghost blockGen: int,
                        ghost m: nat, mark: nat)
    requires w.Valid() && Shape(w.State(), [], base, n, w.openTransactionId, blockGen)
    requires m <= n && mark == base + RowSize * m && w.committedUso <= mark
    modifies w
    ensures w.Valid() && Shape(w.State(), [], base, m, old(w.openTransactionId), blockGen) && w.uso == mark
    ensures w.generation == old(w.generation) && w.committedUso == old(w.committedUso)
    ensures w.committedTransactionId == old(w.committedTransactionId)
  {
    RollbackStep(w.State(), base, n, w.openTransactionId, blockGen, m);
    var failure := w.RollbackTo(mark);
  }

  /** rollbackTo the first byte the wrapper holds, when none of it is committed (see
      RollbackToBaseStep): one empty block is left, at the mark. */
  method RollbackToBase(w: TupleStreamWrapper, mark: nat)
    requires w.Valid() && w.defaultCapacity == BufferSize && w.signature == "dude"
    requires w.committedUso == Base(w.State()) && mark == Base(w.State())
    modifies w
    ensures w.Valid() && Shape(w.State(), [], mark, 0, old(w.openTransactionId), 0) && w.uso == mark
    ensures w.generation == old(w.generation) && w.committedUso == old(w.committedUso)
    ensures w.committedTransactionId == old(w.committedTransactionId)
  {
    RollbackToBaseStep(w.State());
    var failure := w.RollbackTo(mark);
  }

  /** setSignatureAndGeneration with the fixture's signature (see SetGenerationStep):
      the sink hears the end of the previous generation and receives no block. */
  method SetGeneration(w: TupleStreamWrapper, ghost pending: seq<StreamBlock>, ghost base: nat, ghost n: nat,
                       ghost blockGen: int, generation: int)
    requires w.Valid() && Shape(w.State(), pending, base, n, w.openTransactionId, blockGen)
    requires w.partitionId == 1 && w.columnNames == ColumnNames
    modifies w, w.topend
    ensures var ended := old(w.generation) != NoGeneration && generation != old(w.generation);
      && w.Valid() && Shape(w.State(), pending, base, n, old(w.openTransactionId), blockGen)
      && w.generation == generation
      && w.committedUso == old(w.committedUso) && w.committedTransactionId == old(w.committedTransactionId)
      && w.topend.blocks == old(w.topend.blocks)
      && w.topend.receivedExportBuffer == (old(w.topend.receivedExportBuffer) || ended)
      && w.topend.receivedEndOfStream == (old(w.topend.receivedEndOfStream) || ended)
  {
    ghost var s := w.State();
    ghost var sink := w.topend.State();
    ghost var g := SetSignatureAndGeneration(s, "dude", generation);
    SetGenerationStep(s, pending, base, n, s.openTxnId, blockGen, generation);
    w.SetSignatureAndGeneration("dude", generation);
    ReceiveNotices(sink, g.notices, 1, ColumnNames);
  }
}
