/** TupleStreamWrapper: the object that owns an export stream's blocks. Each method
    updates the fields in place as the wrapper does, and is proved to take the wrapper
    from `old(State())` to the state the value-level model of ExportStream computes,
    with the sink receiving exactly the model's notices, in order. */
module TupleStream {
  import opened Wrappers
  import opened StreamBlocks
  import opened Topend
  import opened ExportStream

  /** How the wrapper hands a notice to the sink: a finalised block goes with its own
      generation; the end of a generation goes as an end-of-stream push with no block. */
  function ToPush(n: Notice, partitionId: int, columnNames: seq<string>): Push {
    match n
    case Deliver(b, signature) => Push(b.generationId, partitionId, signature, columnNames, Some(b), false, false)
    case EndOfGeneration(g, signature) => Push(g, partitionId, signature, columnNames, None, false, true)
  }

  /** The pushExportBuffer calls that hand the notices over, one per notice, in order. */
  function Pushes(ns: seq<Notice>, partitionId: int, columnNames: seq<string>): seq<Push> {
    seq(|ns|, i requires 0 <= i < |ns| => ToPush(ns[i], partitionId, columnNames))
  }

  /** Delivering one more block of the queue is one more push to the sink. */
  lemma DeliverOneMore(sink: SinkState, pending: seq<StreamBlock>, i: nat, signature: string,
                       partitionId: int, columnNames: seq<string>)
    requires i < |pending|
    ensures ReceiveAll(sink, Pushes(DeliverAll(pending[..i + 1], signature), partitionId, columnNames))
         == Receive(ReceiveAll(sink, Pushes(DeliverAll(pending[..i], signature), partitionId, columnNames)),
                    Push(pending[i].generationId, partitionId, signature, columnNames, Some(pending[i]), false, false))
  {
    var ps := Pushes(DeliverAll(pending[..i + 1], signature), partitionId, columnNames);
    assert ps[..i] == Pushes(DeliverAll(pending[..i], signature), partitionId, columnNames);
  }

  /** `names` once per push. */
  function Repeat(names: seq<string>, n: nat): seq<string> {
    if n == 0 then [] else Repeat(names, n - 1) + names
  }

  lemma PushesConcat(a: seq<Notice>, b: seq<Notice>, partitionId: int, columnNames: seq<string>)
    ensures Pushes(a + b, partitionId, columnNames) == Pushes(a, partitionId, columnNames) + Pushes(b, partitionId, columnNames)
  {
  }

  /** The sink holds exactly the blocks the model delivers, in order, and receives the
      wrapper's column names once per push. */
  lemma {:induction false} PushesCarry(ns: seq<Notice>, partitionId: int, columnNames: seq<string>)
    ensures PushedBlocks(Pushes(ns, partitionId, columnNames)) == Delivered(ns)
    ensures PushedColumnNames(Pushes(ns, partitionId, columnNames)) == Repeat(columnNames, |ns|)
    decreases |ns|
  {
    if ns != [] {
      var init := ns[..|ns| - 1];
      var ps := Pushes(ns, partitionId, columnNames);
      assert ps[..|ps| - 1] == Pushes(init, partitionId, columnNames);
      PushesCarry(init, partitionId, columnNames);
    }
  }

  /** What the sink has seen once the notices are pushed: the delivered blocks appended
      to its queue, the column names once per push, the push flag raised by any push
      and the end-of-stream flag raised by any end of a generation; no notice, no
      change. */
  lemma ReceiveNotices(sink: SinkState, ns: seq<Notice>, partitionId: int, columnNames: seq<string>)
    ensures var r := ReceiveAll(sink, Pushes(ns, partitionId, columnNames));
      && r.blocks == sink.blocks + Delivered(ns)
      && r.columnNames == sink.columnNames + Repeat(columnNames, |ns|)
      && r.receivedExportBuffer == (sink.receivedExportBuffer || ns != [])
      && r.receivedEndOfStream == (sink.receivedEndOfStream || exists i :: 0 <= i < |ns| && ns[i].EndOfGeneration?)
      && (ns == [] ==> r == sink)
  {
    var ps := Pushes(ns, partitionId, columnNames);
    PushesCarry(ns, partitionId, columnNames);
    ReceiveAllContents(sink, ps);
    ReceiveAllFlags(sink, ps);
    assert forall i :: 0 <= i < |ns| ==> (ps[i].endOfStream <==> ns[i].EndOfGeneration?);
  }

  class TupleStreamWrapper {
    const partitionId: int
    const siteId: int
    const columnNames: seq<string>
    const topend: DummyTopend

    var defaultCapacity: nat
    var uso: nat
    var currBlock: StreamBlock
    var pendingBlocks: seq<StreamBlock>
    var openTransactionId: int
    var committedTransactionId: int
    var committedUso: nat
    var signature: string
    var generation: int

    /** The fields, as the value the ExportStream model works on. */
    function State(): Stream
      reads this
    {
      Stream(defaultCapacity, uso, currBlock, pendingBlocks, openTransactionId,
             committedTransactionId, committedUso, signature, generation)
    }

    ghost predicate Valid()
      reads this
    {
      Inv(State())
    }

    /** A wrapper for one partition's stream, with one empty block, no transaction and
        no generation yet. */
    constructor (partitionId: int, siteId: int, columnNames: seq<string>, topend: DummyTopend, defaultCapacity: nat)
      ensures Valid() && State() == Initial(defaultCapacity)
      ensures this.partitionId == partitionId && this.siteId == siteId
      ensures this.columnNames == columnNames && this.topend == topend
    {
      this.partitionId := partitionId;
      this.siteId := siteId;
      this.columnNames := columnNames;
      this.topend := topend;
      this.defaultCapacity := defaultCapacity;
      uso := 0;
      currBlock := FreshBlock(0, defaultCapacity);
      pendingBlocks := [];
      openTransactionId := 0;
      committedTransactionId := 0;
      committedUso := 0;
      signature := "";
      generation := NoGeneration;
    }

    /** bytesUsed: the offset the next row starts at; it counts every byte already
        handed to the sink and every byte the wrapper still holds. */
    function BytesUsed(): (n: nat)
      reads this
      requires Valid()
      ensures n == Base(State()) + TotalBytes(Chain(State()))
    {
      ChainFacts(State());
      uso
    }

    /** allocatedByteCount: a full buffer for every pending block plus what the sink
        still holds. */
    method AllocatedByteCount() returns (n: nat)
      ensures n == |pendingBlocks| * defaultCapacity + TotalBytes(topend.blocks)
    {
      var queued := topend.GetQueuedExportBytes(partitionId, signature);
      n := |pendingBlocks| * defaultCapacity + queued;
    }

    /** setDefaultCapacity: refused once anything was written or any transaction seen. */
    method SetDefaultCapacity(capacity: nat) returns (failure: Option<Error>)
      requires Valid()
      modifies this
      ensures Valid()
      ensures var r := ExportStream.SetDefaultCapacity(old(State()), capacity);
        if r.Failure? then failure == Some(r.error) && State() == old(State())
        else failure == None && State() == r.value
    {
      SetCapacityPreserves(State(), capacity);
      if uso != 0 || openTransactionId != 0 || committedTransactionId != 0 {
        return Some(CapacityAfterUse);
      }
      defaultCapacity := capacity;
      pendingBlocks := [];
      currBlock := FreshBlock(0, capacity);
      failure := None;
    }

    /** setSignatureAndGeneration. */
    method SetSignatureAndGeneration(signature: string, generation: int)
      modifies this, topend
      ensures var g := ExportStream.SetSignatureAndGeneration(old(State()), signature, generation);
        State() == g.next && topend.State() == ReceiveAll(old(topend.State()), Pushes(g.notices, partitionId, columnNames))
      ensures old(Valid()) ==> Valid()
    {
      if old(Valid()) {
        SetGenerationPreserves(State(), signature, generation);
      }
      if this.generation != NoGeneration && generation != this.generation {
        topend.PushExportBuffer(this.generation, partitionId, this.signature, columnNames, None, false, true);
      }
      this.signature := signature;
      this.generation := generation;
    }

    /** extendBufferChain: finalise the open block (dropping it if empty) and open a
        fresh one at the current offset. */
    method ExtendBufferChain()
      modifies this
      ensures State() == Extend(old(State()))
    {
      if currBlock.rows != [] {
        pendingBlocks := pendingBlocks + [currBlock];
      }
      currBlock := FreshBlock(uso, defaultCapacity);
    }

    /** commit: advance the transaction watermarks, then push every pending block that
        is wholly committed, oldest first. */
    method Commit(lastCommittedTxnId: int, currentTxnId: int)
      requires Valid() && openTransactionId <= currentTxnId
      modifies this, topend
      ensures var c := ExportStream.Commit(old(State()), lastCommittedTxnId, currentTxnId);
        State() == c.next && topend.State() == ReceiveAll(old(topend.State()), Pushes(c.notices, partitionId, columnNames))
    {
      if currentTxnId == openTransactionId && lastCommittedTxnId == committedTransactionId {
        assert Pushes([], partitionId, columnNames) == [];
        return;
      }
      if openTransactionId < currentTxnId {
        committedUso := uso;
        committedTransactionId := openTransactionId;
        openTransactionId := currentTxnId;
      }
      if openTransactionId <= lastCommittedTxnId {
        committedUso := uso;
        committedTransactionId := openTransactionId;
      }
      assert State() == AdvanceCommit(old(State()), lastCommittedTxnId, currentTxnId);
      DrainCommitted();
    }

    /** The drain loop of commit: push the pending blocks that end at or before the
        committed offset, oldest first, and stop at the first one that does not. */
    method DrainCommitted()
      modifies this, topend
      ensures var k := CommittedPrefix(old(pendingBlocks), committedUso);
        && State() == old(State()).(pending := old(pendingBlocks)[k..])
        && topend.State() == ReceiveAll(old(topend.State()), Pushes(DeliverAll(old(pendingBlocks)[..k], signature), partitionId, columnNames))
    {
      ghost var t := State();
      ghost var k := CommittedPrefix(t.pending, t.committedUso);
      ghost var i := 0;
      while pendingBlocks != [] && pendingBlocks[0].End() <= committedUso
        invariant 0 <= i <= k
        invariant State() == t.(pending := t.pending[i..])
        invariant topend.State() == ReceiveAll(old(topend.State()), Pushes(DeliverAll(t.pending[..i], t.signature), partitionId, columnNames))
        decreases |pendingBlocks|
      {
        assert pendingBlocks[0] == t.pending[i];
        DeliverOneMore(old(topend.State()), t.pending, i, t.signature, partitionId, columnNames);
        var b := pendingBlocks[0];
        topend.PushExportBuffer(b.generationId, partitionId, signature, columnNames, Some(b), false, false);
        pendingBlocks := pendingBlocks[1..];
        assert t.pending[i..][1..] == t.pending[i + 1..];
        i := i + 1;
      }
      assert i == k;
    }

    /** appendTuple: fatal if the transaction id moves backwards or a row cannot fit
        in a block; otherwise adopt a newer generation, finalise the open block if it
        holds another generation's rows or is full, commit, and write the row. */
    method AppendTuple(lastCommittedTxnId: int, txnId: int, generationId: int) returns (failure: Option<Error>)
      requires Valid()
      modifies this, topend
      ensures Valid()
      ensures var r := ExportStream.AppendTuple(old(State()), lastCommittedTxnId, txnId, generationId);
        && (r.Failure? ==> failure == Some(r.error) && State() == old(State()) && topend.State() == old(topend.State()))
        && (r.Success? ==>
              && failure == None && State() == r.value.next
              && topend.State() == ReceiveAll(old(topend.State()), Pushes(r.value.notices, partitionId, columnNames)))
    {
      if txnId < openTransactionId {
        return Some(TxnMovingBackwards);
      }
      if defaultCapacity < RowSize {
        return Some(RowExceedsCapacity);
      }
      AppendRow(lastCommittedTxnId, txnId, generationId);
      failure := None;
    }

    /** appendTuple once both checks have passed: prepare, commit, write the row. */
    method AppendRow(lastCommittedTxnId: int, txnId: int, generationId: int)
      requires Valid() && openTransactionId <= txnId && RowSize <= defaultCapacity
      modifies this, topend
      ensures Valid()
      ensures var p := PrepareAppend(old(State()), generationId);
        var c := ExportStream.Commit(p.next, lastCommittedTxnId, txnId);
        && State() == Write(c.next, txnId)
        && topend.State() == ReceiveAll(old(topend.State()), Pushes(p.notices + c.notices, partitionId, columnNames))
    {
      ghost var s0 := State();
      ghost var sink0 := topend.State();
      ghost var p := PrepareAppend(s0, generationId);
      PrepareForAppend(generationId);
      assert Valid() && openTransactionId <= txnId by {
        PreparePreserves(s0, generationId);
      }
      ghost var c := ExportStream.Commit(p.next, lastCommittedTxnId, txnId);
      Commit(lastCommittedTxnId, txnId);
      WriteRow(txnId);
      assert topend.State() == ReceiveAll(sink0, Pushes(p.notices + c.notices, partitionId, columnNames)) by {
        PushesConcat(p.notices, c.notices, partitionId, columnNames);
        ReceiveAllConcat(sink0, Pushes(p.notices, partitionId, columnNames), Pushes(c.notices, partitionId, columnNames));
      }
      assert Valid() by {
        AppendValid(s0, lastCommittedTxnId, txnId, generationId);
      }
    }

    /** The last step of appendTuple: the row goes at the end of the open block. */
    method WriteRow(txnId: int)
      modifies this
      ensures State() == Write(old(State()), txnId)
    {
      currBlock := currBlock.(rows := currBlock.rows + [Row(txnId, generation)], generationId := generation);
      uso := uso + RowSize;
    }

    /** The first half of appendTuple: adopt a newer generation, then finalise the open
        block if it holds another generation's rows or has no room for one more row. */
    method PrepareForAppend(generationId: int)
      modifies this, topend
      ensures var p := PrepareAppend(old(State()), generationId);
        State() == p.next && topend.State() == ReceiveAll(old(topend.State()), Pushes(p.notices, partitionId, columnNames))
    {
      if generationId > generation {
        SetSignatureAndGeneration(signature, generationId);
      } else {
        assert Pushes([], partitionId, columnNames) == [];
      }
      if currBlock.rows != [] && currBlock.generationId != generation {
        ExtendBufferChain();
      }
      if currBlock.Remaining() < RowSize {
        ExtendBufferChain();
      }
    }

    /** periodicFlush with a negative time (a forced flush): fatal if the transaction id
        moves backwards; otherwise finalise the open block and commit. */
    method PeriodicFlush(lastCommittedTxnId: int, currentTxnId: int) returns (failure: Option<Error>)
      requires Valid()
      modifies this, topend
      ensures Valid()
      ensures var r := ExportStream.PeriodicFlush(old(State()), lastCommittedTxnId, currentTxnId);
        && (r.Failure? ==> failure == Some(r.error) && State() == old(State()) && topend.State() == old(topend.State()))
        && (r.Success? ==>
              && failure == None && State() == r.value.next
              && topend.State() == ReceiveAll(old(topend.State()), Pushes(r.value.notices, partitionId, columnNames)))
    {
      if currentTxnId < openTransactionId {
        return Some(TxnMovingBackwards);
      }
      FlushPreserves(State(), lastCommittedTxnId, currentTxnId);
      ExtendPreserves(State());
      ExtendBufferChain();
      Commit(lastCommittedTxnId, currentTxnId);
      failure := None;
    }

    /** rollbackTo: forget every byte at or after the mark. The open block is cut when
        the mark falls inside it; otherwise it is dropped and pending blocks are popped
        from the back until one starts before the mark, which is cut and reopened. */
    method RollbackTo(mark: nat) returns (failure: Option<Error>)
      requires Valid()
      modifies this
      ensures Valid()
      ensures var r := ExportStream.RollbackTo(old(State()), mark);
        if r.Failure? then failure == Some(r.error) && State() == old(State())
        else failure == None && State() == r.value
    {
      if mark > uso {
        return Some(TruncatingTheFuture);
      }
      if mark < committedUso {
        return Some(MarkBeforeCommitted);
      }
      if mark % RowSize != 0 {
        return Some(MarkNotOnRowBoundary);
      }
      ghost var s0 := State();
      if currBlock.uso < mark {
        currBlock := TruncateTo(currBlock, mark);
      } else {
        assert Adjacent(pendingBlocks) && (pendingBlocks != [] ==> pendingBlocks[|pendingBlocks| - 1].End() == currBlock.uso) by {
          ChainFacts(State());
        }
        currBlock := UnwindPending(mark);
      }
      uso := mark;
      assert State() == ExportStream.RollbackTo(s0, mark).value;
      assert Valid() by {
        RollbackPreserves(s0, mark);
      }
      failure := None;
    }

    /** The rollback loop: pop pending blocks from the back, dropping those that start
        at or after the mark, until one starts before it; that one is cut at the mark
        and returned as the new open block, or a fresh block is opened at the mark. */
    method UnwindPending(mark: nat) returns (block: StreamBlock)
      requires Adjacent(pendingBlocks)
      requires pendingBlocks != [] ==> mark <= pendingBlocks[|pendingBlocks| - 1].End()
      modifies this
      ensures var u := Unwind(old(pendingBlocks), mark, defaultCapacity);
        State() == old(State()).(pending := u.0) && block == u.1
    {
      ghost var pend0 := pendingBlocks;
      var reopened: Option<StreamBlock> := None;
      while reopened.None? && pendingBlocks != []
        invariant |pendingBlocks| <= |pend0| && pendingBlocks == pend0[..|pendingBlocks|]
        invariant Adjacent(pendingBlocks)
        invariant reopened.None? ==> pendingBlocks != [] ==> mark <= pendingBlocks[|pendingBlocks| - 1].End()
        invariant reopened.None? ==> Unwind(pendingBlocks, mark, defaultCapacity) == Unwind(pend0, mark, defaultCapacity)
        invariant reopened.Some? ==> (pendingBlocks, reopened.value) == Unwind(pend0, mark, defaultCapacity)
        invariant State() == old(State()).(pending := pendingBlocks)
        decreases |pendingBlocks|
      {
        UnwindPop(pendingBlocks, mark, defaultCapacity);
        var last := pendingBlocks[|pendingBlocks| - 1];
        pendingBlocks := pendingBlocks[..|pendingBlocks| - 1];
        assert pendingBlocks == pend0[..|pendingBlocks|];
        if last.uso < mark {
          reopened := Some(TruncateTo(last, mark));
        }
      }
      block := if reopened.Some? then reopened.value else FreshBlock(mark, defaultCapacity);
    }
  }
}
