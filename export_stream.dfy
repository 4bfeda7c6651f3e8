/** The export stream wrapper as a state machine over values: the open block, the
    queue of finalised blocks not yet handed off, the byte count, the transaction
    watermarks and the active generation. Each operation returns the next state and
    the notices it hands to the sink, in order. */
module ExportStream {
  import opened Wrappers
  import opened StreamBlocks

  datatype Stream = Stream(
    capacity: nat,              // default capacity of newly allocated blocks
    uso: nat,                   // bytes ever appended (bytesUsed), minus rolled-back ones
    open: StreamBlock,          // the block currently accepting rows
    pending: seq<StreamBlock>,  // finalised blocks not yet handed to the sink, oldest first
    openTxnId: int,             // the transaction currently writing
    committedTxnId: int,        // the last transaction known to have committed
    committedUso: nat,          // every byte before this offset is committed
    signature: string,
    generation: int)

  /** What an operation hands to the sink: a finalised block, or the notice that a
      generation has ended. */
  datatype Notice =
    | Deliver(block: StreamBlock, signature: string)
    | EndOfGeneration(generation: int, signature: string)

  datatype Step = Step(next: Stream, notices: seq<Notice>)

  /** The wrapper's fatal conditions. */
  datatype Error =
    | TxnMovingBackwards    // a transaction id older than the open one
    | RowExceedsCapacity    // the default capacity cannot hold one row
    | TruncatingTheFuture   // a rollback mark beyond the bytes written
    | MarkBeforeCommitted   // a rollback mark inside committed data
    | MarkNotOnRowBoundary  // a rollback mark inside a row
    | CapacityAfterUse      // the default capacity changed once the stream is in use

  /** The blocks the wrapper still owns, in stream order. */
  function Chain(s: Stream): seq<StreamBlock> {
    s.pending + [s.open]
  }

  /** Stream offset of the first byte the wrapper still owns: everything before it has
      been handed to the sink. */
  function Base(s: Stream): nat {
    if s.pending == [] then s.open.uso else s.pending[0].uso
  }

  /** A block as the wrapper keeps it: allocated with the stream's capacity, not
      overfull, starting on a row boundary, rows of one generation only. */
  predicate WellFormed(b: StreamBlock, capacity: nat) {
    b.capacity == capacity && b.Offset() <= capacity && b.uso % RowSize == 0 && b.Homogeneous()
  }

  /** Rows before the committed offset belong to committed transactions; rows after it
      belong to the transaction that is still open. */
  predicate Gated(b: StreamBlock, committedUso: nat, committedTxnId: int, openTxnId: int) {
    forall j :: 0 <= j < |b.rows| ==>
      if b.uso + RowSize * j < committedUso then b.rows[j].txnId <= committedTxnId
      else b.rows[j].txnId == openTxnId
  }

  /** The wrapper's invariant. */
  ghost predicate Inv(s: Stream) {
    && Contiguous(Chain(s), Base(s))
    && s.open.End() == s.uso
    && (forall b | b in s.pending :: b.rows != [])
    && (forall b | b in Chain(s) :: WellFormed(b, s.capacity) && Gated(b, s.committedUso, s.committedTxnId, s.openTxnId))
    && Base(s) <= s.committedUso <= s.uso
    && s.committedTxnId <= s.openTxnId
  }

  /** A wrapper just constructed: one empty block, nothing written, no generation. */
  function Initial(capacity: nat): (s: Stream)
    ensures Inv(s) && s.uso == 0 && Rows(Chain(s)) == []
  {
    Stream(capacity, 0, FreshBlock(0, capacity), [], 0, 0, 0, "", NoGeneration)
  }

  /** The blocks among the notices, in order. */
  function Delivered(ns: seq<Notice>): seq<StreamBlock> {
    if ns == [] then []
    else Delivered(ns[..|ns| - 1]) + (if ns[|ns| - 1].Deliver? then [ns[|ns| - 1].block] else [])
  }

  /** One Deliver notice per block, in order. */
  function DeliverAll(bs: seq<StreamBlock>, signature: string): seq<Notice> {
    seq(|bs|, i requires 0 <= i < |bs| => Deliver(bs[i], signature))
  }

  // ---------------------------------------------------------------------------
  // Operations

  /** extendBufferChain: move the open block to the pending queue (or drop it when
      nothing was written into it) and open a fresh block at the current offset. */
  function Extend(s: Stream): (r: Stream)
    ensures r.open == FreshBlock(s.uso, s.capacity)
    ensures Rows(r.pending) == Rows(Chain(s))
    ensures r.capacity == s.capacity && r.uso == s.uso && r.openTxnId == s.openTxnId
            && r.committedTxnId == s.committedTxnId && r.committedUso == s.committedUso
            && r.signature == s.signature && r.generation == s.generation
  {
    RowsSnoc(s.pending, s.open);
    s.(pending := if s.open.rows == [] then s.pending else s.pending + [s.open],
       open := FreshBlock(s.uso, s.capacity))
  }

  /** How many blocks at the head of the queue end at or before the watermark. */
  function CommittedPrefix(bs: seq<StreamBlock>, watermark: nat): (k: nat)
    ensures k <= |bs|
    ensures forall i :: 0 <= i < k ==> bs[i].End() <= watermark
    ensures k < |bs| ==> watermark < bs[k].End()
  {
    if bs == [] || watermark < bs[0].End() then 0
    else 1 + CommittedPrefix(bs[1..], watermark)
  }

  /** The transaction bookkeeping of commit: a newer current transaction means the
      open one has committed; a last-committed id reaching the open one means the open
      one has committed too. */
  function AdvanceCommit(s: Stream, lastCommittedTxnId: int, currentTxnId: int): (t: Stream)
    ensures t.openTxnId == (if s.openTxnId < currentTxnId then currentTxnId else s.openTxnId)
    ensures s.openTxnId < currentTxnId || s.openTxnId <= lastCommittedTxnId
            ==> t.committedUso == s.uso && s.openTxnId <= t.committedTxnId <= t.openTxnId
    ensures !(s.openTxnId < currentTxnId || s.openTxnId <= lastCommittedTxnId) ==> t == s
    ensures t.capacity == s.capacity && t.uso == s.uso && t.open == s.open && t.pending == s.pending
            && t.signature == s.signature && t.generation == s.generation
  {
    var t := if s.openTxnId < currentTxnId
             then s.(committedUso := s.uso, committedTxnId := s.openTxnId, openTxnId := currentTxnId)
             else s;
    if t.openTxnId <= lastCommittedTxnId then t.(committedUso := t.uso, committedTxnId := t.openTxnId)
    else t
  }

  /** commit: unless nothing changed, advance the watermarks and hand every pending
      block that lies wholly below the committed offset to the sink, oldest first. */
  function Commit(s: Stream, lastCommittedTxnId: int, currentTxnId: int): (c: Step)
    ensures |c.notices| <= |s.pending|
    ensures forall i :: 0 <= i < |c.notices| ==> c.notices[i] == Deliver(s.pending[i], s.signature)
    ensures c.next.pending == s.pending[|c.notices|..]
    ensures currentTxnId == s.openTxnId && lastCommittedTxnId == s.committedTxnId ==> c == Step(s, [])
  {
    if currentTxnId == s.openTxnId && lastCommittedTxnId == s.committedTxnId then Step(s, [])
    else
      var t := AdvanceCommit(s, lastCommittedTxnId, currentTxnId);
      var k := CommittedPrefix(t.pending, t.committedUso);
      Step(t.(pending := t.pending[k..]), DeliverAll(t.pending[..k], t.signature))
  }

  /** setSignatureAndGeneration: switch to the new signature and generation; when a
      generation was active and it changes, tell the sink that the old one has ended. */
  function SetSignatureAndGeneration(s: Stream, signature: string, generation: int): (g: Step)
    ensures g.next == s.(signature := signature, generation := generation)
    ensures |g.notices| <= 1
    ensures g.notices != [] <==> s.generation != NoGeneration && generation != s.generation
    ensures g.notices != [] ==> g.notices[0] == EndOfGeneration(s.generation, s.signature)
  {
    Step(s.(signature := signature, generation := generation),
         if s.generation != NoGeneration && generation != s.generation
         then [EndOfGeneration(s.generation, s.signature)] else [])
  }

  /** The generation a row appended with `generationId` is written under: a newer
      generation than the active one becomes active; an older one is ignored. */
  function EffectiveGeneration(s: Stream, generationId: int): (g: int)
    ensures s.generation <= g && generationId <= g
    ensures g == s.generation || g == generationId
  {
    if generationId > s.generation then generationId else s.generation
  }

  /** Serialise one row at the end of the open block. */
  function Write(s: Stream, txnId: int): (w: Stream)
    ensures w.uso == s.uso + RowSize && w.open.End() == s.open.End() + RowSize
    ensures w.open.rows == s.open.rows + [Row(txnId, s.generation)] && w.open.generationId == s.generation
    ensures w.open.uso == s.open.uso && w.open.capacity == s.open.capacity
    ensures w.capacity == s.capacity && w.pending == s.pending && w.openTxnId == s.openTxnId
            && w.committedTxnId == s.committedTxnId && w.committedUso == s.committedUso
            && w.signature == s.signature && w.generation == s.generation
  {
    s.(uso := s.uso + RowSize,
       open := s.open.(rows := s.open.rows + [Row(txnId, s.generation)], generationId := s.generation))
  }

  /** The first half of appendTuple: adopt a newer generation, then finalise the open
      block when it holds rows of another generation or has no room for one more row. */
  function PrepareAppend(s: Stream, generationId: int): (p: Step)
    ensures p.next.generation == EffectiveGeneration(s, generationId)
    ensures p.notices == EndNotice(s, generationId)
    ensures p.next.open.rows == [] || p.next.open.generationId == p.next.generation
    ensures RowSize <= s.capacity ==> p.next.open.Remaining() >= RowSize
    ensures p.next.open == s.open || p.next.open == FreshBlock(s.uso, s.capacity)
    ensures p.next.capacity == s.capacity && p.next.uso == s.uso && p.next.openTxnId == s.openTxnId
            && p.next.committedTxnId == s.committedTxnId && p.next.committedUso == s.committedUso
            && p.next.signature == s.signature
  {
    var g := if generationId > s.generation
             then SetSignatureAndGeneration(s, s.signature, generationId) else Step(s, []);
    var s1 := if g.next.open.rows != [] && g.next.open.generationId != g.next.generation
              then Extend(g.next) else g.next;
    var s2 := if s1.open.Remaining() < RowSize then Extend(s1) else s1;
    Step(s2, g.notices)
  }

  /** appendTuple: prepare the open block, commit on behalf of the appending
      transaction, then write the row. */
  function AppendTuple(s: Stream, lastCommittedTxnId: int, txnId: int, generationId: int): (r: Result<Step, Error>)
    ensures r.Failure? <==> txnId < s.openTxnId || s.capacity < RowSize
    ensures r.Failure? ==> r.error == (if txnId < s.openTxnId then TxnMovingBackwards else RowExceedsCapacity)
  {
    if txnId < s.openTxnId then Failure(TxnMovingBackwards)
    else if s.capacity < RowSize then Failure(RowExceedsCapacity)
    else
      var p := PrepareAppend(s, generationId);
      var c := Commit(p.next, lastCommittedTxnId, txnId);
      Success(Step(Write(c.next, txnId), p.notices + c.notices))
  }

  /** periodicFlush when forced (a negative time): finalise the open block and commit. */
  function PeriodicFlush(s: Stream, lastCommittedTxnId: int, currentTxnId: int): (r: Result<Step, Error>)
    ensures r.Failure? <==> currentTxnId < s.openTxnId
    ensures r.Failure? ==> r.error == TxnMovingBackwards
    ensures r.Success? ==> r.value.next.open == FreshBlock(s.uso, s.capacity) && r.value.next.uso == s.uso
  {
    if currentTxnId < s.openTxnId then Failure(TxnMovingBackwards)
    else Success(Commit(Extend(s), lastCommittedTxnId, currentTxnId))
  }

  /** The rollback loop over the pending queue, newest first: blocks that start at or
      after the mark are discarded; the first one that starts before it is reopened,
      cut at the mark; if none is left a fresh block is opened at the mark. */
  function Unwind(pending: seq<StreamBlock>, mark: nat, capacity: nat): (r: (seq<StreamBlock>, StreamBlock))
    requires Adjacent(pending)
    requires pending != [] ==> mark <= pending[|pending| - 1].End()
    ensures |r.0| <= |pending| && r.0 == pending[..|r.0|]
    ensures r.1.uso <= mark
    decreases |pending|
  {
    if pending == [] then ([], FreshBlock(mark, capacity))
    else
      var last := pending[|pending| - 1];
      if last.uso >= mark then
        assert |pending| > 1 ==> pending[|pending| - 2].End() == last.uso;
        Unwind(pending[..|pending| - 1], mark, capacity)
      else (pending[..|pending| - 1], TruncateTo(last, mark))
  }

  /** The rollback loop keeps a prefix of the queue and either opens a fresh block at
      the mark, when every pending block starts at or after it, or reopens the newest
      block that starts before the mark, cut there, dropping every block after it. */
  lemma {:induction false} UnwindShape(pending: seq<StreamBlock>, mark: nat, capacity: nat)
    requires Adjacent(pending)
    requires pending != [] ==> mark <= pending[|pending| - 1].End()
    ensures var r := Unwind(pending, mark, capacity);
      && r.0 == pending[..|r.0|]
      && ((r.0 == [] && r.1 == FreshBlock(mark, capacity) && forall i :: 0 <= i < |pending| ==> mark <= pending[i].uso)
          || (|r.0| < |pending| && pending[|r.0|].uso < mark <= pending[|r.0|].End()
              && r.1 == TruncateTo(pending[|r.0|], mark)
              && forall i :: |r.0| < i < |pending| ==> mark <= pending[i].uso))
    decreases |pending|
  {
    if pending != [] {
      var init := pending[..|pending| - 1];
      UnwindPop(pending, mark, capacity);
      if mark <= pending[|pending| - 1].uso {
        UnwindShape(init, mark, capacity);
        var r := Unwind(init, mark, capacity);
        assert init[..|r.0|] == pending[..|r.0|];
      }
    }
  }

  /** One turn of the rollback loop: the newest pending block is either reopened at
      the mark, or dropped and the loop goes on with the rest of the queue. */
  lemma UnwindPop(pending: seq<StreamBlock>, mark: nat, capacity: nat)
    requires Adjacent(pending) && pending != [] && mark <= pending[|pending| - 1].End()
    ensures var init := pending[..|pending| - 1];
      var last := pending[|pending| - 1];
      && Adjacent(init)
      && (last.uso < mark ==> Unwind(pending, mark, capacity) == (init, TruncateTo(last, mark)))
      && (mark <= last.uso ==>
            && (init != [] ==> mark <= init[|init| - 1].End())
            && Unwind(pending, mark, capacity) == Unwind(init, mark, capacity))
  {
    var init := pending[..|pending| - 1];
    assert init != [] ==> init[|init| - 1].End() == pending[|pending| - 1].uso;
  }

  /** rollbackTo: forget every byte written at or after the mark. */
  function RollbackTo(s: Stream, mark: nat): (r: Result<Stream, Error>)
    requires Inv(s)
    ensures r.Failure? <==> s.uso < mark || mark < s.committedUso || mark % RowSize != 0
    ensures r.Failure? ==> r.error == (if s.uso < mark then TruncatingTheFuture
                                       else if mark < s.committedUso then MarkBeforeCommitted
                                       else MarkNotOnRowBoundary)
  {
    if mark > s.uso then Failure(TruncatingTheFuture)
    else if mark < s.committedUso then Failure(MarkBeforeCommitted)
    else if mark % RowSize != 0 then Failure(MarkNotOnRowBoundary)
    else if s.open.uso < mark then Success(s.(uso := mark, open := TruncateTo(s.open, mark)))
    else
      ChainFacts(s);
      var u := Unwind(s.pending, mark, s.capacity);
      Success(s.(uso := mark, pending := u.0, open := u.1))
  }

  /** setDefaultCapacity: only before anything was written; the buffers are replaced by
      one empty block of the new capacity. */
  function SetDefaultCapacity(s: Stream, capacity: nat): (r: Result<Stream, Error>)
    ensures r.Failure? <==> s.uso != 0 || s.openTxnId != 0 || s.committedTxnId != 0
    ensures r.Failure? ==> r.error == CapacityAfterUse
    ensures r.Success? ==> r.value.capacity == capacity && Chain(r.value) == [FreshBlock(0, capacity)]
                           && r.value.uso == s.uso && r.value.openTxnId == s.openTxnId
                           && r.value.committedTxnId == s.committedTxnId && r.value.committedUso == s.committedUso
                           && r.value.signature == s.signature && r.value.generation == s.generation
  {
    if s.uso != 0 || s.openTxnId != 0 || s.committedTxnId != 0 then Failure(CapacityAfterUse)
    else Success(s.(capacity := capacity, pending := [], open := FreshBlock(0, capacity)))
  }

  // ---------------------------------------------------------------------------
  // Facts about the invariant

  /** What the invariant says about the chain of owned blocks, spelled out. */
  lemma ChainFacts(s: Stream)
    requires Inv(s)
    ensures Adjacent(s.pending)
    ensures s.pending != [] ==> s.pending[|s.pending| - 1].End() == s.open.uso
    ensures Base(s) + TotalBytes(Chain(s)) == s.uso
    ensures forall b | b in Chain(s) :: Base(s) <= b.uso && b.End() <= s.uso
    ensures Contiguous(s.pending, Base(s)) && s.open.uso == Base(s) + TotalBytes(s.pending)
  {
    ContiguousConcat(s.pending, [s.open], Base(s));
    ContiguousSpan(Chain(s), Base(s));
    forall b | b in Chain(s) ensures Base(s) <= b.uso && b.End() <= s.uso {
      var i :| 0 <= i < |Chain(s)| && Chain(s)[i] == b;
    }
    if s.pending != [] {
      var c := Chain(s);
      assert c[|s.pending|].uso == c[|s.pending| - 1].End();
    }
  }

  /** Every row of the block belongs to a transaction no newer than `txnId`. */
  predicate AllCommitted(b: StreamBlock, txnId: int) {
    forall j :: 0 <= j < |b.rows| ==> b.rows[j].txnId <= txnId
  }

  lemma {:induction false} DeliveredConcat(a: seq<Notice>, b: seq<Notice>)
    ensures Delivered(a + b) == Delivered(a) + Delivered(b)
    decreases |b|
  {
    if b == [] {
      assert a + b == a;
    } else {
      assert (a + b)[..|a + b| - 1] == a + b[..|b| - 1];
      DeliveredConcat(a, b[..|b| - 1]);
    }
  }

  lemma {:induction false} DeliveredAll(bs: seq<StreamBlock>, signature: string)
    ensures Delivered(DeliverAll(bs, signature)) == bs
    decreases |bs|
  {
    if bs != [] {
      var init := bs[..|bs| - 1];
      assert DeliverAll(bs, signature)[..|bs| - 1] == DeliverAll(init, signature);
      DeliveredAll(init, signature);
    }
  }

  /** Finalising the open block loses no row and keeps the invariant. */
  lemma ExtendPreserves(s: Stream)
    requires Inv(s)
    ensures Inv(Extend(s))
    ensures Base(Extend(s)) == Base(s)
    ensures Rows(Chain(Extend(s))) == Rows(Chain(s))
    ensures Extend(s).open.rows == [] && Extend(s).open.uso == s.uso
  {
    if s.open.rows == [] {
      ExtendDropsEmpty(s);
    } else {
      ExtendQueuesOpen(s);
    }
  }

  /** Extending with an empty open block: the block is replaced, the queue is unchanged. */
  lemma ExtendDropsEmpty(s: Stream)
    requires Inv(s) && s.open.rows == []
    ensures Inv(Extend(s)) && Base(Extend(s)) == Base(s)
    ensures Rows(Chain(Extend(s))) == Rows(Chain(s))
  {
    ChainFacts(s);
    var e := Extend(s);
    var newBlock := FreshBlock(s.uso, s.capacity);
    assert s.open in Chain(s);
    assert WellFormed(newBlock, s.capacity);
    assert Chain(e) == s.pending + [newBlock];
    ContiguousSnoc(s.pending, newBlock, Base(s));
    ContiguousSnoc(s.pending, s.open, Base(s));
    assert Base(e) == Base(s);
    forall b | b in Chain(e)
      ensures WellFormed(b, e.capacity) && Gated(b, e.committedUso, e.committedTxnId, e.openTxnId)
    {
      if b != newBlock { assert b in s.pending; assert b in Chain(s); }
    }
  }

  /** Extending with a non-empty open block: it joins the queue behind the others. */
  lemma ExtendQueuesOpen(s: Stream)
    requires Inv(s) && s.open.rows != []
    ensures Inv(Extend(s)) && Base(Extend(s)) == Base(s)
    ensures Rows(Chain(Extend(s))) == Rows(Chain(s))
  {
    var e := Extend(s);
    assert Chain(e) == Chain(s) + [FreshBlock(s.uso, s.capacity)];
    assert Base(e) == Base(s);
    QueuedChain(s);
    QueuedBlocks(s);
  }

  /** The chain grows by one empty block at the end of the written bytes. */
  lemma QueuedChain(s: Stream)
    requires Inv(s)
    ensures Contiguous(Chain(s) + [FreshBlock(s.uso, s.capacity)], Base(s))
    ensures Rows(Chain(s) + [FreshBlock(s.uso, s.capacity)]) == Rows(Chain(s))
  {
    ChainFacts(s);
    ContiguousSnoc(Chain(s), FreshBlock(s.uso, s.capacity), Base(s));
  }

  /** Every block of the extended chain is well formed and gated; the queued ones are
      not empty. */
  lemma QueuedBlocks(s: Stream)
    requires Inv(s) && s.open.rows != []
    ensures var e := Extend(s);
      && (forall b | b in Chain(e) :: WellFormed(b, e.capacity) && Gated(b, e.committedUso, e.committedTxnId, e.openTxnId))
      && (forall b | b in e.pending :: b.rows != [])
  {
    var e := Extend(s);
    var newBlock := FreshBlock(s.uso, s.capacity);
    assert s.open in Chain(s);
    MultipleOfRowSize(s.open.uso, |s.open.rows|);
    assert WellFormed(newBlock, s.capacity);
    forall b | b in Chain(e)
      ensures WellFormed(b, e.capacity) && Gated(b, e.committedUso, e.committedTxnId, e.openTxnId)
    {
      if b != newBlock { assert b in Chain(s); }
    }
    forall b | b in e.pending ensures b.rows != [] {
      if b != s.open { assert b in s.pending; }
    }
  }

  /** The transaction bookkeeping of commit, case by case. */
  lemma AdvanceCommitFacts(s: Stream, lastCommittedTxnId: int, currentTxnId: int)
    requires Inv(s) && s.openTxnId <= currentTxnId
    ensures var t := AdvanceCommit(s, lastCommittedTxnId, currentTxnId);
      && t.capacity == s.capacity && t.uso == s.uso && t.open == s.open && t.pending == s.pending
      && t.signature == s.signature && t.generation == s.generation && t.openTxnId == currentTxnId
      && ((t.committedUso == s.committedUso && t.committedTxnId == s.committedTxnId)
          || (t.committedUso == s.uso && s.openTxnId <= t.committedTxnId))
      && s.committedTxnId <= t.committedTxnId <= t.openTxnId
      && Inv(t)
  {
    var t := AdvanceCommit(s, lastCommittedTxnId, currentTxnId);
    ChainFacts(s);
    if t.committedUso == s.uso {
      forall b | b in Chain(t)
        ensures Gated(b, t.committedUso, t.committedTxnId, t.openTxnId)
      {
        assert b in Chain(s);
      }
    }
  }

  /** How the drain step splits the chain: the committed head of the queue, then the
      blocks that stay, which start where the head ends. */
  lemma DrainSplit(t: Stream, k: nat, n: Stream)
    requires Contiguous(Chain(t), Base(t)) && Base(t) <= t.committedUso
    requires k == CommittedPrefix(t.pending, t.committedUso) && n == t.(pending := t.pending[k..])
    ensures t.pending[..k] + n.pending == t.pending && Chain(t) == t.pending[..k] + Chain(n)
    ensures Contiguous(t.pending[..k], Base(t)) && Contiguous(Chain(n), Base(n))
    ensures Base(n) == Base(t) + TotalBytes(t.pending[..k]) && Base(n) <= t.committedUso
    ensures Rows(t.pending[..k]) + Rows(Chain(n)) == Rows(Chain(t))
  {
    var head := t.pending[..k];
    assert head + n.pending == t.pending;
    assert Chain(t) == head + Chain(n) by {
      ConcatAssoc(head, n.pending, [t.open]);
    }
    SplitContiguous(Chain(t), head, Chain(n), Base(t));
    assert Base(n) == Chain(n)[0].uso;
    assert Base(n) <= t.committedUso by {
      if k > 0 {
        ContiguousSpan(head, Base(t));
        assert head[k - 1] == t.pending[k - 1];
      }
    }
  }

  /** The drain step of commit: the committed head of the queue leaves, the rest stays. */
  lemma DrainPreserves(t: Stream)
    requires Inv(t)
    ensures var k := CommittedPrefix(t.pending, t.committedUso);
      var n := t.(pending := t.pending[k..]);
      && Inv(n)
      && t.pending[..k] + n.pending == t.pending
      && Contiguous(t.pending[..k], Base(t))
      && Base(n) == Base(t) + TotalBytes(t.pending[..k])
      && Rows(t.pending[..k]) + Rows(Chain(n)) == Rows(Chain(t))
      && (forall b | b in t.pending[..k] ::
            b.rows != [] && b.End() <= t.committedUso && AllCommitted(b, t.committedTxnId))
  {
    var k := CommittedPrefix(t.pending, t.committedUso);
    var n := t.(pending := t.pending[k..]);
    var done := t.pending[..k];
    DrainSplit(t, k, n);
    forall b | b in done
      ensures b.rows != [] && b.End() <= t.committedUso && AllCommitted(b, t.committedTxnId)
    {
      assert b in t.pending && b in Chain(t);
      assert Gated(b, t.committedUso, t.committedTxnId, t.openTxnId);
    }
    forall b | b in Chain(n)
      ensures WellFormed(b, n.capacity) && Gated(b, n.committedUso, n.committedTxnId, n.openTxnId)
    {
      assert b in Chain(t);
    }
    forall b | b in n.pending ensures b.rows != [] {
      assert b in t.pending;
    }
  }

  /** When a transaction id moved, commit hands to the sink exactly the oldest pending
      blocks that are wholly committed, in order and without gaps; when neither moved it
      hands over nothing. Either way it keeps the invariant. */
  lemma CommitPreserves(s: Stream, lastCommittedTxnId: int, currentTxnId: int)
    requires Inv(s) && s.openTxnId <= currentTxnId
    ensures var c := Commit(s, lastCommittedTxnId, currentTxnId);
      && Inv(c.next)
      && c.next.uso == s.uso && c.next.open == s.open && c.next.capacity == s.capacity
      && c.next.generation == s.generation && c.next.signature == s.signature
      && c.next.openTxnId == currentTxnId
      && s.committedTxnId <= c.next.committedTxnId && s.committedUso <= c.next.committedUso
      && Delivered(c.notices) + c.next.pending == s.pending
      && Rows(Delivered(c.notices)) + Rows(Chain(c.next)) == Rows(Chain(s))
      && Contiguous(Delivered(c.notices), Base(s))
      && Base(c.next) == Base(s) + TotalBytes(Delivered(c.notices))
      && (forall b | b in Delivered(c.notices) ::
            b.rows != [] && b.End() <= c.next.committedUso && AllCommitted(b, c.next.committedTxnId))
      && (forall n | n in c.notices :: n.Deliver? && n.signature == s.signature)
      && (!(currentTxnId == s.openTxnId && lastCommittedTxnId == s.committedTxnId) ==>
            CommittedPrefix(c.next.pending, c.next.committedUso) == 0)
  {
    CommitInvariant(s, lastCommittedTxnId, currentTxnId);
    if !(currentTxnId == s.openTxnId && lastCommittedTxnId == s.committedTxnId) {
      CommitStopsAtUncommitted(s, lastCommittedTxnId, currentTxnId);
    }
  }

  /** commit keeps the invariant and hands over, in order and without gaps, only
      pending blocks that are wholly committed. */
  lemma CommitInvariant(s: Stream, lastCommittedTxnId: int, currentTxnId: int)
    requires Inv(s) && s.openTxnId <= currentTxnId
    ensures var c := Commit(s, lastCommittedTxnId, currentTxnId);
      && Inv(c.next)
      && c.next.uso == s.uso && c.next.open == s.open && c.next.capacity == s.capacity
      && c.next.generation == s.generation && c.next.signature == s.signature
      && c.next.openTxnId == currentTxnId
      && s.committedTxnId <= c.next.committedTxnId && s.committedUso <= c.next.committedUso
      && Delivered(c.notices) + c.next.pending == s.pending
      && Rows(Delivered(c.notices)) + Rows(Chain(c.next)) == Rows(Chain(s))
      && Contiguous(Delivered(c.notices), Base(s))
      && Base(c.next) == Base(s) + TotalBytes(Delivered(c.notices))
      && (forall b | b in Delivered(c.notices) ::
            b.rows != [] && b.End() <= c.next.committedUso && AllCommitted(b, c.next.committedTxnId))
      && (forall n | n in c.notices :: n.Deliver? && n.signature == s.signature)
  {
    if currentTxnId == s.openTxnId && lastCommittedTxnId == s.committedTxnId {
      assert Delivered([]) == [];
    } else {
      CommitKeepsState(s, lastCommittedTxnId, currentTxnId);
      CommitDeliversHead(s, lastCommittedTxnId, currentTxnId);
      CommitOnlyDelivers(s, lastCommittedTxnId, currentTxnId);
    }
  }

  /** Once a transaction id moved, the first block left in the queue is not wholly
      committed. */
  lemma CommitStopsAtUncommitted(s: Stream, lastCommittedTxnId: int, currentTxnId: int)
    requires !(currentTxnId == s.openTxnId && lastCommittedTxnId == s.committedTxnId)
    ensures var c := Commit(s, lastCommittedTxnId, currentTxnId);
      && (c.next.pending != [] ==> c.next.committedUso < c.next.pending[0].End())
      && CommittedPrefix(c.next.pending, c.next.committedUso) == 0
  {
    var t := AdvanceCommit(s, lastCommittedTxnId, currentTxnId);
    var k := CommittedPrefix(t.pending, t.committedUso);
    assert Commit(s, lastCommittedTxnId, currentTxnId).next == t.(pending := t.pending[k..]);
  }

  /** The state half of a commit that advances: invariant, offsets and identities. */
  lemma CommitKeepsState(s: Stream, lastCommittedTxnId: int, currentTxnId: int)
    requires Inv(s) && s.openTxnId <= currentTxnId
    requires !(currentTxnId == s.openTxnId && lastCommittedTxnId == s.committedTxnId)
    ensures var c := Commit(s, lastCommittedTxnId, currentTxnId);
      && Inv(c.next)
      && c.next.uso == s.uso && c.next.open == s.open && c.next.capacity == s.capacity
      && c.next.generation == s.generation && c.next.signature == s.signature
      && c.next.openTxnId == currentTxnId
      && s.committedTxnId <= c.next.committedTxnId && s.committedUso <= c.next.committedUso
  {
    AdvanceCommitFacts(s, lastCommittedTxnId, currentTxnId);
    DrainPreserves(AdvanceCommit(s, lastCommittedTxnId, currentTxnId));
  }

  /** The delivery half of a commit that advances: the blocks handed over are the head
      of the queue, contiguous from the first byte the wrapper owned, and committed. */
  lemma CommitDeliversHead(s: Stream, lastCommittedTxnId: int, currentTxnId: int)
    requires Inv(s) && s.openTxnId <= currentTxnId
    requires !(currentTxnId == s.openTxnId && lastCommittedTxnId == s.committedTxnId)
    ensures var c := Commit(s, lastCommittedTxnId, currentTxnId);
      && Delivered(c.notices) + c.next.pending == s.pending
      && Rows(Delivered(c.notices)) + Rows(Chain(c.next)) == Rows(Chain(s))
      && Contiguous(Delivered(c.notices), Base(s))
      && Base(c.next) == Base(s) + TotalBytes(Delivered(c.notices))
      && (forall b | b in Delivered(c.notices) ::
            b.rows != [] && b.End() <= c.next.committedUso && AllCommitted(b, c.next.committedTxnId))
  {
    var t := AdvanceCommit(s, lastCommittedTxnId, currentTxnId);
    var k := CommittedPrefix(t.pending, t.committedUso);
    assert Inv(t) && t.pending == s.pending && t.open == s.open && t.signature == s.signature by {
      AdvanceCommitFacts(s, lastCommittedTxnId, currentTxnId);
    }
    assert Chain(t) == Chain(s) && Base(t) == Base(s);
    var c := Commit(s, lastCommittedTxnId, currentTxnId);
    DrainedHead(t, k, c.next, c.notices);
  }

  /** The drain of a commit over explicit values: the notices deliver the committed head
      of the queue, which leaves it. */
  lemma DrainedHead(t: Stream, k: nat, next: Stream, notices: seq<Notice>)
    requires Inv(t) && k == CommittedPrefix(t.pending, t.committedUso)
    requires next == t.(pending := t.pending[k..]) && notices == DeliverAll(t.pending[..k], t.signature)
    ensures && Delivered(notices) + next.pending == t.pending
      && Rows(Delivered(notices)) + Rows(Chain(next)) == Rows(Chain(t))
      && Contiguous(Delivered(notices), Base(t))
      && Base(next) == Base(t) + TotalBytes(Delivered(notices))
      && (forall b | b in Delivered(notices) ::
            b.rows != [] && b.End() <= next.committedUso && AllCommitted(b, next.committedTxnId))
  {
    DeliveredAll(t.pending[..k], t.signature);
    DrainPreserves(t);
  }

  /** Every notice of a commit delivers a block under the current signature. */
  lemma CommitOnlyDelivers(s: Stream, lastCommittedTxnId: int, currentTxnId: int)
    ensures var c := Commit(s, lastCommittedTxnId, currentTxnId);
      forall n | n in c.notices :: n.Deliver? && n.signature == s.signature
  {
    var c := Commit(s, lastCommittedTxnId, currentTxnId);
    forall n | n in c.notices ensures n.Deliver? && n.signature == s.signature {
      var i :| 0 <= i < |c.notices| && c.notices[i] == n;
    }
  }

  /** Switching generation touches neither the blocks nor the watermarks; the only
      notice it can produce is the end of the previous generation. */
  lemma SetGenerationPreserves(s: Stream, signature: string, generation: int)
    requires Inv(s)
    ensures var g := SetSignatureAndGeneration(s, signature, generation);
      && Inv(g.next) && Chain(g.next) == Chain(s) && Base(g.next) == Base(s)
      && g.next.generation == generation && g.next.signature == signature
      && Delivered(g.notices) == []
      && (g.notices != [] <==> s.generation != NoGeneration && generation != s.generation)
  {
    var g := SetSignatureAndGeneration(s, signature, generation);
    if g.notices != [] {
      assert Delivered(g.notices) == Delivered([]) + [];
    }
  }

  /** Writing one row into an open block with room for it, as the open transaction,
      appends exactly that row to the stream and keeps the invariant. */
  lemma WritePreserves(t: Stream, txnId: int)
    requires Inv(t) && t.openTxnId == txnId && t.open.Remaining() >= RowSize
    requires t.open.rows == [] || t.open.generationId == t.generation
    ensures var w := Write(t, txnId);
      && Inv(w) && Base(w) == Base(t) && w.pending == t.pending
      && Rows(Chain(w)) == Rows(Chain(t)) + [Row(txnId, t.generation)]
  {
    var w := Write(t, txnId);
    assert Chain(w) == t.pending + [w.open];
    assert Base(w) == Base(t);
    WriteChain(t, w.open);
    WriteBlocks(t, txnId);
  }

  /** Replacing the open block by one at the same offset keeps the chain contiguous and
      puts the new block's rows after the queued ones. */
  lemma WriteChain(t: Stream, open: StreamBlock)
    requires Inv(t) && open.uso == t.open.uso
    ensures Contiguous(t.pending + [open], Base(t))
    ensures Rows(t.pending + [open]) == Rows(t.pending) + open.rows
    ensures Rows(Chain(t)) == Rows(t.pending) + t.open.rows
  {
    ChainFacts(t);
    ContiguousSnoc(t.pending, open, Base(t));
    RowsSnoc(t.pending, t.open);
  }

  /** After a write, every block of the chain is still well formed and gated. */
  lemma WriteBlocks(t: Stream, txnId: int)
    requires Inv(t) && t.openTxnId == txnId && t.open.Remaining() >= RowSize
    requires t.open.rows == [] || t.open.generationId == t.generation
    ensures var w := Write(t, txnId);
      forall b | b in Chain(w) :: WellFormed(b, w.capacity) && Gated(b, w.committedUso, w.committedTxnId, w.openTxnId)
  {
    var w := Write(t, txnId);
    assert t.open in Chain(t);
    assert t.committedUso <= t.open.End();
    WriteBlock(t.open, t.capacity, t.committedUso, t.committedTxnId, txnId, t.generation);
    forall b | b in Chain(w)
      ensures WellFormed(b, w.capacity) && Gated(b, w.committedUso, w.committedTxnId, w.openTxnId)
    {
      if b != w.open { assert b in t.pending; assert b in Chain(t); }
    }
  }

  /** Writing a row of the open transaction at the end of a block with room for it
      keeps the block well formed and its rows on the right side of the commit line. */
  lemma WriteBlock(b: StreamBlock, capacity: nat, committedUso: nat, committedTxnId: int, txnId: int, generation: int)
    requires WellFormed(b, capacity) && Gated(b, committedUso, committedTxnId, txnId)
    requires b.Remaining() >= RowSize && committedUso <= b.End()
    requires b.rows == [] || b.generationId == generation
    ensures var nb := b.(rows := b.rows + [Row(txnId, generation)], generationId := generation);
      && WellFormed(nb, capacity) && Gated(nb, committedUso, committedTxnId, txnId)
      && nb.End() == b.End() + RowSize
  {
    var nb := b.(rows := b.rows + [Row(txnId, generation)], generationId := generation);
    assert nb.Offset() == b.Offset() + RowSize;
    forall j | 0 <= j < |nb.rows|
      ensures if nb.uso + RowSize * j < committedUso then nb.rows[j].txnId <= committedTxnId
              else nb.rows[j].txnId == txnId
    {
      if j < |b.rows| {
        assert nb.rows[j] == b.rows[j];
      } else {
        assert nb.uso + RowSize * j == b.End();
      }
    }
  }

  /** Preparing for an append loses no row and leaves an open block with room for a
      row of the active generation. */
  lemma PreparePreserves(s: Stream, generationId: int)
    requires Inv(s) && RowSize <= s.capacity
    ensures var p := PrepareAppend(s, generationId);
      && Inv(p.next) && Rows(Chain(p.next)) == Rows(Chain(s)) && Base(p.next) == Base(s)
      && p.next.uso == s.uso && p.next.openTxnId == s.openTxnId
      && p.next.committedTxnId == s.committedTxnId
      && p.next.signature == s.signature && p.next.capacity == s.capacity
      && p.next.generation == EffectiveGeneration(s, generationId)
      && Delivered(p.notices) == []
      && p.next.open.Remaining() >= RowSize
      && (p.next.open.rows == [] || p.next.open.generationId == p.next.generation)
  {
    var g := if generationId > s.generation
             then SetSignatureAndGeneration(s, s.signature, generationId) else Step(s, []);
    assert Inv(g.next) && Rows(Chain(g.next)) == Rows(Chain(s)) && Base(g.next) == Base(s)
        && Delivered(g.notices) == [] && g.next.generation == EffectiveGeneration(s, generationId) by {
      if generationId > s.generation { SetGenerationPreserves(s, s.signature, generationId); }
    }
    var s1 := if g.next.open.rows != [] && g.next.open.generationId != g.next.generation
              then Extend(g.next) else g.next;
    assert Inv(s1) && Rows(Chain(s1)) == Rows(Chain(s)) && Base(s1) == Base(s) by {
      if s1 != g.next { ExtendPreserves(g.next); }
    }
    var s2 := if s1.open.Remaining() < RowSize then Extend(s1) else s1;
    assert Inv(s2) && Rows(Chain(s2)) == Rows(Chain(s)) && Base(s2) == Base(s) by {
      if s2 != s1 { ExtendPreserves(s1); }
    }
  }

  /** appendTuple keeps the invariant; the row lands at the end of the stream under the
      effective generation; every block it finalises and hands over is fully committed
      and follows, without gap, what was handed over before. */
  lemma AppendPreserves(s: Stream, lastCommittedTxnId: int, txnId: int, generationId: int)
    requires Inv(s) && s.openTxnId <= txnId && RowSize <= s.capacity
    ensures AppendTuple(s, lastCommittedTxnId, txnId, generationId).Success?
    ensures var st := AppendTuple(s, lastCommittedTxnId, txnId, generationId).value;
      var n := st.next;
      var delivered := Delivered(st.notices);
      && Inv(n)
      && n.uso == s.uso + RowSize && n.committedUso <= s.uso
      && n.signature == s.signature && n.capacity == s.capacity
      && n.openTxnId == txnId && s.committedTxnId <= n.committedTxnId
      && n.generation == EffectiveGeneration(s, generationId)
      && Rows(delivered) + Rows(Chain(n)) == Rows(Chain(s)) + [Row(txnId, n.generation)]
      && Contiguous(delivered, Base(s))
      && Base(n) == Base(s) + TotalBytes(delivered)
      && (forall b | b in delivered :: b.rows != [] && AllCommitted(b, n.committedTxnId))
  {
    var p := PrepareAppend(s, generationId);
    PreparePreserves(s, generationId);
    var c := Commit(p.next, lastCommittedTxnId, txnId);
    CommitInvariant(p.next, lastCommittedTxnId, txnId);
    AppendComposes(s, p.next, p.notices, c.next, c.notices, txnId, generationId);
  }

  /** appendTuple keeps the invariant, stated on its three stages. */
  lemma AppendValid(s: Stream, lastCommittedTxnId: int, txnId: int, generationId: int)
    requires Inv(s) && s.openTxnId <= txnId && RowSize <= s.capacity
    ensures Inv(Write(Commit(PrepareAppend(s, generationId).next, lastCommittedTxnId, txnId).next, txnId))
  {
    AppendPreserves(s, lastCommittedTxnId, txnId, generationId);
  }

  /** The three stages of appendTuple put together: what preparing and committing
      guarantee is enough for the write to land the row at the end of the stream. */
  lemma AppendComposes(s: Stream, prepared: Stream, prepNotices: seq<Notice>,
                       committed: Stream, commitNotices: seq<Notice>, txnId: int, generationId: int)
    requires Inv(s)
    requires && Inv(prepared) && Rows(Chain(prepared)) == Rows(Chain(s)) && Base(prepared) == Base(s)
             && prepared.uso == s.uso && prepared.committedTxnId == s.committedTxnId
             && prepared.signature == s.signature && prepared.capacity == s.capacity
             && prepared.generation == EffectiveGeneration(s, generationId)
             && Delivered(prepNotices) == []
             && prepared.open.Remaining() >= RowSize
             && (prepared.open.rows == [] || prepared.open.generationId == prepared.generation)
    requires var d := Delivered(commitNotices);
             && Inv(committed) && committed.openTxnId == txnId
             && committed.uso == prepared.uso && committed.open == prepared.open
             && committed.generation == prepared.generation
             && committed.signature == prepared.signature && committed.capacity == prepared.capacity
             && prepared.committedTxnId <= committed.committedTxnId
             && Rows(d) + Rows(Chain(committed)) == Rows(Chain(prepared))
             && Contiguous(d, Base(prepared))
             && Base(committed) == Base(prepared) + TotalBytes(d)
             && (forall b | b in d :: b.rows != [] && AllCommitted(b, committed.committedTxnId))
    ensures var n := Write(committed, txnId);
      var delivered := Delivered(prepNotices + commitNotices);
      && Inv(n)
      && n.uso == s.uso + RowSize && n.committedUso <= s.uso
      && n.signature == s.signature && n.capacity == s.capacity
      && n.openTxnId == txnId && s.committedTxnId <= n.committedTxnId
      && n.generation == EffectiveGeneration(s, generationId)
      && Rows(delivered) + Rows(Chain(n)) == Rows(Chain(s)) + [Row(txnId, n.generation)]
      && Contiguous(delivered, Base(s))
      && Base(n) == Base(s) + TotalBytes(delivered)
      && (forall b | b in delivered :: b.rows != [] && AllCommitted(b, n.committedTxnId))
  {
    var d := Delivered(commitNotices);
    var w := Write(committed, txnId);
    var row := Row(txnId, w.generation);
    assert Inv(w) && Base(w) == Base(committed) && Rows(Chain(w)) == Rows(Chain(committed)) + [row] by {
      WritePreserves(committed, txnId);
    }
    assert Delivered(prepNotices + commitNotices) == d by {
      DeliveredConcat(prepNotices, commitNotices);
    }
    assert Rows(d) + Rows(Chain(w)) == Rows(Chain(s)) + [row] by {
      ConcatAssoc(Rows(d), Rows(Chain(committed)), [row]);
    }
  }

  /** Where appendTuple puts the row: in the open block, unless that block already
      holds rows and either belongs to another generation or has no room left; then
      the block is finalised (when full it holds exactly capacity / RowSize rows) and
      the row starts a new block at the current offset. */
  lemma AppendPlacement(s: Stream, lastCommittedTxnId: int, txnId: int, generationId: int)
    requires Inv(s) && s.openTxnId <= txnId && RowSize <= s.capacity
    ensures var n := AppendTuple(s, lastCommittedTxnId, txnId, generationId).value.next;
      var g := EffectiveGeneration(s, generationId);
      var full := s.open.Remaining() < RowSize;
      var split := s.open.rows != [] && (s.open.generationId != g || full);
      && n.open.generationId == g
      && (split ==> n.open.uso == s.uso && n.open.rows == [Row(txnId, g)])
      && (!split ==> n.open.uso == s.open.uso && n.open.rows == s.open.rows + [Row(txnId, g)])
      && (full ==> |s.open.rows| == s.capacity / RowSize)
  {
    var p := PrepareAppend(s, generationId);
    PreparePlacement(s, generationId);
    var c := Commit(p.next, lastCommittedTxnId, txnId);
    assert c.next.open == p.next.open && c.next.generation == p.next.generation;
    if s.open.Remaining() < RowSize {
      assert s.open in Chain(s);
      FullBlockOffset(s.open);
    }
  }

  /** Where preparing for an append leaves the open block: a fresh one at the current
      offset when the old one holds rows of another generation or is full, otherwise
      the old one. */
  lemma PreparePlacement(s: Stream, generationId: int)
    requires Inv(s) && RowSize <= s.capacity
    ensures var p := PrepareAppend(s, generationId).next;
      var g := EffectiveGeneration(s, generationId);
      var split := s.open.rows != [] && (s.open.generationId != g || s.open.Remaining() < RowSize);
      && p.generation == g
      && (split ==> p.open == FreshBlock(s.uso, s.capacity))
      && (!split ==> p.open == s.open)
  {
    var g := if generationId > s.generation
             then SetSignatureAndGeneration(s, s.signature, generationId) else Step(s, []);
    assert g.next.open == s.open && g.next.uso == s.uso && g.next.capacity == s.capacity;
    if s.open.rows == [] {
      assert s.open in Chain(s);
      assert s.open.Remaining() == s.capacity;
    }
  }

  /** A forced periodicFlush finalises the open block, keeps the invariant, loses no
      row, and hands over only committed blocks that follow, without gap, what was
      handed over before. */
  lemma FlushPreserves(s: Stream, lastCommittedTxnId: int, currentTxnId: int)
    requires Inv(s) && s.openTxnId <= currentTxnId
    ensures PeriodicFlush(s, lastCommittedTxnId, currentTxnId).Success?
    ensures var st := PeriodicFlush(s, lastCommittedTxnId, currentTxnId).value;
      var n := st.next;
      var delivered := Delivered(st.notices);
      && Inv(n)
      && n.uso == s.uso && n.open == FreshBlock(s.uso, s.capacity)
      && n.openTxnId == currentTxnId && s.committedTxnId <= n.committedTxnId
      && Rows(delivered) + Rows(Chain(n)) == Rows(Chain(s))
      && Contiguous(delivered, Base(s))
      && Base(n) == Base(s) + TotalBytes(delivered)
      && (forall b | b in delivered :: b.rows != [] && AllCommitted(b, n.committedTxnId))
  {
    ExtendPreserves(s);
    CommitInvariant(Extend(s), lastCommittedTxnId, currentTxnId);
  }

  /** The commit inside a forced periodicFlush, once the open transaction is known to
      have committed: the committed offset reaches the current one, so the whole
      queue, which now ends with the block just finalised, is handed over. */
  lemma FlushCommitsAll(s: Stream, lastCommittedTxnId: int, currentTxnId: int)
    requires Inv(s) && s.openTxnId <= currentTxnId
    requires s.openTxnId < currentTxnId || (currentTxnId <= lastCommittedTxnId && s.committedTxnId < lastCommittedTxnId)
    ensures var e := Extend(s);
      var t := AdvanceCommit(e, lastCommittedTxnId, currentTxnId);
      && t.committedUso == s.uso && t.uso == s.uso && t.open == FreshBlock(s.uso, s.capacity)
      && Commit(e, lastCommittedTxnId, currentTxnId) == Step(t.(pending := []), DeliverAll(e.pending, s.signature))
  {
    var e := Extend(s);
    var t := AdvanceCommit(e, lastCommittedTxnId, currentTxnId);
    assert Inv(t) && t.pending == e.pending && t.committedUso == s.uso && t.signature == s.signature by {
      ExtendPreserves(s);
      AdvanceCommitFacts(e, lastCommittedTxnId, currentTxnId);
    }
    assert t.uso == s.uso by {
      AdvanceCommitFacts(e, lastCommittedTxnId, currentTxnId);
    }
    var k := CommittedPrefix(t.pending, t.committedUso);
    assert k == |t.pending| by {
      DrainsEverything(t);
    }
    assert t.pending[..k] == e.pending && t.pending[k..] == [];
  }

  /** Once everything written is committed, every pending block is ready to drain. */
  lemma DrainsEverything(t: Stream)
    requires Inv(t) && t.committedUso == t.uso
    ensures CommittedPrefix(t.pending, t.committedUso) == |t.pending|
  {
    ChainFacts(t);
    forall i | 0 <= i < |t.pending| ensures t.pending[i].End() <= t.committedUso {
      assert t.pending[i] in Chain(t);
    }
  }

  /** Once the open transaction is known to have committed, a forced periodicFlush
      hands every row the wrapper holds to the sink and leaves it holding one empty
      block at the current offset. */
  lemma FlushDeliversAll(s: Stream, lastCommittedTxnId: int, currentTxnId: int)
    requires Inv(s) && s.openTxnId <= currentTxnId
    requires s.openTxnId < currentTxnId || (currentTxnId <= lastCommittedTxnId && s.committedTxnId < lastCommittedTxnId)
    ensures var st := PeriodicFlush(s, lastCommittedTxnId, currentTxnId).value;
      && st.next.pending == [] && st.next.open == FreshBlock(s.uso, s.capacity)
      && st.next.committedUso == s.uso
      && st.notices == DeliverAll(Extend(s).pending, s.signature)
      && Rows(Delivered(st.notices)) == Rows(Chain(s))
  {
    var st := PeriodicFlush(s, lastCommittedTxnId, currentTxnId).value;
    assert && st.next.pending == [] && st.next.open == FreshBlock(s.uso, s.capacity)
           && st.next.committedUso == s.uso
           && st.notices == DeliverAll(Extend(s).pending, s.signature) by {
      FlushCommitsAll(s, lastCommittedTxnId, currentTxnId);
    }
    assert Rows(Delivered(st.notices)) + Rows(Chain(st.next)) == Rows(Chain(s)) by {
      FlushPreserves(s, lastCommittedTxnId, currentTxnId);
    }
    EmptyChainRows(st.next);
  }

  /** A wrapper holding only an empty open block holds no row. */
  lemma EmptyChainRows(n: Stream)
    requires n.pending == [] && n.open.rows == []
    ensures Rows(Chain(n)) == []
  {
    assert Chain(n) == [n.open];
    assert Rows(Chain(n)) == Rows([]) + [];
  }

  /** The wrapper cut at `mark` inside the `i`-th block it owns: the blocks before it
      stay pending, the cut block becomes the open one. */
  function CutAt(s: Stream, i: nat, mark: nat): Stream
    requires i < |Chain(s)| && Chain(s)[i].uso <= mark <= Chain(s)[i].End()
  {
    s.(uso := mark, pending := Chain(s)[..i], open := TruncateTo(Chain(s)[i], mark))
  }

  /** Cutting at a row boundary that is not inside committed data keeps the invariant
      and exactly the rows before the cut. */
  lemma CutPreserves(s: Stream, i: nat, mark: nat)
    requires Inv(s) && s.committedUso <= mark && mark % RowSize == 0
    requires i < |Chain(s)| && Chain(s)[i].uso <= mark <= Chain(s)[i].End()
    ensures Base(s) <= mark && (mark - Base(s)) / RowSize <= |Rows(Chain(s))|
    ensures var n := CutAt(s, i, mark);
      && Inv(n) && Base(n) == Base(s)
      && Rows(Chain(n)) == Rows(Chain(s))[..(mark - Base(s)) / RowSize]
  {
    var n := CutAt(s, i, mark);
    var bs := Chain(s);
    assert Chain(n) == bs[..i] + [TruncateTo(bs[i], mark)];
    assert Base(n) == Base(s) by {
      assert bs[..i] == s.pending[..i];
    }
    assert Base(s) % RowSize == 0 by {
      assert bs[0] in bs;
    }
    CutRun(bs, Base(s), i, mark);
    CutBlocks(s, i, mark);
  }

  /** A contiguous run cut at a row boundary inside its `i`-th block: still contiguous
      from the same start, holding the rows before the cut. */
  lemma CutRun(bs: seq<StreamBlock>, start: nat, i: nat, mark: nat)
    requires Contiguous(bs, start) && start % RowSize == 0 && mark % RowSize == 0
    requires i < |bs| && bs[i].uso <= mark <= bs[i].End()
    ensures start <= mark && (mark - start) / RowSize <= |Rows(bs)|
    ensures var cut := bs[..i] + [TruncateTo(bs[i], mark)];
      && Contiguous(cut, start)
      && Rows(cut) == Rows(bs)[..(mark - start) / RowSize]
  {
    ContiguousSuffix(bs, start, i);
    ContiguousSnoc(bs[..i], TruncateTo(bs[i], mark), start);
    TruncatedRows(bs, start, i, mark);
  }

  /** The blocks after a cut: the queued ones are still not empty, and every one is still
      well formed and gated. */
  lemma CutBlocks(s: Stream, i: nat, mark: nat)
    requires Inv(s) && s.committedUso <= mark && mark % RowSize == 0
    requires i < |Chain(s)| && Chain(s)[i].uso <= mark <= Chain(s)[i].End()
    ensures var n := CutAt(s, i, mark);
      && n.open.End() == n.uso
      && (forall b | b in n.pending :: b.rows != [])
      && (forall b | b in Chain(n) :: WellFormed(b, n.capacity) && Gated(b, n.committedUso, n.committedTxnId, n.openTxnId))
  {
    var bs := Chain(s);
    var n := CutAt(s, i, mark);
    var r := TruncateTo(bs[i], mark);
    assert bs[i] in bs;
    assert Chain(n) == bs[..i] + [r];
    assert r.End() == mark by {
      AlignedDifference(bs[i].uso, mark);
    }
    forall b | b in n.pending ensures b.rows != [] {
      assert b in s.pending;
    }
    forall b | b in Chain(n)
      ensures WellFormed(b, n.capacity) && Gated(b, n.committedUso, n.committedTxnId, n.openTxnId)
    {
      if b != r {
        assert b in bs;
      } else {
        assert forall j :: 0 <= j < |r.rows| ==> r.rows[j] == bs[i].rows[j];
      }
    }
  }

  /** rollbackTo a mark inside the open block cuts the open block there. */
  lemma RollbackInOpen(s: Stream, mark: nat)
    requires Inv(s) && s.committedUso <= mark <= s.uso && mark % RowSize == 0 && s.open.uso < mark
    ensures var i := |s.pending|;
      && i < |Chain(s)| && Chain(s)[i].uso <= mark <= Chain(s)[i].End()
      && RollbackTo(s, mark) == Success(CutAt(s, i, mark))
  {
    var bs := Chain(s);
    assert bs[|s.pending|] == s.open && s.open.End() == s.uso;
    assert bs[..|s.pending|] == s.pending;
  }

  /** The pending queue is adjacent and ends where the open block starts, so the
      rollback loop may run on it for a mark at or before that start. */
  lemma PendingEndsAtOpen(s: Stream, mark: nat)
    requires Inv(s) && mark <= s.open.uso
    ensures Adjacent(s.pending) && (s.pending != [] ==> mark <= s.pending[|s.pending| - 1].End())
  {
    ChainFacts(s);
  }

  /** The rollback loop reopened a pending block: the result is the cut at the mark. */
  lemma RollbackReopens(s: Stream, mark: nat, kept: seq<StreamBlock>, block: StreamBlock)
    requires Inv(s) && s.committedUso <= mark <= s.uso && mark % RowSize == 0 && mark <= s.open.uso
    requires Adjacent(s.pending) && (s.pending != [] ==> mark <= s.pending[|s.pending| - 1].End())
    requires (kept, block) == Unwind(s.pending, mark, s.capacity)
    requires |kept| < |s.pending| && kept == s.pending[..|kept|]
    requires s.pending[|kept|].uso < mark <= s.pending[|kept|].End() && block == TruncateTo(s.pending[|kept|], mark)
    ensures Chain(s)[|kept|].uso <= mark <= Chain(s)[|kept|].End()
    ensures RollbackTo(s, mark) == Success(CutAt(s, |kept|, mark))
  {
    var i := |kept|;
    assert Chain(s)[i] == s.pending[i] && Chain(s)[..i] == kept;
  }

  /** The rollback loop found no pending block starting before the mark: the mark is
      the first byte the wrapper owns and one fresh block is opened there. */
  lemma RollbackRestarts(s: Stream, mark: nat, kept: seq<StreamBlock>, block: StreamBlock)
    requires Inv(s) && s.committedUso <= mark <= s.uso && mark % RowSize == 0 && mark <= s.open.uso
    requires Adjacent(s.pending) && (s.pending != [] ==> mark <= s.pending[|s.pending| - 1].End())
    requires (kept, block) == Unwind(s.pending, mark, s.capacity)
    requires kept == [] && block == FreshBlock(mark, s.capacity)
    requires forall i :: 0 <= i < |s.pending| ==> mark <= s.pending[i].uso
    ensures mark == Base(s)
    ensures RollbackTo(s, mark) == Success(s.(uso := mark, pending := [], open := FreshBlock(mark, s.capacity)))
  {
    if s.pending != [] {
      assert mark <= s.pending[0].uso;
    }
  }

  /** What a rollback to `mark` must leave: the invariant, exactly the rows before the
      mark, and the watermarks, transaction, generation and signature untouched. */
  ghost predicate RolledBackTo(s: Stream, mark: nat, n: Stream) {
    && Base(s) <= mark && (mark - Base(s)) / RowSize <= |Rows(Chain(s))|
    && Inv(n) && n.uso == mark && Base(n) == Base(s)
    && Rows(Chain(n)) == Rows(Chain(s))[..(mark - Base(s)) / RowSize]
    && n.committedUso == s.committedUso && n.committedTxnId == s.committedTxnId
    && n.openTxnId == s.openTxnId && n.generation == s.generation
    && n.signature == s.signature && n.capacity == s.capacity
  }

  /** rollbackTo a row boundary in uncommitted data forgets exactly the rows at or
      after the mark: the wrapper keeps the invariant, the rows before the mark, its
      watermarks, transaction and generation, and nothing reaches the sink. */
  lemma RollbackPreserves(s: Stream, mark: nat)
    requires Inv(s) && s.committedUso <= mark <= s.uso && mark % RowSize == 0
    ensures Base(s) <= mark && (mark - Base(s)) / RowSize <= |Rows(Chain(s))|
    ensures var n := RollbackTo(s, mark).value;
      && Inv(n) && n.uso == mark && Base(n) == Base(s)
      && Rows(Chain(n)) == Rows(Chain(s))[..(mark - Base(s)) / RowSize]
      && n.committedUso == s.committedUso && n.committedTxnId == s.committedTxnId
      && n.openTxnId == s.openTxnId && n.generation == s.generation
      && n.signature == s.signature && n.capacity == s.capacity
  {
    if s.open.uso < mark {
      RollbackCutsOpen(s, mark);
    } else {
      PendingEndsAtOpen(s, mark);
      var u := Unwind(s.pending, mark, s.capacity);
      if |u.0| < |s.pending| && s.pending[|u.0|].uso < mark {
        RollbackCutsPending(s, mark);
      } else {
        RollbackRestartsAll(s, mark);
      }
    }
  }

  /** The rollback case of a mark inside the open block. */
  lemma RollbackCutsOpen(s: Stream, mark: nat)
    requires Inv(s) && s.committedUso <= mark <= s.uso && mark % RowSize == 0 && s.open.uso < mark
    ensures RollbackTo(s, mark).Success? && RolledBackTo(s, mark, RollbackTo(s, mark).value)
  {
    RollbackInOpen(s, mark);
    CutPreserves(s, |s.pending|, mark);
  }

  /** The rollback case of a mark inside a pending block. */
  lemma RollbackCutsPending(s: Stream, mark: nat)
    requires Inv(s) && s.committedUso <= mark <= s.uso && mark % RowSize == 0 && mark <= s.open.uso
    requires Adjacent(s.pending) && (s.pending != [] ==> mark <= s.pending[|s.pending| - 1].End())
    requires var u := Unwind(s.pending, mark, s.capacity);
      |u.0| < |s.pending| && s.pending[|u.0|].uso < mark
    ensures RollbackTo(s, mark).Success? && RolledBackTo(s, mark, RollbackTo(s, mark).value)
  {
    UnwindShape(s.pending, mark, s.capacity);
    var u := Unwind(s.pending, mark, s.capacity);
    RollbackReopens(s, mark, u.0, u.1);
    CutPreserves(s, |u.0|, mark);
  }

  /** The rollback case of a mark at the first byte the wrapper owns. */
  lemma RollbackRestartsAll(s: Stream, mark: nat)
    requires Inv(s) && s.committedUso <= mark <= s.uso && mark % RowSize == 0 && mark <= s.open.uso
    requires Adjacent(s.pending) && (s.pending != [] ==> mark <= s.pending[|s.pending| - 1].End())
    requires var u := Unwind(s.pending, mark, s.capacity);
      !(|u.0| < |s.pending| && s.pending[|u.0|].uso < mark)
    ensures RollbackTo(s, mark).Success? && RolledBackTo(s, mark, RollbackTo(s, mark).value)
  {
    UnwindShape(s.pending, mark, s.capacity);
    var u := Unwind(s.pending, mark, s.capacity);
    RollbackRestarts(s, mark, u.0, u.1);
    RestartPreserves(s);
  }

  /** Rolling back to the first byte the wrapper owns leaves one empty block there. */
  lemma RestartPreserves(s: Stream)
    requires Inv(s) && s.committedUso == Base(s)
    ensures var n := s.(uso := Base(s), pending := [], open := FreshBlock(Base(s), s.capacity));
      && Inv(n) && Base(n) == Base(s) && Rows(Chain(n)) == []
  {
    var f := FreshBlock(Base(s), s.capacity);
    var n := s.(uso := Base(s), pending := [], open := f);
    assert WellFormed(f, s.capacity) by {
      assert Chain(s)[0] in Chain(s);
    }
    assert Chain(n) == [f];
    assert Inv(n);
    assert Rows(Chain(n)) == [] by {
      assert Rows([f]) == Rows([]) + [];
    }
  }

  /** The wrapper's offset is always on a row boundary. */
  lemma UsoAligned(s: Stream)
    requires Inv(s)
    ensures s.uso % RowSize == 0
  {
    assert s.open in Chain(s);
    MultipleOfRowSize(s.open.uso, |s.open.rows|);
  }

  /** Bytes that one more row would make into `k` rows are `k - 1` rows. */
  lemma OneRowMore(x: nat, k: nat)
    requires x + RowSize == RowSize * k
    ensures 1 <= k && x / RowSize == k - 1
  {
    assert x == RowSize * (k - 1);
    WholeRows(k - 1);
  }

  /** The rows the wrapper holds fill exactly the bytes from its base to its offset. */
  lemma RowCount(s: Stream)
    requires Inv(s)
    ensures RowSize * |Rows(Chain(s))| == s.uso - Base(s)
  {
    ChainFacts(s);
    TotalBytesIsRows(Chain(s));
  }

  /** Rolling back to the offset an append started at takes back exactly that row:
      what was handed to the sink meanwhile, followed by what the wrapper holds, is
      the stream as it was before the append. */
  lemma RollbackUndoesAppend(s: Stream, lastCommittedTxnId: int, txnId: int, generationId: int)
    requires Inv(s) && s.openTxnId <= txnId && RowSize <= s.capacity
    ensures var st := AppendTuple(s, lastCommittedTxnId, txnId, generationId).value;
      && Inv(st.next)
      && RollbackTo(st.next, s.uso).Success?
      && RollbackTo(st.next, s.uso).value.uso == s.uso
      && Rows(Delivered(st.notices)) + Rows(Chain(RollbackTo(st.next, s.uso).value)) == Rows(Chain(s))
  {
    AppendPreserves(s, lastCommittedTxnId, txnId, generationId);
    var st := AppendTuple(s, lastCommittedTxnId, txnId, generationId).value;
    RollbackForgetsRow(s, st.next, Rows(Delivered(st.notices)), Row(txnId, st.next.generation));
  }

  /** If a stream n holds one row more than s, after some delivered rows d, rolling n
      back to the end of s leaves d followed by what remains exactly the rows of s. */
  lemma RollbackForgetsRow(s: Stream, n: Stream, d: seq<Row>, row: Row)
    requires Inv(s) && Inv(n) && n.uso == s.uso + RowSize && n.committedUso <= s.uso
    requires d + Rows(Chain(n)) == Rows(Chain(s)) + [row]
    ensures var r := RollbackTo(n, s.uso);
      && r.Success? && r.value.uso == s.uso
      && d + Rows(Chain(r.value)) == Rows(Chain(s))
  {
    UsoAligned(s);
    RollbackDropsLastRow(n, s.uso);
    DropLast(d, Rows(Chain(n)), Rows(Chain(s)), row);
  }

  /** Rolling back to one row before the end of a stream forgets exactly its last row. */
  lemma RollbackDropsLastRow(n: Stream, mark: nat)
    requires Inv(n) && n.committedUso <= mark && n.uso == mark + RowSize && mark % RowSize == 0
    ensures 1 <= |Rows(Chain(n))|
    ensures var r := RollbackTo(n, mark);
      && r.Success? && r.value.uso == mark
      && Rows(Chain(r.value)) == Rows(Chain(n))[..|Rows(Chain(n))| - 1]
  {
    var kept := Rows(Chain(n));
    assert 1 <= |kept| && (mark - Base(n)) / RowSize == |kept| - 1 by {
      RowCount(n);
      OneRowMore(mark - Base(n), |kept|);
    }
    RollbackPreserves(n, mark);
  }

  /** Taking the last element off both sides of an append. */
  lemma DropLast<T>(d: seq<T>, kept: seq<T>, whole: seq<T>, x: T)
    requires d + kept == whole + [x] && 1 <= |kept|
    ensures d + kept[..|kept| - 1] == whole
  {
    assert (d + kept)[..|d + kept| - 1] == d + kept[..|kept| - 1];
    assert (whole + [x])[..|whole|] == whole;
  }

  /** setDefaultCapacity succeeds only on an untouched wrapper, so the buffers it
      replaces held no row; afterwards there is one empty block of the new capacity. */
  lemma SetCapacityPreserves(s: Stream, capacity: nat)
    requires Inv(s)
    ensures SetDefaultCapacity(s, capacity).Success? ==>
      var n := SetDefaultCapacity(s, capacity).value;
      && Rows(Chain(s)) == []
      && Inv(n) && n.capacity == capacity && n.uso == 0 && Chain(n) == [FreshBlock(0, capacity)]
  {
    if SetDefaultCapacity(s, capacity).Success? {
      var n := SetDefaultCapacity(s, capacity).value;
      assert Rows(Chain(s)) == [] by {
        RowCount(s);
      }
      FreshStream(n);
    }
  }

  /** A wrapper holding one empty block at offset 0, with nothing committed, keeps the
      invariant. */
  lemma FreshStream(n: Stream)
    requires n.uso == 0 && n.committedUso == 0 && n.committedTxnId <= n.openTxnId
    requires n.pending == [] && n.open == FreshBlock(0, n.capacity)
    ensures Inv(n) && Chain(n) == [FreshBlock(0, n.capacity)]
  {
    assert Chain(n) == [FreshBlock(0, n.capacity)];
    assert Base(n) == 0 && n.open.End() == n.uso;
    forall b | b in Chain(n)
      ensures WellFormed(b, n.capacity) && Gated(b, n.committedUso, n.committedTxnId, n.openTxnId)
    {
      assert b == FreshBlock(0, n.capacity);
    }
  }

  /** The notice an append hands over when its generation argument is newer than the
      active generation, if one was set. */
  function EndNotice(s: Stream, generationId: int): seq<Notice> {
    if generationId > s.generation && s.generation != NoGeneration
    then [EndOfGeneration(s.generation, s.signature)] else []
  }

  /** Whether an append finalises the open block before writing. */
  predicate Splits(s: Stream, generationId: int) {
    s.open.rows != [] && (s.open.generationId != EffectiveGeneration(s, generationId) || s.open.Remaining() < RowSize)
  }

  /** What preparing for an append does to the queue and the notices. */
  lemma PrepareFacts(s: Stream, generationId: int)
    requires RowSize <= s.capacity
    ensures var p := PrepareAppend(s, generationId);
      && p.notices == EndNotice(s, generationId)
      && p.next.pending == s.pending + (if Splits(s, generationId) then [s.open] else [])
      && p.next.uso == s.uso && p.next.signature == s.signature
      && p.next.openTxnId == s.openTxnId && p.next.committedTxnId == s.committedTxnId
      && p.next.committedUso == s.committedUso
  {
  }

  /** An append by a newer transaction commits everything written before it: every
      pending block, and the open block when the append finalises it, goes to the sink
      in order. */
  lemma AppendNewTxn(s: Stream, lastCommittedTxnId: int, txnId: int, generationId: int)
    requires Inv(s) && s.openTxnId < txnId && RowSize <= s.capacity
    ensures var st := AppendTuple(s, lastCommittedTxnId, txnId, generationId).value;
      && st.notices == EndNotice(s, generationId)
                       + DeliverAll(s.pending + (if Splits(s, generationId) then [s.open] else []), s.signature)
      && st.next.pending == []
      && st.next.committedUso == s.uso
      && st.next.committedTxnId == (if txnId <= lastCommittedTxnId then txnId else s.openTxnId)
  {
    var p := PrepareAppend(s, generationId);
    PrepareFacts(s, generationId);
    var t := AdvanceCommit(p.next, lastCommittedTxnId, txnId);
    assert t.committedUso == s.uso && t.pending == p.next.pending;
    var k := CommittedPrefix(t.pending, t.committedUso);
    assert k == |t.pending| by {
      ChainFacts(s);
      forall i | 0 <= i < |t.pending| ensures t.pending[i].End() <= t.committedUso {
        assert t.pending[i] in Chain(s);
      }
    }
    var c := Commit(p.next, lastCommittedTxnId, txnId);
    assert c == Step(t.(pending := []), DeliverAll(t.pending, s.signature));
  }

  /** While the committed offset sits at the start of the chain, no queued block (the
      pending ones, possibly followed by a finalised open block) is wholly committed. */
  lemma NoneCommitted(s: Stream, q: seq<StreamBlock>)
    requires Inv(s) && s.committedUso == Base(s)
    requires q == s.pending || (q == s.pending + [s.open] && s.open.rows != [])
    ensures CommittedPrefix(q, s.committedUso) == 0
  {
    if q != [] {
      if s.pending != [] {
        assert q[0] == s.pending[0] && q[0] in s.pending && q[0].uso == Base(s);
      } else {
        assert q[0] == s.open && s.open.uso == Base(s);
      }
      assert q[0].rows != [];
    }
  }

  /** A commit on behalf of the open transaction, when no last-committed id reaches it
      and no queued block is wholly committed, changes nothing and hands nothing over. */
  lemma CommitIdle(t: Stream, lastCommittedTxnId: int, txnId: int)
    requires t.openTxnId == txnId && lastCommittedTxnId < txnId
    requires CommittedPrefix(t.pending, t.committedUso) == 0
    ensures Commit(t, lastCommittedTxnId, txnId) == Step(t, [])
  {
    assert AdvanceCommit(t, lastCommittedTxnId, txnId) == t;
    assert t.pending[..0] == [] && t.pending[0..] == t.pending;
  }

  /** An append by the open transaction, while it is not yet known to have committed
      and nothing written since the last delivery is committed, hands over no block: a
      block it finalises joins the pending queue. */
  lemma AppendOpenTxn(s: Stream, lastCommittedTxnId: int, txnId: int, generationId: int)
    requires Inv(s) && s.openTxnId == txnId && lastCommittedTxnId < txnId && RowSize <= s.capacity
    requires s.committedUso == Base(s)
    ensures var st := AppendTuple(s, lastCommittedTxnId, txnId, generationId).value;
      && st.notices == EndNotice(s, generationId)
      && st.next.pending == s.pending + (if Splits(s, generationId) then [s.open] else [])
      && st.next.committedUso == s.committedUso && st.next.committedTxnId == s.committedTxnId
  {
    var p := PrepareAppend(s, generationId);
    PrepareFacts(s, generationId);
    NoneCommitted(s, p.next.pending);
    CommitIdle(p.next, lastCommittedTxnId, txnId);
    var st := AppendTuple(s, lastCommittedTxnId, txnId, generationId).value;
    assert st == Step(Write(p.next, txnId), p.notices + []);
  }
}
