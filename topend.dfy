/** The downstream sink that finalised blocks are handed to, as the test suite's
    DummyTopend records them. */
module Topend {
  import opened Wrappers
  import opened StreamBlocks

  /** One call of pushExportBuffer: a block (or none, for a bare end-of-stream notice)
      with the generation, partition, signature and column names it belongs to. */
  datatype Push = Push(generation: int, partitionId: int, signature: string,
                       columnNames: seq<string>, block: Option<StreamBlock>,
                       sync: bool, endOfStream: bool)

  /** What the recorder has seen: its queues, the blocks it still holds, the column
      names it was given and its two flags. */
  datatype SinkState = SinkState(partitionIds: seq<int>, signatures: seq<string>,
                                 blocks: seq<StreamBlock>, columnNames: seq<string>,
                                 receivedExportBuffer: bool, receivedEndOfStream: bool)

  const EmptySink := SinkState([], [], [], [], false, false)

  /** The effect of one pushExportBuffer call on the recorder. */
  function Receive(s: SinkState, p: Push): (r: SinkState)
    ensures r.partitionIds == s.partitionIds + [p.partitionId] && r.signatures == s.signatures + [p.signature]
    ensures r.blocks == s.blocks + (if p.block.Some? then [p.block.value] else [])
    ensures r.columnNames == s.columnNames + p.columnNames
    ensures r.receivedExportBuffer
    ensures r.receivedEndOfStream <==> s.receivedEndOfStream || p.endOfStream
  {
    SinkState(s.partitionIds + [p.partitionId],
              s.signatures + [p.signature],
              if p.block.Some? then s.blocks + [p.block.value] else s.blocks,
              s.columnNames + p.columnNames,
              true,
              s.receivedEndOfStream || p.endOfStream)
  }

  /** The blocks carried by a sequence of pushes, in order. */
  function PushedBlocks(ps: seq<Push>): seq<StreamBlock> {
    if ps == [] then []
    else PushedBlocks(ps[..|ps| - 1]) + (if ps[|ps| - 1].block.Some? then [ps[|ps| - 1].block.value] else [])
  }

  /** The column names carried by a sequence of pushes, in order. */
  function PushedColumnNames(ps: seq<Push>): seq<string> {
    if ps == [] then [] else PushedColumnNames(ps[..|ps| - 1]) + ps[|ps| - 1].columnNames
  }

  /** The effect of a sequence of pushes, in order. */
  function ReceiveAll(s: SinkState, ps: seq<Push>): (r: SinkState)
    ensures |r.partitionIds| == |s.partitionIds| + |ps| && |r.signatures| == |s.signatures| + |ps|
    ensures |s.blocks| <= |r.blocks| <= |s.blocks| + |ps|
    ensures ps == [] ==> r == s
    decreases |ps|
  {
    if ps == [] then s else Receive(ReceiveAll(s, ps[..|ps| - 1]), ps[|ps| - 1])
  }

  /** After a sequence of pushes the recorder holds what it held plus every pushed
      block, and the column names of every push, in order. */
  lemma {:induction false} ReceiveAllContents(s: SinkState, ps: seq<Push>)
    ensures ReceiveAll(s, ps).blocks == s.blocks + PushedBlocks(ps)
    ensures ReceiveAll(s, ps).columnNames == s.columnNames + PushedColumnNames(ps)
    decreases |ps|
  {
    if ps != [] {
      var init := ps[..|ps| - 1];
      ReceiveAllContents(s, init);
      var r0 := ReceiveAll(s, init);
      var p := ps[|ps| - 1];
      ConcatAssoc(s.blocks, PushedBlocks(init), if p.block.Some? then [p.block.value] else []);
      ConcatAssoc(s.columnNames, PushedColumnNames(init), p.columnNames);
    }
  }

  /** After a sequence of pushes the recorder has queued every push's partition and
      signature, in order. */
  lemma {:induction false} ReceiveAllQueues(s: SinkState, ps: seq<Push>)
    ensures ReceiveAll(s, ps).partitionIds == s.partitionIds + seq(|ps|, i requires 0 <= i < |ps| => ps[i].partitionId)
    ensures ReceiveAll(s, ps).signatures == s.signatures + seq(|ps|, i requires 0 <= i < |ps| => ps[i].signature)
    decreases |ps|
  {
    if ps != [] {
      var init := ps[..|ps| - 1];
      ReceiveAllQueues(s, init);
      var r := ReceiveAll(s, ps);
      assert r.partitionIds == ReceiveAll(s, init).partitionIds + [ps[|ps| - 1].partitionId];
      assert r.partitionIds == s.partitionIds + seq(|ps|, i requires 0 <= i < |ps| => ps[i].partitionId);
      assert r.signatures == ReceiveAll(s, init).signatures + [ps[|ps| - 1].signature];
      assert r.signatures == s.signatures + seq(|ps|, i requires 0 <= i < |ps| => ps[i].signature);
    }
  }

  /** After a sequence of pushes the push flag says whether anything came, and the
      end-of-stream flag whether any push, now or before, was an end of stream. */
  lemma {:induction false} ReceiveAllFlags(s: SinkState, ps: seq<Push>)
    ensures ReceiveAll(s, ps).receivedExportBuffer == (s.receivedExportBuffer || ps != [])
    ensures ReceiveAll(s, ps).receivedEndOfStream == (s.receivedEndOfStream || exists i :: 0 <= i < |ps| && ps[i].endOfStream)
    decreases |ps|
  {
    if ps != [] {
      var init := ps[..|ps| - 1];
      ReceiveAllFlags(s, init);
      assert forall i :: 0 <= i < |init| ==> init[i] == ps[i];
      if ps[|ps| - 1].endOfStream {
        assert exists i :: 0 <= i < |ps| && ps[i].endOfStream;
      }
    }
  }

  /** Pushing two batches one after the other is pushing their concatenation. */
  lemma {:induction false} ReceiveAllConcat(s: SinkState, a: seq<Push>, b: seq<Push>)
    ensures ReceiveAll(s, a + b) == ReceiveAll(ReceiveAll(s, a), b)
    decreases |b|
  {
    if b == [] {
      assert a + b == a;
    } else {
      assert (a + b)[..|a + b| - 1] == a + b[..|b| - 1];
      ReceiveAllConcat(s, a, b[..|b| - 1]);
    }
  }

  /** DummyTopend: records every push and keeps the blocks until the test drops them. */
  class DummyTopend {
    var partitionIds: seq<int>
    var signatures: seq<string>
    var blocks: seq<StreamBlock>
    var columnNames: seq<string>
    var receivedExportBuffer: bool
    var receivedEndOfStream: bool

    function State(): SinkState
      reads this
    {
      SinkState(partitionIds, signatures, blocks, columnNames, receivedExportBuffer, receivedEndOfStream)
    }

    constructor ()
      ensures State() == EmptySink
    {
      partitionIds, signatures, blocks, columnNames := [], [], [], [];
      receivedExportBuffer, receivedEndOfStream := false, false;
    }

    /** getQueuedExportBytes: the bytes of every block the recorder still holds. */
    method GetQueuedExportBytes(partitionId: int, signature: string) returns (bytes: nat)
      ensures bytes == TotalBytes(blocks)
    {
      bytes := 0;
      var ii := 0;
      while ii < |blocks|
        invariant 0 <= ii <= |blocks|
        invariant bytes == TotalBytes(blocks[..ii])
      {
        assert blocks[..ii + 1][..ii] == blocks[..ii];
        bytes := bytes + blocks[ii].Offset();
        ii := ii + 1;
      }
      assert blocks[..ii] == blocks;
    }

    /** pushExportBuffer: queue the partition and signature, keep the block if there is
        one, append the column names, and latch the two flags. */
    method PushExportBuffer(generation: int, partitionId: int, signature: string,
                            columnNames: seq<string>, block: Option<StreamBlock>,
                            sync: bool, endOfStream: bool)
      modifies this
      ensures State() == Receive(old(State()), Push(generation, partitionId, signature, columnNames, block, sync, endOfStream))
    {
      partitionIds := partitionIds + [partitionId];
      signatures := signatures + [signature];
      if block.Some? {
        blocks := blocks + [block.value];
      }
      receivedExportBuffer := true;
      if !receivedEndOfStream {
        receivedEndOfStream := endOfStream;
      }
      this.columnNames := this.columnNames + columnNames;
    }

    /** The test's blocks.front() followed by blocks.pop_front(): the consumer takes the
        oldest block and the recorder stops holding it. */
    method PopFront() returns (b: StreamBlock)
      requires blocks != []
      modifies this
      ensures b == old(blocks)[0]
      ensures State() == old(State()).(blocks := old(blocks)[1..])
    {
      b := blocks[0];
      blocks := blocks[1..];
    }
  }
}
