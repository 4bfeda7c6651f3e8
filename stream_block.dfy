/** A StreamBlock: one fixed-capacity buffer of the export stream, and facts about
    runs of consecutive blocks. */
module StreamBlocks {

  /** Bytes taken by one exported row of the five-integer-column table: 5 export header
      columns of 8 bytes, one more 8-byte header column, a 2-byte null mask, a 4-byte
      row length and 5 integer columns of 8 bytes. */
  const RowSize: nat := 94

  /** The generation of a stream that has not been given one yet (the minimum 64-bit
      integer). */
  const NoGeneration: int := -0x8000_0000_0000_0000

  /** One exported row, abstracted to what the stream's bookkeeping looks at: the
      transaction that wrote it and the generation it was written under. */
  datatype Row = Row(txnId: int, generation: int)

  /** A block: `uso` is the stream offset of its first byte, `rows` what has been
      written into it (so its write cursor `Offset()` is RowSize per row), and
      `generationId` the generation its rows belong to. */
  datatype StreamBlock = StreamBlock(uso: nat, capacity: nat, rows: seq<Row>, generationId: int)
  {
    /** Bytes written so far. */
    function Offset(): nat { RowSize * |rows| }

    /** Stream offset one past the last byte written. */
    function End(): nat { uso + Offset() }

    /** Room left in the buffer. */
    function Remaining(): int { capacity - Offset() }

    /** Every row carries the block's generation. */
    predicate Homogeneous() {
      forall i :: 0 <= i < |rows| ==> rows[i].generation == generationId
    }
  }

  /** A newly allocated, empty block starting at stream offset `uso`. */
  function FreshBlock(uso: nat, capacity: nat): StreamBlock {
    StreamBlock(uso, capacity, [], NoGeneration)
  }

  /** StreamBlock::truncateTo: forget every row that does not lie wholly before
      stream offset `mark`. */
  function TruncateTo(b: StreamBlock, mark: nat): (r: StreamBlock)
    requires b.uso <= mark <= b.End()
    ensures r.uso == b.uso && r.capacity == b.capacity && r.generationId == b.generationId
    ensures |r.rows| <= |b.rows| && r.rows == b.rows[..|r.rows|]
    ensures r.End() <= mark < r.End() + RowSize
    ensures (mark - b.uso) % RowSize == 0 ==> r.End() == mark
  {
    b.(rows := b.rows[..(mark - b.uso) / RowSize])
  }

  /** Each block starts where the one before it ends. */
  ghost predicate Adjacent(bs: seq<StreamBlock>) {
    forall i, j :: 0 <= i < j < |bs| && j == i + 1 ==> bs[j].uso == bs[i].End()
  }

  /** The blocks cover the stream without gap or overlap from offset `start` on. */
  ghost predicate Contiguous(bs: seq<StreamBlock>, start: nat) {
    (bs != [] ==> bs[0].uso == start) && Adjacent(bs)
  }

  /** Sum of the bytes written into the blocks. */
  function TotalBytes(bs: seq<StreamBlock>): nat {
    if bs == [] then 0 else TotalBytes(bs[..|bs| - 1]) + bs[|bs| - 1].Offset()
  }

  /** The rows of the blocks, in stream order. */
  function Rows(bs: seq<StreamBlock>): seq<Row> {
    if bs == [] then [] else Rows(bs[..|bs| - 1]) + bs[|bs| - 1].rows
  }

  lemma {:induction false} TotalBytesConcat(a: seq<StreamBlock>, b: seq<StreamBlock>)
    ensures TotalBytes(a + b) == TotalBytes(a) + TotalBytes(b)
    decreases |b|
  {
    if b == [] {
      assert a + b == a;
    } else {
      assert (a + b)[..|a + b| - 1] == a + b[..|b| - 1];
      TotalBytesConcat(a, b[..|b| - 1]);
    }
  }

  lemma {:induction false} RowsConcat(a: seq<StreamBlock>, b: seq<StreamBlock>)
    ensures Rows(a + b) == Rows(a) + Rows(b)
    decreases |b|
  {
    if b == [] {
      assert a + b == a;
    } else {
      assert (a + b)[..|a + b| - 1] == a + b[..|b| - 1];
      RowsConcat(a, b[..|b| - 1]);
    }
  }

  lemma OffsetOfRows(b: StreamBlock, k: nat)
    requires |b.rows| == k
    ensures b.Offset() == RowSize * k
  {
  }

  lemma TotalBytesPair(a: StreamBlock, b: StreamBlock)
    ensures TotalBytes([a, b]) == a.Offset() + b.Offset()
  {
    assert [a, b][..1] == [a] && [a][..0] == [];
    assert TotalBytes([a]) == a.Offset();
  }

  /** The bytes of a run of blocks are exactly RowSize per row. */
  lemma {:induction false} TotalBytesIsRows(bs: seq<StreamBlock>)
    ensures TotalBytes(bs) == RowSize * |Rows(bs)|
    decreases |bs|
  {
    if bs != [] {
      TotalBytesIsRows(bs[..|bs| - 1]);
    }
  }

  /** Contiguous blocks starting at `start` end at `start` plus the bytes they hold,
      and every one of them lies inside that range. */
  lemma {:induction false} ContiguousSpan(bs: seq<StreamBlock>, start: nat)
    requires Contiguous(bs, start)
    ensures bs != [] ==> bs[|bs| - 1].End() == start + TotalBytes(bs)
    ensures forall i :: 0 <= i < |bs| ==> start <= bs[i].uso && bs[i].End() <= start + TotalBytes(bs)
    decreases |bs|
  {
    if bs != [] {
      var init := bs[..|bs| - 1];
      ContiguousSpan(init, start);
      if init != [] {
        assert bs[|bs| - 1].uso == bs[|bs| - 2].End();
      }
    }
  }

  /** Splitting a contiguous run: both halves are contiguous, the second starting where
      the first ends; and conversely. */
  lemma ContiguousConcat(a: seq<StreamBlock>, b: seq<StreamBlock>, start: nat)
    ensures Contiguous(a + b, start) <==> Contiguous(a, start) && Contiguous(b, start + TotalBytes(a))
  {
    if Contiguous(a + b, start) {
      ContiguousParts(a, b, start);
    }
    if Contiguous(a, start) && Contiguous(b, start + TotalBytes(a)) {
      ContiguousJoin(a, b, start);
    }
  }

  /** Both parts of a contiguous run are contiguous, the second from where the first ends. */
  lemma ContiguousParts(a: seq<StreamBlock>, b: seq<StreamBlock>, start: nat)
    requires Contiguous(a + b, start)
    ensures Contiguous(a, start) && Contiguous(b, start + TotalBytes(a))
  {
    assert a == (a + b)[..|a|];
    assert b == (a + b)[|a|..];
    assert Contiguous(a, start);
    ContiguousSpan(a, start);
    if a != [] && b != [] {
      assert (a + b)[|a|].uso == (a + b)[|a| - 1].End();
    }
  }

  /** Two contiguous runs, the second starting where the first ends, make one. */
  lemma ContiguousJoin(a: seq<StreamBlock>, b: seq<StreamBlock>, start: nat)
    requires Contiguous(a, start) && Contiguous(b, start + TotalBytes(a))
    ensures Contiguous(a + b, start)
  {
    ContiguousSpan(a, start);
    forall i, j | 0 <= i < j < |a + b| && j == i + 1
      ensures (a + b)[j].uso == (a + b)[i].End()
    {
      if j < |a| {
      } else if i >= |a| {
        assert (a + b)[j] == b[j - |a|] && (a + b)[i] == b[i - |a|];
      } else {
        assert i == |a| - 1 && (a + b)[j] == b[0];
      }
    }
  }

  /** A block closed because the next row did not fit holds the largest multiple of
      RowSize that fits in its capacity. */
  lemma FullBlockOffset(b: StreamBlock)
    requires b.Offset() <= b.capacity < b.Offset() + RowSize
    ensures |b.rows| == b.capacity / RowSize
    ensures b.Offset() == RowSize * (b.capacity / RowSize)
  {
  }

  /** A block that starts where a contiguous run ends extends the run. */
  lemma ContiguousSnoc(bs: seq<StreamBlock>, b: StreamBlock, start: nat)
    requires Contiguous(bs, start) && b.uso == start + TotalBytes(bs)
    ensures Contiguous(bs + [b], start)
    ensures TotalBytes(bs + [b]) == TotalBytes(bs) + b.Offset()
    ensures Rows(bs + [b]) == Rows(bs) + b.rows
  {
    ContiguousConcat(bs, [b], start);
    assert (bs + [b])[..|bs|] == bs;
  }

  /** Every suffix of a contiguous run is contiguous from where its first block starts. */
  lemma ContiguousSuffix(bs: seq<StreamBlock>, start: nat, k: nat)
    requires Contiguous(bs, start) && k < |bs|
    ensures Contiguous(bs[k..], bs[k].uso)
    ensures Contiguous(bs[..k], start) && bs[k].uso == start + TotalBytes(bs[..k])
  {
    SplitAt(bs, k);
    ContiguousConcat(bs[..k], bs[k..], start);
  }

  /** A sequence is its prefix before `k` followed by the rest. */
  lemma SplitAt<T>(bs: seq<T>, k: nat)
    requires k <= |bs|
    ensures bs[..k] + bs[k..] == bs
  {
  }

  lemma ConcatAssoc<T>(a: seq<T>, b: seq<T>, c: seq<T>)
    ensures a + (b + c) == (a + b) + c
  {
  }

  lemma MultipleOfRowSize(a: nat, k: nat)
    requires a % RowSize == 0
    ensures (a + RowSize * k) % RowSize == 0
  {
  }

  /** The distance between two row boundaries is a whole number of rows. */
  lemma AlignedDifference(a: nat, b: nat)
    requires a % RowSize == 0 && b % RowSize == 0 && a <= b
    ensures (b - a) % RowSize == 0
  {
  }

  /** Row-index arithmetic of a cut: a block starting `k` rows into an aligned run, cut
      at an aligned mark, keeps the rows before index (mark - start) / RowSize. */
  lemma CutIndex(start: nat, uso: nat, mark: nat, k: nat)
    requires start % RowSize == 0 && uso == start + RowSize * k && uso <= mark && mark % RowSize == 0
    ensures (mark - start) / RowSize == k + (mark - uso) / RowSize
  {
    var a, c := start / RowSize, mark / RowSize;
    assert start == RowSize * a && mark == RowSize * c;
    assert c >= a + k;
    WholeRows(c - a);
    WholeRows(c - a - k);
  }

  /** A whole number of rows divides back into that number. */
  lemma WholeRows(q: nat)
    ensures (RowSize * q) / RowSize == q
  {
  }

  /** Cutting a contiguous run at a row boundary inside its `i`-th block keeps exactly
      the rows that lie before the cut. */
  lemma TruncatedRows(bs: seq<StreamBlock>, start: nat, i: nat, mark: nat)
    requires Contiguous(bs, start) && start % RowSize == 0
    requires i < |bs| && bs[i].uso <= mark <= bs[i].End() && mark % RowSize == 0
    ensures start <= mark && (mark - start) / RowSize <= |Rows(bs)|
    ensures Rows(bs[..i] + [TruncateTo(bs[i], mark)]) == Rows(bs)[..(mark - start) / RowSize]
  {
    var p := bs[..i];
    var b := bs[i];
    var k := |Rows(p)|;
    var m := (mark - b.uso) / RowSize;
    var rest := Rows(bs[i + 1..]);
    assert start <= b.uso && (mark - start) / RowSize == k + m by {
      ContiguousSuffix(bs, start, i);
      TotalBytesIsRows(p);
      CutIndex(start, b.uso, mark, k);
    }
    var r := TruncateTo(b, mark);
    assert r.rows == b.rows[..m] && m <= |b.rows|;
    RowsSnoc(p, r);
    RowsAround(bs, i);
    PrefixThroughMiddle(Rows(p), b.rows, rest, Rows(bs), m, (mark - start) / RowSize);
  }

  /** The rows of a run with one more block at the end. */
  lemma RowsSnoc(p: seq<StreamBlock>, b: StreamBlock)
    ensures Rows(p + [b]) == Rows(p) + b.rows
  {
    assert (p + [b])[..|p|] == p;
  }

  /** The rows of a run, split around its `i`-th block. */
  lemma RowsAround(bs: seq<StreamBlock>, i: nat)
    requires i < |bs|
    ensures Rows(bs) == (Rows(bs[..i]) + bs[i].rows) + Rows(bs[i + 1..])
  {
    SplitAround(bs, i);
    RowsConcat(bs[..i] + [bs[i]], bs[i + 1..]);
    RowsSnoc(bs[..i], bs[i]);
  }

  /** A sequence is what comes before its `i`-th element, that element, and the rest. */
  lemma SplitAround<T>(bs: seq<T>, i: nat)
    requires i < |bs|
    ensures bs == (bs[..i] + [bs[i]]) + bs[i + 1..]
  {
    assert bs == bs[..i + 1] + bs[i + 1..];
    assert bs[..i + 1] == bs[..i] + [bs[i]];
  }

  /** A contiguous run split in two: both parts are contiguous, the second starting
      where the first ends, and the rows split the same way. */
  lemma SplitContiguous(whole: seq<StreamBlock>, head: seq<StreamBlock>, rest: seq<StreamBlock>, start: nat)
    requires Contiguous(whole, start) && whole == head + rest
    ensures Contiguous(head, start) && Contiguous(rest, start + TotalBytes(head))
    ensures Rows(whole) == Rows(head) + Rows(rest)
  {
    ContiguousParts(head, rest, start);
    RowsConcat(head, rest);
  }

  /** Taking a prefix that ends inside the middle part of a three-part sequence. */
  lemma PrefixThroughMiddle<T>(x: seq<T>, y: seq<T>, z: seq<T>, whole: seq<T>, m: nat, n: nat)
    requires whole == (x + y) + z && m <= |y| && n == |x| + m
    ensures n <= |whole| && whole[..n] == x + y[..m]
  {
  }
}
