/** The block ranges for which files are opened. */
module Boundaries {

  /** A range of blocks that excludes its end. */
  datatype Range = Range(start: nat, end: nat) {
    predicate Contains(block: nat) {
      start <= block < end
    }
  }

  function NewBoundary(block: nat, size: nat, stop: nat): Range
    requires size > 0
  {
    var start := block - block % size;
    Range(start, if stop < start + size then stop else start + size)
  }

  function ComputeEndBlock(start: nat, size: nat): nat
    requires size > 0
  {
    start + size - (start + size) % size
  }

  /** The first boundary end after a block is the next multiple of the size. */
  lemma EndBlockIsNextMultiple(start: nat, size: nat)
    requires size > 0
    ensures start < ComputeEndBlock(start, size) <= start + size
    ensures ComputeEndBlock(start, size) % size == 0
    ensures start % size == 0 ==> ComputeEndBlock(start, size) == start + size
  {
    ModuloOfSum(start, size);
    SubtractRemainder(start + size, size);
  }

  lemma ModuloOfSum(a: nat, size: nat)
    requires size > 0
    ensures (a + size) % size == a % size
  {
    var q := a / size;
    assert a == q * size + a % size;
    assert a + size == (q + 1) * size + a % size;
    QuotientIsUnique(a + size, size, q + 1, a % size);
  }

  lemma QuotientIsUnique(a: nat, size: nat, q: nat, r: nat)
    requires size > 0 && a == q * size + r && r < size
    ensures a / size == q && a % size == r
  {
    var p := a / size;
    assert a == p * size + a % size;
    if p < q {
      MultiplesGap(p, q, size);
    } else if q < p {
      MultiplesGap(q, p, size);
    }
  }

  lemma {:induction false} MultiplesGap(p: nat, q: nat, size: nat)
    requires p < q
    ensures q * size >= p * size + size
  {
    assert q * size == (q - 1) * size + size;
    if p + 1 < q {
      MultiplesGap(p, q - 1, size);
    }
  }

  lemma SubtractRemainder(a: nat, size: nat)
    requires size > 0
    ensures (a - a % size) % size == 0 && a - a % size <= a < a - a % size + size
  {
    var q := a / size;
    assert a - a % size == q * size + 0;
    QuotientIsUnique(a - a % size, size, q, 0);
  }

  /** A block is in the boundary opened for it, which starts at a multiple of the size. */
  lemma NewBoundaryIsAligned(block: nat, size: nat, stop: nat)
    requires size > 0
    ensures NewBoundary(block, size, stop).start % size == 0
    ensures NewBoundary(block, size, stop).start <= block < NewBoundary(block, size, stop).start + size
    ensures block < stop ==> NewBoundary(block, size, stop).Contains(block)
  {
    SubtractRemainder(block, size);
  }

  /** Two multiples of the size that are less than the size apart are equal. */
  lemma MultiplesApart(a: nat, b: nat, size: nat)
    requires size > 0 && a % size == 0 && b % size == 0 && a < b
    ensures a + size <= b
  {
    var p, q := a / size, b / size;
    assert a == p * size && b == q * size;
    if q < p {
      MultiplesGap(q, p, size);
    } else if p < q {
      MultiplesGap(p, q, size);
    }
  }

  /** The boundaries that lie wholly between the end of one boundary and a block. */
  function BoundariesToSkip(iter: nat, block: nat, size: nat): seq<Range>
    requires size > 0
    decreases if block > iter then block - iter else 0
  {
    EndBlockIsNextMultiple(iter, size);
    var end := ComputeEndBlock(iter, size);
    if block >= end then [Range(iter, end)] + BoundariesToSkip(end, block, size) else []
  }

  /** Consecutive ranges, from one block up to another. */
  ghost predicate Chained(ranges: seq<Range>, from: nat, to: nat) {
    if ranges == [] then from == to
    else ranges[0].start == from && Chained(ranges[1..], ranges[0].end, to)
  }

  ghost predicate Whole(r: Range, size: nat)
    requires size > 0
  {
    r.start % size == 0 && r.end == r.start + size
  }

  /** From an aligned end the skipped boundaries are whole, follow one another and stop at the block's own boundary. */
  lemma {:induction false} SkippedAreChained(iter: nat, block: nat, size: nat)
    requires size > 0 && iter % size == 0 && iter <= block
    ensures Chained(BoundariesToSkip(iter, block, size), iter, block - block % size)
    ensures forall r :: r in BoundariesToSkip(iter, block, size) ==> Whole(r, size) && r.end <= block
    decreases block - iter
  {
    var end := ComputeEndBlock(iter, size);
    EndBlockIsNextMultiple(iter, size);
    SubtractRemainder(block, size);
    if block >= end {
      SkippedAreChained(end, block, size);
      var rest := BoundariesToSkip(end, block, size);
      assert BoundariesToSkip(iter, block, size) == [Range(iter, end)] + rest;
      assert ([Range(iter, end)] + rest)[1..] == rest;
    } else if iter < block - block % size {
      MultiplesApart(iter, block - block % size, size);
    } else if block - block % size < iter {
      MultiplesApart(block - block % size, iter, size);
    }
  }

  /** The loop of `boundariesToSkip`. */
  method CollectBoundariesToSkip(last: Range, block: nat, size: nat) returns (out: seq<Range>)
    requires size > 0
    ensures out == BoundariesToSkip(last.end, block, size)
  {
    out := [];
    var iter := last.end;
    EndBlockIsNextMultiple(iter, size);
    var endBlock := ComputeEndBlock(iter, size);
    while block >= endBlock
      invariant endBlock == ComputeEndBlock(iter, size) && iter < endBlock
      invariant out + BoundariesToSkip(iter, block, size) == BoundariesToSkip(last.end, block, size)
      decreases block - iter
    {
      assert out + ([Range(iter, endBlock)] + BoundariesToSkip(endBlock, block, size)) ==
             (out + [Range(iter, endBlock)]) + BoundariesToSkip(endBlock, block, size);
      out := out + [Range(iter, endBlock)];
      iter := endBlock;
      EndBlockIsNextMultiple(iter, size);
      endBlock := ComputeEndBlock(iter, size);
    }
  }

  lemma {:induction false} ChainedAppend(a: seq<Range>, from: nat, mid: nat, b: seq<Range>, to: nat)
    requires Chained(a, from, mid) && Chained(b, mid, to)
    ensures Chained(a + b, from, to)
  {
    if a == [] {
      assert a + b == b;
    } else {
      assert (a + b)[0] == a[0] && (a + b)[1..] == a[1..] + b;
      ChainedAppend(a[1..], a[0].end, mid, b, to);
    }
  }
}
