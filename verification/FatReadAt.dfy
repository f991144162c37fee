/** Random access: what Fat32ReadFileAt computes in 32-bit arithmetic, and exactly
    when that is the slice of the file it was asked for. */
module FatReadAt {
  import opened Arith
  import opened FatDisk
  import opened FatCells

  /** 32-bit wrap-around. */
  function Wrap(x: nat): nat { x % 0x1_0000_0000 }

  /** How many bytes the driver sets out to copy; the clamp looks at a wrapped sum. */
  function Wanted(size: nat, offset: nat, count: nat): nat
    requires offset < size
  {
    if Wrap(offset + count) > size then size - offset else count
  }

  /** The outcome for a file of `size` bytes on a chain holding the bytes `b`. */
  function ReadAtResult(b: Bytes, size: nat, clusterSize: nat, offset: nat, count: nat): (Status, Bytes)
    requires size <= |b|
  {
    if offset >= size || 0x1_0000_0000 - clusterSize <= offset then (EndOfFile, [])
    else (Success, b[offset..offset + Min(Wanted(size, offset, count), |b| - offset)])
  }

  /** The guard a caller can check: the offset is not in the last possible cluster,
      and the sum either fits 32 bits, or wraps to more than the size, or the file
      fills its chain. */
  predicate InReach(capacity: nat, size: nat, clusterSize: nat, offset: nat, count: nat) {
    && offset < 0x1_0000_0000 - clusterSize
    && (offset + count < 0x1_0000_0000 || size < offset + count - 0x1_0000_0000 || capacity == size)
  }

  /** Fat32ReadFileAt refines whole-file reading exactly when the access is in reach. */
  lemma ReadAtIsSlice(b: Bytes, size: nat, clusterSize: nat, offset: nat, count: nat)
    requires offset < size <= |b| <= 0x1_0000_0000 && size < 0x1_0000_0000 && count < 0x1_0000_0000
    ensures ReadAtResult(b, size, clusterSize, offset, count) == (Success, b[..size][offset..Min(offset + count, size)])
       <==> InReach(|b|, size, clusterSize, offset, count)
  {
    var sum := offset + count;
    if sum < 0x1_0000_0000 {
      Remainder(sum, 0x1_0000_0000, 0, sum);
    } else {
      Remainder(sum, 0x1_0000_0000, 1, sum - 0x1_0000_0000);
    }
    var want := Min(Wanted(size, offset, count), |b| - offset);
    var right := Min(sum, size) - offset;
    assert b[..size][offset..offset + right] == b[offset..offset + right];
    assert want == right ==> b[offset..offset + want] == b[offset..offset + right];
    assert |b[offset..offset + want]| == want;
  }

  /** A reader that has seen the first `n` sectors of `b`. */
  ghost predicate TailSoFar(b: Bytes, n: nat, offset: nat, want: nat, skip: nat, out: Bytes, left: nat) {
    && n * 512 <= |b| && offset <= |b|
    && |out| + left == want && offset + |out| <= |b|
    && out == b[offset..offset + |out|]
    && (if n * 512 <= offset then skip == offset - n * 512 && out == []
        else skip == 0 && |out| == Min(want, n * 512 - offset))
  }

  lemma TailSkips(b: Bytes, n: nat, offset: nat, want: nat, skip: nat, out: Bytes, left: nat)
    requires TailSoFar(b, n, offset, want, skip, out, left) && 512 <= skip && n * 512 + 512 <= |b|
    ensures TailSoFar(b, n + 1, offset, want, skip - 512, out, left)
  {
  }

  lemma TailTakes(b: Bytes, n: nat, offset: nat, want: nat, skip: nat, out: Bytes, left: nat, s: Bytes)
    requires TailSoFar(b, n, offset, want, skip, out, left) && skip < 512 && left > 0
    requires n * 512 + 512 <= |b| && s == b[n * 512..n * 512 + 512]
    ensures var k := Min(left, 512 - skip);
            TailSoFar(b, n + 1, offset, want, 0, out + s[skip..skip + k], left - k)
  {
    var k := Min(left, 512 - skip);
    SubSlice(b, n * 512, 512, skip, skip + k);
    JoinSlices(b, offset, offset + |out|, offset + |out| + k);
  }

  lemma SubSlice(b: Bytes, lo: nat, n: nat, i: nat, j: nat)
    requires lo + n <= |b| && i <= j <= n
    ensures b[lo..lo + n][i..j] == b[lo + i..lo + j]
  {
    var x, y := b[lo..lo + n][i..j], b[lo + i..lo + j];
    forall k | 0 <= k < |x| ensures x[k] == y[k] {
      assert x[k] == b[lo..lo + n][i + k];
    }
  }

  lemma JoinSlices(b: Bytes, i: nat, j: nat, k: nat)
    requires i <= j <= k <= |b|
    ensures b[i..j] + b[j..k] == b[i..k]
  {
  }

  lemma TailDone(b: Bytes, n: nat, offset: nat, want: nat, skip: nat, out: Bytes, left: nat)
    requires TailSoFar(b, n, offset, want, skip, out, left) && (left == 0 || n * 512 == |b|) && offset < |b|
    ensures out == b[offset..offset + Min(want, |b| - offset)]
  {
  }

  // ---- the wrapping walk ---------------------------------------------------

  /** 2^32 bytes are a whole number of clusters. */
  lemma WholeClusters(spc: nat) returns (q: nat)
    requires PowerOfTwo(spc)
    ensures Steps(q, spc) == 0x80_0000
  {
    q := 0x80_0000 / spc;
    StepsIsProduct(q, spc);
  }

  /** A step that leaves 32 bits lands exactly on 2^32. */
  lemma StepToWrap(k: nat, spc: nat)
    requires PowerOfTwo(spc) && Steps(k, spc) < 0x80_0000
    ensures Steps(k + 1, spc) <= 0x80_0000
  {
    var q := WholeClusters(spc);
    if q < k { StepsApart(q, k, spc); }
    assert k < q;
    if k + 1 < q { StepsApart(k + 1, q, spc); }
  }

  /** One turn of the skipping loop on a chain of `len` clusters just long enough. */
  lemma SkipStep(spc: nat, i: nat, len: nat, size: nat, offset: nat)
    requires PowerOfTwo(spc) && i < len && offset < size < 0x1_0000_0000
    requires Steps(len - 1, spc) * 512 < size <= Steps(len, spc) * 512
    requires Steps(i, spc) * 512 <= offset && Wrap(Steps(i, spc) * 512 + spc * 512) <= offset
    ensures i + 1 < len ==> Wrap(Steps(i, spc) * 512 + spc * 512) == Steps(i + 1, spc) * 512 <= offset
    ensures i + 1 == len ==> 0x1_0000_0000 - spc * 512 <= offset
  {
    var next := Steps(i + 1, spc) * 512;
    StepToWrap(i, spc);
    if i + 1 < len {
      if i + 1 < len - 1 { StepsApart(i + 1, len - 1, spc); }
      Remainder(next, 0x1_0000_0000, 0, next);
    } else if next < 0x1_0000_0000 {
      Remainder(next, 0x1_0000_0000, 0, next);
    }
  }

  /** Where the loop stops inside the chain. */
  lemma SkipStops(spc: nat, i: nat, offset: nat)
    requires PowerOfTwo(spc) && offset < Wrap(Steps(i, spc) * 512 + spc * 512) && Steps(i, spc) * 512 <= offset < 0x1_0000_0000
    ensures offset < 0x1_0000_0000 - spc * 512
  {
    var next := Steps(i + 1, spc) * 512;
    StepToWrap(i, spc);
    if next < 0x1_0000_0000 {
      var q := WholeClusters(spc);
      if q <= i + 1 { if q < i + 1 { StepsApart(q, i + 1, spc); } }
      assert i + 1 < q;
      StepsApart(i + 1, q, spc);
      Remainder(next, 0x1_0000_0000, 0, next);
    }
  }
}
