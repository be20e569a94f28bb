/**
Exactly when the order of the 32-bit file numbers is the order of the stream.
*/
module CaptureFilesOrder {
  import opened Words
  import opened CaptureFiles
  import opened CaptureFilesTheorems
  import opened CaptureFilesAccounting
  import opened CaptureFilesOnDisk

  ghost predicate EndsInZero(gen: seq<Block>) { gen != [] && gen[|gen| - 1] == [0] }

  ghost predicate AllEndInZero(gens: seq<seq<Block>>) { forall i | 0 <= i < |gens| :: EndsInZero(gens[i]) }

  lemma {:induction false} ZerosPack(n: nat, fileSize: nat)
    requires n > 0 && HEADER_SIZE < fileSize
    ensures AllEndInZero(Pack(OneByteBlocks(n), fileSize))
  {
    var before := Pack(OneByteBlocks(n - 1), fileSize);
    if n == 1 {
      OneByteFits(fileSize);
      assert before == [[]];
    } else {
      ZerosPack(n - 1, fileSize);
      ZeroMore(before, fileSize);
    }
    assert AllEndInZero(Extend(before, [0], fileSize));
    assert OneByteBlocks(n)[..n - 1] == OneByteBlocks(n - 1);
  }

  lemma ZeroMore(gens: seq<seq<Block>>, fileSize: nat)
    requires gens != [] && AllEndInZero(gens)
    ensures AllEndInZero(Extend(gens, [0], fileSize))
  {
    var next := Extend(gens, [0], fileSize);
    forall i | 0 <= i < |next|
      ensures EndsInZero(next[i])
    {
      assert i < |gens| - 1 ==> next[i] == gens[i] && EndsInZero(gens[i]);
    }
  }

  lemma OneByteFits(fileSize: nat)
    requires HEADER_SIZE < fileSize
    ensures Extend([[]], [0], fileSize) == [[[0]]]
  {
    var none: seq<Block> := [];
    assert Bytes(none) == [] && none + [[0]] == [[0]];
  }

  /** Zeros for n whole files take exactly n files. */
  lemma FullFiles(n: nat, cap: nat, total: nat, fileSize: nat)
    requires n > 0 && cap > 0 && fileSize == HEADER_SIZE + cap && total == n * cap
    ensures var gens := Pack(OneByteBlocks(total), fileSize);
            |gens| == n && |Bytes(gens[n - 1])| == cap
  {
    assert total >= cap by { AtLeast(n, 1, cap); }
    OneByteBlocksPack(total, cap, fileSize);
    FilledCount(Pack(OneByteBlocks(total), fileSize), cap, total, n);
  }

  lemma FilledCount(gens: seq<seq<Block>>, cap: nat, total: nat, n: nat)
    requires Filled(gens, cap, total) && 0 < n && 0 < cap <= total == n * cap
    ensures |gens| == n && |Bytes(gens[n - 1])| == cap
  {
    FullCount(|gens| - 1, n, cap, |Bytes(gens[|gens| - 1])|);
  }

  lemma FullCount(full: nat, n: nat, cap: nat, last: nat)
    requires n > 0 && full * cap + last == n * cap && 0 < last <= cap
    ensures full == n - 1 && last == cap
  {
    assert (full + 1) * cap == full * cap + cap;
    assert (n - 1) * cap == n * cap - cap;
    if full < n - 1 {
      AtLeast(n - 1, full + 1, cap);
    } else if full > n - 1 {
      AtLeast(full, n, cap);
    }
  }

  /** Behind full files, one more byte opens the next. */
  lemma OneBehind(zeros: seq<Block>, fileSize: nat)
    requires HEADER_SIZE < fileSize
    requires var gens := Pack(zeros, fileSize); HEADER_SIZE + |Bytes(gens[|gens| - 1])| == fileSize
    ensures Pack(zeros + [[1]], fileSize) == Pack(zeros, fileSize) + [[[1]]]
  {
    assert (zeros + [[1]])[..|zeros|] == zeros;
  }

  lemma ZerosAndOne(m: nat, cap: nat, total: nat, fileSize: nat)
    requires m > 0 && cap > 0 && fileSize == HEADER_SIZE + cap && total == m * cap
    ensures var gens := Pack(OneByteBlocks(total) + [[1]], fileSize);
            |gens| == m + 1 && gens[m] == [[1]] && AllEndInZero(gens[..m])
  {
    var zeros := OneByteBlocks(total);
    var full := Pack(zeros, fileSize);
    FullFiles(m, cap, total, fileSize);
    OneBehind(zeros, fileSize);
    assert (full + [[[1]]])[..m] == full;
    assert AllEndInZero(full) by {
      SomeBytes(m, cap, total);
      ZerosPack(total, fileSize);
    }
  }

  lemma SomeBytes(m: nat, cap: nat, total: nat)
    requires m > 0 && cap > 0 && total == m * cap
    ensures total > 0
  {
  }

  /** There is a stream for every number of files whose last byte tells the newest file from all others. */
  lemma TelltaleStream(m: nat, cap: nat, fileSize: nat) returns (blocks: seq<Block>)
    requires m > 0 && cap > 0 && fileSize == HEADER_SIZE + cap
    ensures Bounded(blocks, fileSize)
    ensures var gens := Pack(blocks, fileSize);
            |gens| == m + 1 && gens[m] == [[1]] && AllEndInZero(gens[..m])
  {
    var total := m * cap;
    blocks := OneByteBlocks(total) + [[1]];
    ZerosAndOne(m, cap, total, fileSize);
  }

  /** Bytes that a generation ends in stay at the end. */
  lemma LastByte(gens: seq<seq<Block>>, b: byte)
    requires gens != [] && gens[|gens| - 1] != [] && gens[|gens| - 1][|gens[|gens| - 1]| - 1] == [b]
    ensures var bytes := Bytes(Blocks(gens)); bytes != [] && bytes[|bytes| - 1] == b
  {
    var before, last := gens[..|gens| - 1], gens[|gens| - 1];
    GenAppend(before, last);
    assert gens == before + [last];
    assert Bytes(last) == Bytes(last[..|last| - 1]) + [b];
  }

  /** The reader sees zeros last, where the stream ends in a one. */
  lemma RotationShows(gens: seq<seq<Block>>, lost: nat, w: nat)
    requires lost < w < |gens| && gens[|gens| - 1] == [[1]] && AllEndInZero(gens[..|gens| - 1])
    ensures Bytes(Blocks(gens[w..])) + Bytes(Blocks(gens[lost..w])) != Bytes(Blocks(gens[lost..]))
  {
    var older, newer := gens[lost..w], gens[w..];
    assert older[|older| - 1] == gens[..|gens| - 1][w - 1];
    LastByte(older, 0);
    LastByte(gens[lost..], 1);
    assert (Bytes(Blocks(newer)) + Bytes(Blocks(older)))[|Bytes(Blocks(newer))| + |Bytes(Blocks(older))| - 1] == 0;
  }

  /** Files whose number restarted among them are read in the wrong order. */
  lemma RestartIsRead(s: Store, start: nat, timezone: nat, blocks: seq<Block>)
    requires Opened(s, start, timezone) && s.count <= MAX_FILES && NothingStale(s, start) && Bounded(blocks, s.fileSize)
    requires var gens := Pack(blocks, s.fileSize);
             !InOrder(|gens|, s.count) && gens[|gens| - 1] == [[1]] && AllEndInZero(gens[..|gens| - 1])
    ensures !ReadsBack(s, true, start, timezone, blocks)
  {
    var gens := Pack(blocks, s.fileSize);
    var lost, w := Lost(|gens|, s.count), Restart(|gens|, s.count);
    assert lost < w < |gens| by { RestartIff(|gens|, s.count); }
    assert Bytes(Blocks(gens[w..])) + Bytes(Blocks(gens[lost..w])) != Bytes(Blocks(gens[lost..])) by {
      RotationShows(gens, lost, w);
    }
    DiskGivesBackStream(s, true, start, timezone, blocks);
    FinishedOnDisk(s, true, start, timezone, blocks);
  }

  /** Every number of files at which the order fails has a stream that shows it. */
  lemma SomeStreamIsRotated(s: Store, start: nat, timezone: nat, n: nat) returns (blocks: seq<Block>)
    requires Opened(s, start, timezone) && s.count <= MAX_FILES && NothingStale(s, start) && HEADER_SIZE < s.fileSize
    requires n > 0 && !InOrder(n, s.count)
    ensures Bounded(blocks, s.fileSize) && |Pack(blocks, s.fileSize)| == n && !ReadsBack(s, true, start, timezone, blocks)
  {
    blocks := TelltaleStream(n - 1, s.fileSize - HEADER_SIZE, s.fileSize);
    RestartIsRead(s, start, timezone, blocks);
  }

  /**
  In ring mode the disk gives back every stream that has taken n files, exactly if the number of the
  newest file is not smaller than the number of files behind it, or never restarted.
  */
  lemma OrderIff(s: Store, start: nat, timezone: nat, n: nat)
    requires Opened(s, start, timezone) && s.count <= MAX_FILES && NothingStale(s, start) && HEADER_SIZE < s.fileSize
    requires n > 0
    ensures InOrder(n, s.count) <==>
            forall blocks | Bounded(blocks, s.fileSize) && |Pack(blocks, s.fileSize)| == n ::
              ReadsBack(s, true, start, timezone, blocks)
  {
    if InOrder(n, s.count) {
      forall blocks | Bounded(blocks, s.fileSize) && |Pack(blocks, s.fileSize)| == n
        ensures ReadsBack(s, true, start, timezone, blocks)
      {
        PlainReadsBack(s, true, start, timezone, blocks);
      }
    } else {
      var blocks := SomeStreamIsRotated(s, start, timezone, n);
    }
  }
}
