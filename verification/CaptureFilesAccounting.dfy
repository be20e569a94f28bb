/**
What `netana_file_info` reports, and how far the files grow.
*/
module CaptureFilesAccounting {
  import opened Words
  import opened CaptureFiles
  import opened CaptureFilesTheorems

  datatype FileInfo = FileInfo(number: nat, count: nat, total: nat, max: nat, ring: bool)

  function Sum(f: nat -> nat, a: nat, b: nat): nat
    requires a <= b
  {
    if a == b then 0 else Sum(f, a, b - 1) + f(b - 1)
  }

  function Written(files: seq<File>): nat -> nat {
    (k: nat) => if k < |files| then files[k].written else 0
  }

  /** `netana_file_info` while file capture is active; sizes are 64-bit. */
  function Info(s: Store): FileInfo
    requires s.count <= |s.files|
  {
    FileInfo(s.current + 1, s.count, Sum(Written(s.files), 0, s.count) % LONG, s.fileSize * s.count % LONG, s.ring)
  }

  // ---------------------------------------------------------------------------------------------
  // The total is what the files retain
  // ---------------------------------------------------------------------------------------------

  lemma {:induction false} SumSplits(f: nat -> nat, a: nat, b: nat, c: nat)
    requires a <= b <= c
    ensures Sum(f, a, c) == Sum(f, a, b) + Sum(f, b, c)
  {
    if b < c {
      SumSplits(f, a, b, c - 1);
    }
  }

  lemma {:induction false} SumSame(f: nat -> nat, a: nat, g: nat -> nat, i: nat, j: nat)
    requires i <= j && forall k: nat | i <= k < j :: f(a + k - i) == g(k)
    ensures Sum(f, a, a + j - i) == Sum(g, i, j)
  {
    if i < j {
      SumSame(f, a, g, i, j - 1);
    }
  }

  lemma {:induction false} SumAtMost(f: nat -> nat, n: nat, limit: nat)
    requires forall k: nat | k < n :: f(k) <= limit
    ensures Sum(f, 0, n) <= n * limit
  {
    if n > 0 {
      SumAtMost(f, n - 1, limit);
      assert n * limit == (n - 1) * limit + limit;
    }
  }

  function Lengths(parts: seq<Block>): nat -> nat {
    (j: nat) => if j < |parts| then |parts[j]| else 0
  }

  lemma {:induction false} LengthOfBytes(parts: seq<Block>)
    ensures |Bytes(parts)| == Sum(Lengths(parts), 0, |parts|)
  {
    if parts != [] {
      var n := |parts| - 1;
      LengthOfBytes(parts[..n]);
      SumSame(Lengths(parts[..n]), 0, Lengths(parts), 0, n);
    }
  }

  lemma SlotWritten(s: Store, base: Header, gens: seq<seq<Block>>, open: bool, files0: seq<File>, k: nat)
    requires Rep(s, base, gens, open, files0) && Unwritten(files0, s.count) && k < s.count
    ensures s.files[k].written == |Payload(s.files[k])| && HEADER_SIZE + s.files[k].written <= s.fileSize
  {
    var i := GenOf(s.current, s.count, |gens| - 1, k);
    if 0 <= i < |gens| {
      HeldPayload(s.files[k], base, Bytes(gens[i]), i, open && i == |gens| - 1);
    }
  }

  /** `g` is `f` from the oldest file on. */
  ghost predicate Rotated(f: nat -> nat, g: nat -> nat, current: nat, count: nat) {
    current < count && forall j: nat | j < count :: g(j) == f(FromOldest(current, count, j))
  }

  lemma RotatedAt(f: nat -> nat, g: nat -> nat, current: nat, count: nat, j: nat, k: nat)
    requires Rotated(f, g, current, count) && j < count && k == FromOldest(current, count, j)
    ensures g(j) == f(k)
  {
  }

  lemma {:induction false} RotationTail(f: nat -> nat, g: nat -> nat, current: nat, count: nat, n: nat)
    requires Rotated(f, g, current, count) && n <= count - current - 1
    ensures Sum(g, 0, n) == Sum(f, current + 1, current + 1 + n)
  {
    if n > 0 {
      RotationTail(f, g, current, count, n - 1);
      RotatedAt(f, g, current, count, n - 1, current + n);
    }
  }

  lemma {:induction false} RotationHead(f: nat -> nat, g: nat -> nat, current: nat, count: nat, n: nat)
    requires Rotated(f, g, current, count) && n <= current + 1
    ensures Sum(g, count - current - 1, count - current - 1 + n) == Sum(f, 0, n)
  {
    if n > 0 {
      RotationHead(f, g, current, count, n - 1);
      RotatedAt(f, g, current, count, count - current - 2 + n, n - 1);
    }
  }

  /** Summed in file order or from the oldest file on: the same. */
  lemma Rotation(f: nat -> nat, g: nat -> nat, current: nat, count: nat)
    requires Rotated(f, g, current, count)
    ensures Sum(g, 0, count) == Sum(f, 0, count)
  {
    var n, m := count - current - 1, current + 1;
    assert Sum(g, 0, n) == Sum(f, m, count) by {
      RotationTail(f, g, current, count, n);
      assert m + n == count;
    }
    assert Sum(g, n, count) == Sum(f, 0, m) by {
      RotationHead(f, g, current, count, m);
      assert n + m == count;
    }
    SumSplits(g, 0, n, count);
    SumSplits(f, 0, m, count);
  }

  lemma PayloadLengths(s: Store)
    requires s.current < s.count <= |s.files|
    requires forall k | 0 <= k < s.count :: s.files[k].written == |Payload(s.files[k])|
    ensures Sum(Written(s.files), 0, s.count) == |OldestFirst(s)|
  {
    var parts := PayloadsFromOldest(s);
    LengthOfBytes(parts);
    forall j: nat | j < s.count
      ensures Lengths(parts)(j) == Written(s.files)(FromOldest(s.current, s.count, j))
    {
      assert parts[j] == Payload(s.files[FromOldest(s.current, s.count, j)]);
    }
    Rotation(Written(s.files), Lengths(parts), s.current, s.count);
  }

  lemma RepAccounts(s: Store, base: Header, gens: seq<seq<Block>>, open: bool, files0: seq<File>)
    requires Rep(s, base, gens, open, files0) && Unwritten(files0, s.count)
    ensures forall k | 0 <= k < s.count :: HEADER_SIZE + s.files[k].written <= s.fileSize
    ensures Sum(Written(s.files), 0, s.count) == |OldestFirst(s)| <= s.count * (s.fileSize - HEADER_SIZE)
  {
    forall k | 0 <= k < s.count
      ensures s.files[k].written == |Payload(s.files[k])| && HEADER_SIZE + s.files[k].written <= s.fileSize
    {
      SlotWritten(s, base, gens, open, files0, k);
    }
    PayloadLengths(s);
    SumAtMost(Written(s.files), s.count, s.fileSize - HEADER_SIZE);
  }

  ghost predicate Accounted(t: Store)
    requires t.current < t.count <= |t.files|
  {
    && 1 <= Info(t).number <= Info(t).count == t.count
    && Info(t).total == |OldestFirst(t)| % LONG && Info(t).max == t.fileSize * t.count % LONG
    && HEADER_SIZE <= t.fileSize && |OldestFirst(t)| <= t.count * (t.fileSize - HEADER_SIZE)
    && (t.writing ==> t.files[t.current].pos == t.files[t.current].offset == HEADER_SIZE + t.files[t.current].written)
    && (!t.writing ==> t.files[t.current].pos == t.files[t.current].offset == HEADER_SIZE)
    && forall k | 0 <= k < t.count :: HEADER_SIZE + t.files[k].written <= t.fileSize
  }

  lemma RepAccounted(t: Store, base: Header, gens: seq<seq<Block>>, files0: seq<File>)
    requires Rep(t, base, gens, t.writing, files0) && Unwritten(files0, t.count)
    ensures Accounted(t)
  {
    RepAccounts(t, base, gens, t.writing, files0);
    CurrentHolds(t, base, gens, t.writing, files0);
  }

  /** The accounts of a capture at any moment between two writes. */
  lemma Accounts(s: Store, ring: bool, start: nat, timezone: nat, blocks: seq<Block>)
    requires Opened(s, start, timezone) && Bounded(blocks, s.fileSize)
    ensures var t := Captured(s, ring, start, timezone, blocks);
            t.fileSize == s.fileSize && t.count == s.count && Accounted(t)
  {
    CapturedRep(s, ring, start, timezone, blocks);
    RepAccounted(Captured(s, ring, start, timezone, blocks), BaseHeader(start, timezone),
                 Kept(Pack(blocks, s.fileSize), s.count, ring), s.files);
  }

  // ---------------------------------------------------------------------------------------------
  // The number of the file
  // ---------------------------------------------------------------------------------------------

  /** How many generations reach the files. */
  function Reaching(gens: nat, count: nat, ring: bool): nat { if ring || gens <= count then gens else count }

  /** The file that follows when `more` tells that a generation begins. */
  function Following(current: nat, count: nat, ring: bool, more: bool): nat {
    if !more then current else if current + 1 < count then current + 1 else if ring then 0 else current
  }

  lemma WriteMovesOn(s: Store, base: Header, gens: seq<seq<Block>>, files0: seq<File>, block: Block)
    requires Rep(s, base, gens, true, files0) && |block| < WORD
    ensures WriteBlock(s, block).current
         == Following(s.current, s.count, s.ring, |Extend(gens, block, s.fileSize)| > |gens|)
  {
    GuardIsPacking(s, base, gens, files0, block);
  }

  /** Round and round the files, `n` steps from the first. */
  function Turn(n: nat, count: nat): (k: nat) {
    if n == 0 then 0 else NextFile(Turn(n - 1, count), count)
  }

  lemma {:induction false} TurnIsRemainder(n: nat, count: nat)
    requires 0 < count
    ensures Turn(n, count) == n % count
  {
    if n == 0 {
      ModUnique(0, count, 0, 0);
    } else {
      var before := n - 1;
      TurnIsRemainder(before, count);
      ModAdvances(before, count);
      assert before + 1 == n;
    }
  }

  /** Generation `n`, counted from one, lies in this file when they go round and round. */
  predicate AtFile(current: nat, n: nat, count: nat) { 0 < n && current == Turn(n - 1, count) }

  lemma FollowingIsNext(n: nat, count: nat, ring: bool, current: nat, more: bool)
    requires current < count && Placed(current, count, ring, n - 1) && AtFile(current, n, count)
    ensures AtFile(Following(current, count, ring, more), Reaching(if more then n + 1 else n, count, ring), count)
  {
  }

  lemma OfferMovesOn(s: Store, base: Header, gens: seq<seq<Block>>, files0: seq<File>, block: Block)
    requires Represents(s, base, gens, files0) && gens != [] && |block| < WORD
    requires AtFile(s.current, Reaching(|gens|, s.count, s.ring), s.count)
    ensures AtFile(Offer(s, block).current, Reaching(|Extend(gens, block, s.fileSize)|, s.count, s.ring), s.count)
  {
    if s.writing {
      WriteMovesOn(s, base, gens, files0, block);
      FollowingIsNext(|gens|, s.count, s.ring, s.current, |Extend(gens, block, s.fileSize)| > |gens|);
    }
  }

  /** The files represent these generations, written to them round and round. */
  ghost predicate Turning(t: Store, base: Header, gens: seq<seq<Block>>, files0: seq<File>) {
    && gens != [] && Represents(t, base, gens, files0) && Unwritten(files0, t.count)
    && AtFile(t.current, Reaching(|gens|, t.count, t.ring), t.count)
  }

  lemma OfferTurns(s: Store, base: Header, gens: seq<seq<Block>>, files0: seq<File>, block: Block)
    returns (t: Store, next: seq<seq<Block>>)
    requires Turning(s, base, gens, files0) && HEADER_SIZE + |block| <= s.fileSize && |block| < WORD
    ensures s.current < s.count <= |s.files| && t == Offer(s, block) && next == Extend(gens, block, s.fileSize)
    ensures Turning(t, base, next, files0) && t.fileSize == s.fileSize && t.ring == s.ring
  {
    t, next := Offer(s, block), Extend(gens, block, s.fileSize);
    assert Represents(t, base, next, files0) && t.fileSize == s.fileSize && t.ring == s.ring by {
      OfferKeeps(s, base, gens, files0, block);
    }
    OfferMovesOn(s, base, gens, files0, block);
  }

  /** The generations are written to the files round and round. */
  lemma {:induction false} FeedTurns(s: Store, base: Header, files0: seq<File>, blocks: seq<Block>)
    returns (t: Store, gens: seq<seq<Block>>)
    requires Turning(s, base, [[]], files0) && Bounded(blocks, s.fileSize)
    ensures s.current < s.count <= |s.files| && t == Feed(s, blocks) && gens == Pack(blocks, s.fileSize)
    ensures Turning(t, base, gens, files0) && t.fileSize == s.fileSize && t.ring == s.ring
  {
    if blocks == [] {
      t, gens := s, [[]];
    } else {
      var n := |blocks| - 1;
      t, gens := FeedTurns(s, base, files0, blocks[..n]);
      t, gens := OfferTurns(t, base, gens, files0, blocks[n]);
    }
  }

  /** After this many generations the report names the file being written, of how many, and the mode. */
  predicate Reports(info: FileInfo, gens: nat, count: nat, ring: bool) {
    var reaching := if ring || gens <= count then gens else count;
    && count > 0 && reaching > 0 && info.number == (reaching - 1) % count + 1
    && info.count == count && info.ring == ring
  }

  /** What the report says besides sizes. */
  lemma InfoInNumbers(s: Store, ring: bool, start: nat, timezone: nat, blocks: seq<Block>)
    requires Opened(s, start, timezone) && Bounded(blocks, s.fileSize)
    ensures Reports(Info(Captured(s, ring, start, timezone, blocks)), |Pack(blocks, s.fileSize)|, s.count, ring)
  {
    var began, base := StartTurns(s, ring, start, timezone);
    var t, gens := FeedTurns(began, base, s.files, blocks);
    InfoOf(t, base, gens, s.files);
  }

  lemma StartTurns(s: Store, ring: bool, start: nat, timezone: nat) returns (t: Store, base: Header)
    requires Opened(s, start, timezone)
    ensures t == Start(s, ring, start, timezone) && t.ring == ring && t.fileSize == s.fileSize && t.count == s.count
    ensures Turning(t, base, [[]], s.files)
  {
    t, base := Start(s, ring, start, timezone), BaseHeader(start, timezone);
    StartKeeps(s, ring, start, timezone);
  }

  lemma InfoOf(t: Store, base: Header, gens: seq<seq<Block>>, files0: seq<File>)
    requires Turning(t, base, gens, files0)
    ensures t.current < t.count <= |t.files| && Reports(Info(t), |gens|, t.count, t.ring)
  {
    TurnIsRemainder(Reaching(|gens|, t.count, t.ring) - 1, t.count);
  }

  // ---------------------------------------------------------------------------------------------
  // Exactly when the report is right
  // ---------------------------------------------------------------------------------------------

  predicate Right(t: Store)
    requires t.current < t.count <= |t.files|
  {
    Info(t).total == |OldestFirst(t)| && Info(t).total <= Info(t).max
  }

  function OneByteBlocks(n: nat): (blocks: seq<Block>)
    ensures |blocks| == n && forall b | b in blocks :: |b| == 1
  {
    if n == 0 then [] else OneByteBlocks(n - 1) + [[0]]
  }

  lemma {:induction false} OneByteBlocksBytes(n: nat)
    ensures |Bytes(OneByteBlocks(n))| == n
  {
    if n > 0 {
      OneByteBlocksBytes(n - 1);
      BytesSnoc(OneByteBlocks(n - 1), [0]);
    }
  }

  /** All files but the last are full. */
  ghost predicate Filled(gens: seq<seq<Block>>, cap: nat, n: nat) {
    && gens != []
    && (|gens| - 1) * cap + |Bytes(gens[|gens| - 1])| == n
    && |Bytes(gens[|gens| - 1])| <= cap && (n > 0 ==> |Bytes(gens[|gens| - 1])| > 0)
  }

  lemma {:induction false} OneByteBlocksPack(n: nat, cap: nat, fileSize: nat)
    requires 0 < cap && fileSize == HEADER_SIZE + cap
    ensures Filled(Pack(OneByteBlocks(n), fileSize), cap, n)
  {
    if n == 0 {
      assert Bytes([]) == [];
    } else {
      OneByteBlocksPack(n - 1, cap, fileSize);
      OneMoreByte(Pack(OneByteBlocks(n - 1), fileSize), cap, fileSize, n - 1);
      assert OneByteBlocks(n)[..n - 1] == OneByteBlocks(n - 1);
    }
  }

  lemma OneMoreByte(gens: seq<seq<Block>>, cap: nat, fileSize: nat, n: nat)
    requires 0 < cap && fileSize == HEADER_SIZE + cap && Filled(gens, cap, n)
    ensures Filled(Extend(gens, [0], fileSize), cap, n + 1)
  {
    var last := gens[|gens| - 1];
    BytesSnoc(last, [0]);
    OneBlock([0]);
    OneFileMore(|gens|, cap);
  }

  lemma OneFileMore(count: nat, cap: nat)
    ensures count * cap == (count - 1) * cap + cap
  {
  }

  lemma AtLeast(a: nat, b: nat, c: nat)
    requires b <= a
    ensures b * c <= a * c
  {
  }

  lemma FilledFits(gens: seq<seq<Block>>, cap: nat, n: nat, count: nat)
    requires Filled(gens, cap, n) && 0 < count && 0 < cap && n <= count * cap
    ensures |gens| <= count
  {
    FullFits(|gens| - 1, |Bytes(gens[|gens| - 1])|, cap, n, count);
  }

  lemma FullFits(full: nat, last: nat, cap: nat, n: nat, count: nat)
    requires full * cap + last == n <= count * cap && 0 < cap && 0 < count && (n > 0 ==> last > 0)
    ensures full < count
  {
    if full >= count {
      AtLeast(full, count, cap);
    }
  }

  lemma FilledIsRetained(blocks: seq<Block>, fileSize: nat, count: nat, ring: bool)
    requires |Pack(blocks, fileSize)| <= count
    ensures Bytes(Blocks(Retained(Kept(Pack(blocks, fileSize), count, ring), count))) == Bytes(blocks)
  {
    PackKeepsStream(blocks, fileSize);
    var gens := Pack(blocks, fileSize);
    assert gens[0..] == gens;
  }

  lemma OneByteBlocksFew(n: nat, cap: nat, fileSize: nat, count: nat)
    requires 0 < cap && fileSize == HEADER_SIZE + cap && 0 < count && n <= count * cap
    ensures |Pack(OneByteBlocks(n), fileSize)| <= count
  {
    OneByteBlocksPack(n, cap, fileSize);
    FilledFits(Pack(OneByteBlocks(n), fileSize), cap, n, count);
  }

  lemma OneByteBlocksRetained(n: nat, cap: nat, fileSize: nat, count: nat)
    requires 0 < cap && fileSize == HEADER_SIZE + cap && 0 < count && n <= count * cap
    ensures |Bytes(Blocks(Retained(Kept(Pack(OneByteBlocks(n), fileSize), count, false), count)))| == n
  {
    OneByteBlocksFew(n, cap, fileSize, count);
    FilledIsRetained(OneByteBlocks(n), fileSize, count, false);
    OneByteBlocksBytes(n);
  }

  /** As many bytes as the files have room for are all retained. */
  lemma OneByteBlocksFit(s: Store, start: nat, timezone: nat, n: nat, cap: nat)
    requires Opened(s, start, timezone) && 0 < cap && s.fileSize == HEADER_SIZE + cap && n <= s.count * cap
    ensures Bounded(OneByteBlocks(n), s.fileSize)
    ensures |OldestFirst(Captured(s, false, start, timezone, OneByteBlocks(n)))| == n
  {
    OneByteBlocksRetained(n, cap, s.fileSize, s.count);
    CapturedPayload(s, false, start, timezone, OneByteBlocks(n));
  }

  lemma SmallIsRight(t: Store)
    requires t.current < t.count <= |t.files| && Accounted(t) && t.fileSize * t.count < LONG
    ensures Right(t)
  {
    var max := t.fileSize * t.count;
    assert |OldestFirst(t)| <= max by { LessThanAll(t.fileSize, t.count); }
    InfoIsRight(t, max);
  }

  lemma InfoIsRight(t: Store, max: nat)
    requires t.current < t.count <= |t.files| && Info(t).total == |OldestFirst(t)| % LONG && Info(t).max == max % LONG
    requires |OldestFirst(t)| <= max < LONG
    ensures Right(t)
  {
  }

  lemma LessThanAll(fileSize: nat, count: nat)
    requires HEADER_SIZE <= fileSize
    ensures count * (fileSize - HEADER_SIZE) <= fileSize * count
  {
    assert count * (fileSize - HEADER_SIZE) == count * fileSize - count * HEADER_SIZE;
  }

  lemma LargeIsWrong(t: Store)
    requires t.current < t.count <= |t.files| && Accounted(t)
    requires |OldestFirst(t)| == t.fileSize * t.count % LONG + 1
    ensures !Right(t)
  {
  }

  lemma RoomForOneMore(fileSize: nat, count: nat, cap: nat)
    requires fileSize == HEADER_SIZE + cap && count <= MAX_FILES && LONG <= fileSize * count
    ensures fileSize * count % LONG + 1 <= count * cap
  {
    assert fileSize * count == count * cap + HEADER_SIZE * count;
    var max := fileSize * count;
    assert max % LONG <= max - LONG;
  }

  /** Total and maximum are right in every run exactly if all files together are smaller than 2^64 bytes. */
  lemma ReportIsRightIff(s: Store, start: nat, timezone: nat)
    requires Opened(s, start, timezone) && HEADER_SIZE < s.fileSize && s.count <= MAX_FILES
    ensures s.fileSize * s.count < LONG <==>
            forall ring, blocks | Bounded(blocks, s.fileSize) :: Right(Captured(s, ring, start, timezone, blocks))
  {
    if s.fileSize * s.count < LONG {
      forall ring, blocks | Bounded(blocks, s.fileSize)
        ensures Right(Captured(s, ring, start, timezone, blocks))
      {
        Accounts(s, ring, start, timezone, blocks);
        SmallIsRight(Captured(s, ring, start, timezone, blocks));
      }
    } else {
      var n, cap := s.fileSize * s.count % LONG + 1, s.fileSize - HEADER_SIZE;
      RoomForOneMore(s.fileSize, s.count, cap);
      OneByteBlocksFit(s, start, timezone, n, cap);
      Accounts(s, false, start, timezone, OneByteBlocks(n));
      LargeIsWrong(Captured(s, false, start, timezone, OneByteBlocks(n)));
    }
  }

  // ---------------------------------------------------------------------------------------------
  // The files on disk do not grow past the file size
  // ---------------------------------------------------------------------------------------------

  ghost predicate Inside(files: seq<File>, files0: seq<File>, fileSize: nat) {
    |files| == |files0| && forall k | 0 <= k < |files| ::
      |files0[k].bytes| <= |files[k].bytes| && (|files[k].bytes| <= |files0[k].bytes| || |files[k].bytes| <= fileSize)
  }

  lemma HeaderStaysInside(f: File, h: Header, fileSize: nat)
    requires HEADER_SIZE <= fileSize && (f.offset == 0 ==> f.pos == 0)
    ensures var n := |WithHeader(f, h).bytes|; |f.bytes| <= n && (n <= |f.bytes| || n <= fileSize)
    ensures WithHeader(f, h).pos == HEADER_SIZE
  {
  }

  lemma BlockStaysInside(f: File, block: Block, fileSize: nat)
    requires f.pos + |block| <= fileSize
    ensures var n := |WithBlock(f, block).bytes|; |f.bytes| <= n && (n <= |f.bytes| || n <= fileSize)
  {
  }

  lemma NextStaysInside(s: Store, block: Block)
    requires s.current < |s.files| && HEADER_SIZE + |block| <= s.fileSize
    requires s.files[s.current].offset == 0 ==> s.files[s.current].pos == 0
    ensures Inside(Append(WriteHeader(s, INVALID), block).files, s.files, s.fileSize)
  {
    var f, h := s.files[s.current], s.header.(size := INVALID);
    HeaderStaysInside(f, h, s.fileSize);
    BlockStaysInside(WithHeader(f, h), block, s.fileSize);
  }

  lemma CloseStaysInside(s: Store)
    requires s.current < |s.files| && HEADER_SIZE <= s.fileSize
    requires s.files[s.current].offset == 0 ==> s.files[s.current].pos == 0
    ensures Inside(CloseCurrent(s).files, s.files, s.fileSize)
  {
    HeaderStaysInside(s.files[s.current], s.header.(size := PayloadSize(s)), s.fileSize);
  }

  lemma InsideChains(a: seq<File>, b: seq<File>, c: seq<File>, fileSize: nat)
    requires Inside(b, a, fileSize) && Inside(c, b, fileSize)
    ensures Inside(c, a, fileSize)
  {
  }

  lemma RotateStaysInside(s: Store, base: Header, gens: seq<seq<Block>>, files0: seq<File>, block: Block)
    requires Rep(s, base, gens, false, files0) && Unwritten(files0, s.count) && HEADER_SIZE + |block| <= s.fileSize
    ensures Inside(ToNextFile(s, block).files, s.files, s.fileSize)
  {
    if s.current + 1 < s.count || s.ring {
      var next := NextFile(s.current, s.count);
      NextIsUnopened(s, base, gens, files0, next);
      NextStaysInside(s.(current := next), block);
    }
  }

  lemma WriteStaysInside(s: Store, base: Header, gens: seq<seq<Block>>, files0: seq<File>, block: Block)
    requires Rep(s, base, gens, true, files0) && Unwritten(files0, s.count)
    requires HEADER_SIZE + |block| <= s.fileSize && |block| < WORD
    ensures Inside(WriteBlock(s, block).files, s.files, s.fileSize)
  {
    CurrentHolds(s, base, gens, true, files0);
    GuardIsPacking(s, base, gens, files0, block);
    if NeedsNext(s, block) {
      NextFileStaysInside(s, base, gens, files0, block);
    } else {
      BlockStaysInside(s.files[s.current], block, s.fileSize);
    }
  }

  lemma NextFileStaysInside(s: Store, base: Header, gens: seq<seq<Block>>, files0: seq<File>, block: Block)
    requires Rep(s, base, gens, true, files0) && Unwritten(files0, s.count) && HEADER_SIZE + |block| <= s.fileSize
    ensures Inside(ToNextFile(CloseCurrent(s), block).files, s.files, s.fileSize)
  {
    var closed := CloseCurrent(s);
    assert Inside(closed.files, s.files, s.fileSize) by {
      CurrentHolds(s, base, gens, true, files0);
      CloseStaysInside(s);
    }
    CloseKeeps(s, base, gens, files0);
    RotateStaysInside(closed, base, gens, files0, block);
    InsideChains(s.files, closed.files, ToNextFile(closed, block).files, s.fileSize);
  }

  lemma OfferStaysInside(s: Store, base: Header, gens: seq<seq<Block>>, files0: seq<File>, block: Block)
    requires s.writing ==> Rep(s, base, gens, true, files0)
    requires s.current < s.count <= |s.files| && Unwritten(files0, s.count) && HEADER_SIZE + |block| <= s.fileSize && |block| < WORD
    ensures Inside(Offer(s, block).files, s.files, s.fileSize)
  {
    if s.writing {
      WriteStaysInside(s, base, gens, files0, block);
    }
  }

  lemma {:induction false} CaptureStaysInside(s: Store, ring: bool, start: nat, timezone: nat, blocks: seq<Block>)
    requires Opened(s, start, timezone) && Bounded(blocks, s.fileSize)
    ensures Inside(Captured(s, ring, start, timezone, blocks).files, s.files, s.fileSize)
  {
    if blocks != [] {
      var n := |blocks| - 1;
      var t := Captured(s, ring, start, timezone, blocks[..n]);
      CaptureStaysInside(s, ring, start, timezone, blocks[..n]);
      CapturedRep(s, ring, start, timezone, blocks[..n]);
      OfferStaysInside(t, BaseHeader(start, timezone), Kept(Pack(blocks[..n], s.fileSize), s.count, ring), s.files, blocks[n]);
      InsideChains(s.files, t.files, Offer(t, blocks[n]).files, s.fileSize);
    }
  }

  // ---------------------------------------------------------------------------------------------
  // The 64-bit guard
  // ---------------------------------------------------------------------------------------------

  predicate GuardIsExact(fileSize: nat, offset: nat, n: nat) {
    (offset + n) % LONG > fileSize <==> offset + n > fileSize
  }

  /** For blocks below 2^32 bytes the 64-bit sum never deceives the guard exactly if the file size leaves them room. */
  lemma GuardIsExactIff(fileSize: nat)
    requires fileSize < LONG
    ensures fileSize + WORD <= LONG <==>
            forall offset, n | 0 <= offset <= fileSize && 0 <= n < WORD :: GuardIsExact(fileSize, offset, n)
  {
    if fileSize + WORD > LONG {
      assert !GuardIsExact(fileSize, fileSize, LONG - fileSize);
    }
  }
}
