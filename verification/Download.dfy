/**
Downloading a file to the device: a request, the file in blocks under a running checksum, and an
abort when the device refuses anything.
*/
module Download {
  import opened Words
  import opened Crc32
  import opened DownloadCursor

  datatype Packet =
    | Request(id: nat, length: nat, maxBlock: nat)
    | Data(id: nat, mark: Mark, block: seq<bv8>, checksum: bv32, number: nat)
    | Abort(id: nat)

  /** What came of transferring one packet: driver result, and status and block size of the confirmation. */
  datatype Answer = Answer(transfer: int, status: int, maxBlock: nat)

  const NO_ERROR := 0
  /** NETANA_DOWNLOAD_FAILED, 0x80210005 as a signed word. */
  const DOWNLOAD_FAILED := -0x7fde_fffb

  predicate Accepted(a: Answer) { a.transfer == NO_ERROR && a.status == NO_ERROR }

  function ErrorOf(a: Answer): int { if a.transfer != NO_ERROR then a.transfer else a.status }

  /**
  One download: the file, what memory holds behind it, the block size the mailbox allows, and what
  comes of the i-th packet, whatever the device has seen before.
  */
  datatype Job = Job(file: seq<bv8>, beyond: nat -> bv8, maxBlock: nat, device: nat -> Answer) {
    /** The device may ask for smaller blocks. */
    function Size(): nat { Min(maxBlock, device(0).maxBlock) }

    predicate Valid() { 0 < maxBlock < WORD }
  }

  // ---------------------------------------------------------------------------------------------
  // Reference: the data packets, at every place the cursor comes to
  // ---------------------------------------------------------------------------------------------

  /** Memory from the start of the file. */
  function ByteAt(j: Job, k: nat): bv8 {
    if k < |j.file| then j.file[k] else j.beyond(k - |j.file|)
  }

  function Window(j: Job, at: nat, len: nat): (block: seq<bv8>)
    ensures |block| == len
  {
    seq(len, k requires 0 <= k < len => ByteAt(j, at + k))
  }

  lemma WindowAt(j: Job, at: nat, len: nat, k: nat)
    requires k < len && at + len <= |j.file|
    ensures Window(j, at, len)[k] == j.file[at..at + len][k]
  {
    assert Window(j, at, len)[k] == ByteAt(j, at + k);
  }

  lemma WindowInside(j: Job, at: nat, len: nat)
    requires at + len <= |j.file|
    ensures Window(j, at, len) == j.file[at..at + len]
  {
    forall k | 0 <= k < len ensures Window(j, at, len)[k] == j.file[at..at + len][k] { WindowAt(j, at, len, k); }
  }

  function Place(j: Job, i: nat): Cursor { CursorAt(|j.file|, j.Size(), i) }

  function Block(j: Job, i: nat): seq<bv8> { Window(j, Place(j, i).offset, Place(j, i).sendLen) }

  /** The checksum over the first `n` blocks, continued from block to block. */
  function Running(j: Job, n: nat): bv32 {
    if n == 0 then 0 else Checksum(Running(j, n - 1), Block(j, n - 1))
  }

  function DataPacket(j: Job, i: nat): Packet {
    Data((i + 2) % WORD, Place(j, i).mark, Block(j, i), Running(j, i + 1), i % WORD)
  }

  /** The first `n` data packets. */
  function DataPackets(j: Job, n: nat): (packets: seq<Packet>)
    ensures |packets| == n
  {
    if n == 0 then [] else DataPackets(j, n - 1) + [DataPacket(j, n - 1)]
  }

  function Opening(j: Job): Packet { Request(1, |j.file| % WORD, j.maxBlock) }

  function Sent(j: Job, n: nat): seq<Packet> { [Opening(j)] + DataPackets(j, n) }

  lemma OneMoreSent(j: Job, n: nat)
    ensures Sent(j, n) + [DataPacket(j, n)] == Sent(j, n + 1)
  {
    assert DataPackets(j, n + 1) == DataPackets(j, n) + [DataPacket(j, n)];
  }

  // ---------------------------------------------------------------------------------------------
  // How a download goes
  // ---------------------------------------------------------------------------------------------

  /** The device has accepted the request and `n` data packets, and none of these was the last. */
  ghost predicate Continues(j: Job, n: nat) {
    j.Size() > 0 && (forall i: nat | i <= n :: Accepted(j.device(i))) && NoneFinal(|j.file|, j.Size(), n)
  }

  /** The device accepted everything up to the last block, the n-th; nothing else went out. */
  ghost predicate Succeeded(j: Job, sent: seq<Packet>, n: nat) {
    && n > 0 && Continues(j, n - 1) && Accepted(j.device(n)) && IsFinal(Place(j, n - 1).mark)
    && sent == Sent(j, n)
  }

  /** The device refused the request, or the n-th data packet; nothing followed but one abort. */
  ghost predicate Refused(j: Job, sent: seq<Packet>, n: nat, result: int) {
    if n == 0 then
      && (!Accepted(j.device(0)) || j.device(0).maxBlock == 0)
      && result == (if Accepted(j.device(0)) then DOWNLOAD_FAILED else ErrorOf(j.device(0)))
      && sent == [Opening(j), Abort(2)]
    else
      && Continues(j, n - 1) && !Accepted(j.device(n)) && result == ErrorOf(j.device(n))
      && sent == Sent(j, n) + [Abort((n + 2) % WORD)]
  }

  /** The device refuses something, asks for empty blocks, or the length lets the walk end. */
  ghost predicate Stops(j: Job) {
    || (exists n: nat :: !Accepted(j.device(n)))
    || j.Size() == 0
    || Ends(|j.file|, j.Size())
  }

  /** The loop goes on for ever exactly if none of these is the case. */
  lemma StopsIff(j: Job)
    requires j.Valid()
    ensures Stops(j) <==> exists n: nat :: !Continues(j, n)
  {
    var size := j.Size();
    if n: nat :| !Accepted(j.device(n)) {
      assert !Continues(j, n);
    } else if size == 0 {
      assert !Continues(j, 0);
    } else {
      EndsIff(|j.file|, size);
      if Ends(|j.file|, size) {
        var i: nat :| IsFinal(CursorAt(|j.file|, size, i).mark);
        assert !Continues(j, i + 1);
      } else {
        GoesOn(j);
      }
    }
  }

  lemma GoesOn(j: Job)
    requires j.Size() > 0 && (forall i: nat :: Accepted(j.device(i)))
    requires forall i: nat :: !IsFinal(CursorAt(|j.file|, j.Size(), i).mark)
    ensures forall n: nat :: Continues(j, n)
  {
  }

  /** An accepting device that asks for blocks of 1536 bytes, and a file of 2^32 - 1 bytes: no packet is the last. */
  lemma EndlessDownload(j: Job, n: nat)
    requires |j.file| == WORD - 1 && j.Size() == 1536 && forall i: nat :: Accepted(j.device(i))
    ensures Continues(j, n)
  {
    var length, size := |j.file|, j.Size();
    forall i: nat ensures !IsFinal(CursorAt(length, size, i).mark) { EndlessWalk(i); }
  }

  // ---------------------------------------------------------------------------------------------
  // The download itself
  // ---------------------------------------------------------------------------------------------

  datatype DownloadState = RequestState | DataState | AbortState

  /** `n` data packets sent and accepted, the cursor on the next. */
  ghost predicate Sending(j: Job, sent: seq<Packet>, n: nat, id: nat, cursor: Cursor, checksum: bv32) {
    && Continues(j, n) && sent == Sent(j, n)
    && id == (n + 1) % WORD && cursor == Place(j, n) && checksum == Running(j, n)
  }

  ghost predicate Aborting(j: Job, sent: seq<Packet>, n: nat, id: nat, result: int) {
    id == (n + 1) % WORD && Refused(j, sent + [Abort((n + 2) % WORD)], n, result)
  }

  lemma NextId(n: nat)
    ensures ((n + 1) % WORD + 1) % WORD == (n + 2) % WORD
  {
  }

  lemma Opened(j: Job)
    requires j.Valid()
    ensures var sent := [Opening(j)];
            if !Accepted(j.device(0)) then Aborting(j, sent, 0, 1, ErrorOf(j.device(0)))
            else if j.device(0).maxBlock == 0 then Aborting(j, sent, 0, 1, DOWNLOAD_FAILED)
            else Sending(j, sent, 0, 1, FirstCursor(|j.file|, j.Size()), 0)
  {
    assert [Opening(j)] + [] == [Opening(j)];
  }

  /** One data packet: the block the cursor stands on, under the checksum of everything so far. */
  method SendBlock(j: Job, sent: seq<Packet>, n: nat, id: nat, c: Cursor, checksum: bv32)
    returns (sent': seq<Packet>, id': nat, checksum': bv32)
    requires Sending(j, sent, n, id, c, checksum)
    ensures sent' == Sent(j, n + 1) && id' == (n + 2) % WORD && checksum' == Running(j, n + 1)
  {
    NextId(n);
    OneMoreSent(j, n);
    id' := (id + 1) % WORD;
    var block := Window(j, c.offset, c.sendLen);
    checksum' := CreateCRC32(checksum, block);
    sent' := sent + [Data(id', c.mark, block, checksum', n % WORD)];
  }

  /** The answer to a data packet: abort, end, or the next block. */
  lemma PacketAnswered(j: Job, n: nat)
    requires Continues(j, n)
    ensures !Accepted(j.device(n + 1)) ==> Aborting(j, Sent(j, n + 1), n + 1, (n + 2) % WORD, ErrorOf(j.device(n + 1)))
    ensures Accepted(j.device(n + 1)) && IsFinal(Place(j, n).mark) ==> Succeeded(j, Sent(j, n + 1), n + 1)
    ensures Accepted(j.device(n + 1)) && !IsFinal(Place(j, n).mark) ==>
              Sending(j, Sent(j, n + 1), n + 1, (n + 2) % WORD, NextCursor(|j.file|, Place(j, n)), Running(j, n + 1))
  {
    assert Place(j, n + 1) == NextCursor(|j.file|, Place(j, n));
  }

  /** The next data packet, and what its answer leads to. */
  method SendData(j: Job, sent: seq<Packet>, n: nat, id: nat, c: Cursor, checksum: bv32)
    returns (sent': seq<Packet>, id': nat, c': Cursor, checksum': bv32, result: int, stop: bool)
    requires Sending(j, sent, n, id, c, checksum)
    ensures result != NO_ERROR ==> !stop && Aborting(j, sent', n + 1, id', result)
    ensures result == NO_ERROR && stop ==> Succeeded(j, sent', n + 1)
    ensures result == NO_ERROR && !stop ==> Sending(j, sent', n + 1, id', c', checksum')
  {
    sent', id', checksum' := SendBlock(j, sent, n, id, c, checksum);
    PacketAnswered(j, n);
    c', stop := c, false;
    result := ErrorOf(j.device(n + 1));
    if result == NO_ERROR {
      if IsFinal(c.mark) {
        stop := true;
      } else {
        c' := NextCursor(|j.file|, c);
      }
    }
  }

  /** The request, and what its answer leads to. */
  method SendRequest(j: Job) returns (sent: seq<Packet>, id: nat, result: int, cursor: Cursor)
    requires j.Valid()
    ensures result != NO_ERROR ==> Aborting(j, sent, 0, id, result)
    ensures result == NO_ERROR ==> Sending(j, sent, 0, id, cursor, 0)
  {
    Opened(j);
    cursor := Cursor(0, 0, 0, Alone);
    id := 1;
    sent := [Request(id, |j.file| % WORD, j.maxBlock)];
    var answer := j.device(0);
    result := ErrorOf(answer);
    if result == NO_ERROR {
      if answer.maxBlock == 0 {
        result := DOWNLOAD_FAILED;
      } else {
        cursor := FirstCursor(|j.file|, Min(j.maxBlock, answer.maxBlock));
      }
    }
  }

  method SendAbort(j: Job, sent: seq<Packet>, n: nat, id: nat, result: int) returns (sent': seq<Packet>, id': nat)
    requires Aborting(j, sent, n, id, result)
    ensures Refused(j, sent', n, result)
  {
    NextId(n);
    id' := (id + 1) % WORD;
    sent' := sent + [Abort(id')];
  }

  /** Every download that stops: a file sent, or the error of the packet refused and one abort. */
  method DownloadFile(j: Job) returns (result: int, sent: seq<Packet>)
    requires j.Valid() && Stops(j)
    ensures result == NO_ERROR ==> exists n: nat :: Succeeded(j, sent, n)
    ensures result != NO_ERROR ==> exists n: nat :: Refused(j, sent, n, result)
  {
    var state := RequestState;
    var cursor := Cursor(0, 0, 0, Alone);
    var checksum: bv32 := 0;
    var number: nat, id: nat := 0, 0;
    var stop := false;
    StopsIff(j);
    ghost var end: nat :| !Continues(j, end);
    sent, result := [], NO_ERROR;
    while !stop
      invariant state == RequestState ==> !stop && number == 0 && checksum == 0
      invariant state == DataState ==> result == NO_ERROR
      invariant state == DataState && !stop ==> Sending(j, sent, number, id, cursor, checksum)
      invariant state == DataState && stop ==> Succeeded(j, sent, number)
      invariant state == AbortState ==> result != NO_ERROR
      invariant state == AbortState && !stop ==> Aborting(j, sent, number, id, result)
      invariant state == AbortState && stop ==> Refused(j, sent, number, result)
      decreases !stop, if state == RequestState then 2 else if state == DataState then 1 else 0, end - number
    {
      match state {
        case RequestState =>
          sent, id, result, cursor := SendRequest(j);
          state := if result != NO_ERROR then AbortState else DataState;

        case DataState =>
          StillBefore(j, number, end);
          sent, id, cursor, checksum, result, stop := SendData(j, sent, number, id, cursor, checksum);
          number := number + 1;
          state := if result != NO_ERROR then AbortState else DataState;

        case AbortState =>
          sent, id := SendAbort(j, sent, number, id, result);
          stop := true;
      }
    }
  }

  lemma StillBefore(j: Job, n: nat, end: nat)
    requires Continues(j, n) && !Continues(j, end)
    ensures n < end
  {
  }

  // ---------------------------------------------------------------------------------------------
  // What the packets carry
  // ---------------------------------------------------------------------------------------------

  /** The file content in a series of packets. */
  function Joined(packets: seq<Packet>): seq<bv8> {
    if packets == [] then [] else
      Joined(packets[..|packets| - 1]) + (var p := packets[|packets| - 1]; if p.Data? then p.block else [])
  }

  lemma JoinedSnoc(j: Job, n: nat)
    ensures Joined(DataPackets(j, n + 1)) == Joined(DataPackets(j, n)) + Block(j, n)
  {
    assert DataPackets(j, n + 1)[..n] == DataPackets(j, n);
  }

  lemma {:induction false} JoinedSkips(p: Packet, packets: seq<Packet>)
    requires !p.Data?
    ensures Joined([p] + packets) == Joined(packets)
    decreases |packets|
  {
    if packets == [] {
      assert [p] + packets == [p];
    } else {
      var n := |packets|;
      assert ([p] + packets)[..n] == [p] + packets[..n - 1];
      JoinedSkips(p, packets[..n - 1]);
    }
  }

  lemma {:induction false} PacketsAt(j: Job, n: nat, i: nat)
    requires i < n
    ensures DataPackets(j, n)[i] == DataPacket(j, i)
  {
    SnocAt(DataPackets(j, n - 1), DataPacket(j, n - 1), i);
    if i < n - 1 {
      PacketsAt(j, n - 1, i);
    }
  }

  lemma SnocAt<T>(s: seq<T>, x: T, i: nat)
    requires i <= |s|
    ensures (s + [x])[i] == if i < |s| then s[i] else x
  {
  }

  /** The checksum of a packet covers everything sent up to its end, for every file. */
  lemma {:induction false} ChecksumCoversSent(j: Job, n: nat)
    ensures Running(j, n) == Checksum(0, Joined(DataPackets(j, n)))
  {
    if n == 0 {
      assert Checksum(0, []) == 0 by { TwiceOnes(0); }
    } else {
      ChecksumCoversSent(j, n - 1);
      JoinedSnoc(j, n - 1);
      ChecksumAppend(0, Joined(DataPackets(j, n - 1)), Block(j, n - 1));
    }
  }

  /** Of a file that fits, the first `n` blocks are the file up to where the n-th ends, and its checksum covers just that. */
  lemma PacketsRejoin(j: Job, n: nat)
    requires 0 < j.Size() < WORD && Fits(|j.file|, j.Size()) && 0 < n <= Blocks(|j.file|, j.Size())
    ensures End(|j.file|, j.Size(), n - 1) <= |j.file|
    ensures Joined(DataPackets(j, n)) == j.file[..End(|j.file|, j.Size(), n - 1)]
    ensures DataPackets(j, n)[n - 1].Data?
    ensures DataPackets(j, n)[n - 1].checksum == Checksum(0, j.file[..End(|j.file|, j.Size(), n - 1)])
  {
    BlocksRejoin(j, n - 1);
    ChecksumCoversSent(j, n);
  }

  lemma {:induction false} BlocksRejoin(j: Job, i: nat)
    requires 0 < j.Size() < WORD && Fits(|j.file|, j.Size()) && i < Blocks(|j.file|, j.Size())
    ensures End(|j.file|, j.Size(), i) <= |j.file|
    ensures Joined(DataPackets(j, i + 1)) == j.file[..End(|j.file|, j.Size(), i)]
  {
    var length, size := |j.file|, j.Size();
    BlockInside(j, i);
    if i > 0 {
      BlocksRejoin(j, i - 1);
      EndIsNext(length, size, i - 1);
    }
    RejoinStep(j, i, i * size, End(length, size, i));
  }

  lemma RejoinStep(j: Job, i: nat, start: nat, end: nat)
    requires start <= end <= |j.file|
    requires Joined(DataPackets(j, i)) == j.file[..start] && Block(j, i) == j.file[start..end]
    ensures Joined(DataPackets(j, i + 1)) == j.file[..end]
  {
    JoinedSnoc(j, i);
    assert j.file[..end] == j.file[..start] + j.file[start..end];
  }

  lemma EndIsNext(length: nat, size: nat, i: nat)
    requires 0 < size && i + 1 < Blocks(length, size)
    ensures End(length, size, i) == (i + 1) * size
  {
    if length > size {
      BlockBounds(length, size, i);
    }
  }

  /** Block i of a file that fits. */
  lemma BlockInside(j: Job, i: nat)
    requires 0 < j.Size() < WORD && Fits(|j.file|, j.Size()) && i < Blocks(|j.file|, j.Size())
    ensures i * j.Size() <= End(|j.file|, j.Size(), i) <= |j.file|
    ensures Block(j, i) == j.file[i * j.Size()..End(|j.file|, j.Size(), i)]
  {
    var start, end := i * j.Size(), End(|j.file|, j.Size(), i);
    CursorIsExact(|j.file|, j.Size(), i);
    WindowInside(j, start, end - start);
  }

  /** How many bytes went out before the last block. */
  lemma {:induction false} JoinedLength(j: Job, n: nat)
    requires 0 < j.Size() < WORD && j.Size() < |j.file| && NoneFinal(|j.file|, j.Size(), n)
    ensures |Joined(DataPackets(j, n))| == n * j.Size()
  {
    if n > 0 {
      JoinedLength(j, n - 1);
      JoinedStep(j, n - 1);
    }
  }

  lemma JoinedStep(j: Job, i: nat)
    requires 0 < j.Size() < WORD && j.Size() < |j.file| && NoneFinal(|j.file|, j.Size(), i + 1)
    requires |Joined(DataPackets(j, i))| == i * j.Size()
    ensures |Joined(DataPackets(j, i + 1))| == (i + 1) * j.Size()
  {
    FullBlock(|j.file|, j.Size(), i);
    OneMoreBlock(j, i);
  }

  lemma OneMoreBlock(j: Job, i: nat)
    requires |Block(j, i)| == j.Size() && |Joined(DataPackets(j, i))| == i * j.Size()
    ensures |Joined(DataPackets(j, i + 1))| == (i + 1) * j.Size()
  {
    JoinedSnoc(j, i);
    Distribute(i, 1, j.Size());
  }

  lemma FullBlock(length: nat, size: nat, i: nat)
    requires 0 < size < WORD && size < length && NoneFinal(length, size, i + 1)
    ensures CursorAt(length, size, i).sendLen == size
  {
    Walk(length, size, i);
    assert !IsFinal(CursorAt(length, size, i).mark);
  }

  /** A last block that is reached although the file does not fit comes after at least 4 GiB. */
  lemma LastComesLate(length: nat, size: nat, n: nat)
    requires 0 < size < WORD && !Fits(length, size)
    requires NoneFinal(length, size, n) && IsFinal(CursorAt(length, size, n).mark)
    ensures n * size >= WORD > length
  {
    var sent, next := n * size, (n + 1) * size;
    assert sent % WORD < length <= next % WORD by { Walk(length, size, n); }
    if sent < WORD {
      EarlyLast(length, size, n, sent, next);
    }
  }

  lemma EarlyLast(length: nat, size: nat, n: nat, sent: nat, next: nat)
    requires 0 < size < WORD && size < length && sent == n * size && next == (n + 1) * size
    requires sent % WORD < length <= next % WORD && sent < WORD
    ensures Fits(length, size)
  {
    assert sent % WORD == sent;
    EarlyLastFits(length, size, n, sent);
  }

  lemma EarlyLastFits(length: nat, size: nat, n: nat, sent: nat)
    requires 0 < size < WORD && sent == n * size < WORD && size < length
    requires sent < length <= (n + 1) * size % WORD
    ensures Fits(length, size)
  {
    var next := (n + 1) * size;
    assert next == sent + size by { Distribute(n, 1, size); }
    NoWrap(length, size, sent);
    BlocksAreLeast(length, size, n + 1);
  }

  lemma NoWrap(length: nat, size: nat, sent: nat)
    requires size < WORD && sent < WORD && sent < length <= (sent + size) % WORD
    ensures (sent + size) % WORD == sent + size
  {
  }

  /** On success the blocks sent concatenate to the file if and only if it fits the 32-bit walk. */
  lemma SuccessDelivers(j: Job, sent: seq<Packet>, n: nat)
    requires j.Valid() && Succeeded(j, sent, n)
    ensures Joined(sent) == j.file <==> Fits(|j.file|, j.Size())
    ensures Fits(|j.file|, j.Size()) ==> n == Blocks(|j.file|, j.Size())
  {
    JoinedSkips(Opening(j), DataPackets(j, n));
    if Fits(|j.file|, j.Size()) {
      AllDelivered(j, n);
    } else {
      MoreDelivered(j, n);
    }
  }

  lemma AllDelivered(j: Job, n: nat)
    requires 0 < j.Size() < WORD && Fits(|j.file|, j.Size()) && n > 0
    requires NoneFinal(|j.file|, j.Size(), n - 1) && IsFinal(Place(j, n - 1).mark)
    ensures n == Blocks(|j.file|, j.Size()) && Joined(DataPackets(j, n)) == j.file
  {
    var length := |j.file|;
    LastIsTheLast(length, j.Size(), n);
    PacketsRejoin(j, n);
    assert End(length, j.Size(), n - 1) == length by { BlocksCover(length, j.Size()); }
    assert j.file[..length] == j.file;
  }

  /** Of a file that does not fit, 4 GiB and more went out before the last block. */
  lemma MoreDelivered(j: Job, n: nat)
    requires 0 < j.Size() < WORD && !Fits(|j.file|, j.Size()) && n > 0
    requires NoneFinal(|j.file|, j.Size(), n - 1) && IsFinal(Place(j, n - 1).mark)
    ensures |Joined(DataPackets(j, n))| > |j.file|
  {
    var length, size, before := |j.file|, j.Size(), Joined(DataPackets(j, n - 1));
    assert size < length;
    assert |before| >= WORD > length by {
      JoinedLength(j, n - 1);
      LastComesLate(length, size, n - 1);
    }
    JoinedSnoc(j, n - 1);
  }

  lemma LastIsTheLast(length: nat, size: nat, n: nat)
    requires 0 < size < WORD && Fits(length, size) && n > 0
    requires NoneFinal(length, size, n - 1) && IsFinal(CursorAt(length, size, n - 1).mark)
    ensures n == Blocks(length, size)
  {
    var last := Blocks(length, size);
    BlocksCover(length, size);
    assert last < n ==> !IsFinal(CursorAt(length, size, last - 1).mark);
    CursorIsExact(length, size, last - 1);
    if n <= last {
      CursorIsExact(length, size, n - 1);
    }
  }

  /**
  The marks of a success are one ALONE, or FIRST, MIDDLEs and LAST; no block exceeds the negotiated
  size, and none is empty unless the file is; this holds whether the file fits or not.
  */
  lemma SuccessIsWellFormed(j: Job, sent: seq<Packet>, n: nat)
    requires j.Valid() && Succeeded(j, sent, n)
    ensures |sent| == n + 1 && sent[0] == Opening(j)
    ensures forall i: nat | 0 < i <= n ::
              && sent[i].Data? && |sent[i].block| <= j.Size() && (sent[i].block == [] ==> j.file == [])
              && sent[i].mark == if n == 1 then Alone else if i == 1 then First else if i == n then Last else Middle
  {
    forall i: nat | 0 < i <= n
      ensures sent[i].Data? && |sent[i].block| <= j.Size() && (sent[i].block == [] ==> j.file == [])
      ensures sent[i].mark == if n == 1 then Alone else if i == 1 then First else if i == n then Last else Middle
    {
      PacketsAt(j, n, i - 1);
      assert sent[i] == DataPacket(j, i - 1);
      ShapeAt(|j.file|, j.Size(), n, i - 1);
    }
  }

  lemma ShapeAt(length: nat, size: nat, n: nat, i: nat)
    requires 0 < size < WORD && i < n && NoneFinal(length, size, n - 1) && IsFinal(CursorAt(length, size, n - 1).mark)
    ensures var c := CursorAt(length, size, i);
            && c.sendLen <= size && (c.sendLen == 0 ==> length == 0)
            && c.mark == (if n == 1 then Alone else if i == 0 then First else if i + 1 == n then Last else Middle)
  {
    assert i + 1 < n ==> !IsFinal(CursorAt(length, size, i).mark);
    MarkByPlace(length, size, i);
    if length <= size {
      assert n > 1 ==> !IsFinal(CursorAt(length, size, 0).mark);
    } else {
      assert NoneFinal(length, size, i);
      LengthByPlace(length, size, i);
    }
  }

  lemma MarkByPlace(length: nat, size: nat, i: nat)
    ensures var m := CursorAt(length, size, i).mark;
            if i > 0 then m == Last || m == Middle else m == if length <= size then Alone else First
  {
  }

  lemma LengthByPlace(length: nat, size: nat, i: nat)
    requires 0 < size < WORD && size < length && NoneFinal(length, size, i)
    ensures 0 < CursorAt(length, size, i).sendLen <= size
  {
    Walk(length, size, i);
    Distribute(i, 1, size);
    AddWords(i * size, size);
    if IsFinal(CursorAt(length, size, i).mark) {
      LastStep(length, size, i * size % WORD);
    }
  }

  lemma SentAt(j: Job, n: nat, i: nat)
    requires 0 < i <= n
    ensures Sent(j, n)[i] == DataPacket(j, i - 1)
  {
    var packets := DataPackets(j, n);
    PacketsAt(j, n, i - 1);
    assert ([Opening(j)] + packets)[i] == packets[i - 1];
  }

  lemma BlockLengths(j: Job, n: nat, i: nat)
    requires 0 < j.Size() < WORD && i < n && NoneFinal(|j.file|, j.Size(), n - 1) && IsFinal(Place(j, n - 1).mark)
    ensures |Block(j, i)| <= j.maxBlock && |Block(j, i)| <= j.device(0).maxBlock
    ensures i + 1 < n ==> |Block(j, i)| == j.maxBlock || |Block(j, i)| == j.device(0).maxBlock
  {
    ShapeAt(|j.file|, j.Size(), n, i);
    if i + 1 < n {
      FullBefore(|j.file|, j.Size(), n - 1, i);
    }
  }

  /**
  A success in plain numbers: the request gives length and block size, ids and block numbers count up
  modulo 2^32, no block is larger than what the mailbox or the device allows, and all but the last are
  as large as that.
  */
  lemma SuccessInNumbers(j: Job, sent: seq<Packet>, n: nat)
    requires j.Valid() && Succeeded(j, sent, n)
    ensures |sent| == n + 1 && sent[0] == Request(1, |j.file| % 0x1_0000_0000, j.maxBlock)
    ensures forall i: nat | i <= n :: j.device(i).transfer == 0 && j.device(i).status == 0
    ensures forall i: nat | 0 < i <= n ::
              && sent[i].Data? && sent[i].id == (i + 1) % 0x1_0000_0000 && sent[i].number == (i - 1) % 0x1_0000_0000
              && |sent[i].block| <= j.maxBlock && |sent[i].block| <= j.device(0).maxBlock
              && (i < n ==> |sent[i].block| == j.maxBlock || |sent[i].block| == j.device(0).maxBlock)
  {
    forall i: nat | 0 < i <= n
      ensures sent[i].Data? && sent[i].id == (i + 1) % 0x1_0000_0000 && sent[i].number == (i - 1) % 0x1_0000_0000
      ensures |sent[i].block| <= j.maxBlock && |sent[i].block| <= j.device(0).maxBlock
      ensures i < n ==> |sent[i].block| == j.maxBlock || |sent[i].block| == j.device(0).maxBlock
    {
      SentAt(j, n, i);
      BlockLengths(j, n, i - 1);
    }
  }

  lemma FullBefore(length: nat, size: nat, n: nat, i: nat)
    requires 0 < size < WORD && i < n && NoneFinal(length, size, n)
    ensures CursorAt(length, size, i).sendLen == size
  {
    assert !IsFinal(CursorAt(length, size, 0).mark);
    FullBlock(length, size, i);
  }

  /** A refusal in plain numbers: what went out, which answer ended it, and the result. */
  lemma RefusalInNumbers(j: Job, sent: seq<Packet>, n: nat, result: int)
    requires j.Valid() && Refused(j, sent, n, result)
    ensures |sent| == n + 2 && sent[0] == Request(1, |j.file| % 0x1_0000_0000, j.maxBlock)
    ensures sent[n + 1] == Abort((n + 2) % 0x1_0000_0000)
    ensures forall i: nat | 0 < i <= n ::
              && sent[i].Data? && sent[i].id == (i + 1) % 0x1_0000_0000 && sent[i].number == (i - 1) % 0x1_0000_0000
    ensures forall i: nat | i < n :: j.device(i).transfer == 0 && j.device(i).status == 0
    ensures var a := j.device(n);
            if a.transfer != 0 then result == a.transfer
            else if a.status != 0 then result == a.status
            else n == 0 && a.maxBlock == 0 && result == -0x7fde_fffb
  {
    forall i: nat | 0 < i <= n
      ensures sent[i].Data? && sent[i].id == (i + 1) % 0x1_0000_0000 && sent[i].number == (i - 1) % 0x1_0000_0000
    {
      SentAt(j, n, i);
      assert sent[i] == Sent(j, n)[i];
    }
  }
}
