/**
A whole capture session written to files: what the driver took out of the DMA ring, block by block,
through the toolkit's file code, and back from the disk after the stop.
*/
module CaptureToFile {
  import opened Words
  import C = Capture
  import CaptureInvariant
  import CaptureTheorems
  import opened CaptureFiles
  import opened CaptureFilesTheorems
  import opened CaptureFilesOnDisk

  /** `netana_tkit_process` on one buffer: an illegal size ends writing, any other block is written. */
  function Record(s: Store, o: C.Outcome): (t: Store)
    requires s.current < s.count <= |s.files|
    ensures t.current < t.count == s.count && |t.files| == |s.files|
  {
    if o.Rejected? then Reject(s) else Offer(s, o.block)
  }

  function RecordAll(s: Store, os: seq<C.Outcome>): (t: Store)
    requires s.current < s.count <= |s.files|
    ensures t.current < t.count == s.count && |t.files| == |s.files|
  {
    if os == [] then s else Record(RecordAll(s, os[..|os| - 1]), os[|os| - 1])
  }

  /** The blocks up to the first rejected buffer. */
  function Accepted(os: seq<C.Outcome>): (blocks: seq<Block>)
    ensures |blocks| <= |os|
  {
    if os == [] then [] else
      var n := |os| - 1;
      var before := Accepted(os[..n]);
      if |before| == n && os[n].Delivered? then before + [os[n].block] else before
  }

  /** The accepted blocks are what was delivered up to the first rejected buffer, or all of it. */
  lemma {:induction false} AcceptedAre(os: seq<C.Outcome>)
    ensures forall i | 0 <= i < |Accepted(os)| :: os[i] == C.Delivered(Accepted(os)[i])
    ensures |Accepted(os)| < |os| ==> os[|Accepted(os)|].Rejected?
  {
    if os != [] {
      AcceptedAre(os[..|os| - 1]);
    }
  }

  /** A rejected buffer is, for the files, an early stop. */
  lemma {:induction false} RecordIsFeed(s: Store, os: seq<C.Outcome>)
    requires s.current < s.count <= |s.files|
    ensures var fed := Feed(s, Accepted(os));
            RecordAll(s, os) == if |Accepted(os)| == |os| then fed else Reject(fed)
  {
    if os != [] {
      var n := |os| - 1;
      RecordIsFeed(s, os[..n]);
      var before := Accepted(os[..n]);
      if |before| == n && os[n].Delivered? {
        assert Accepted(os)[..n] == before;
      }
    }
  }

  lemma FinishAfterReject(s: Store)
    requires s.current < s.count <= |s.files|
    ensures Finish(Reject(s)).files == Finish(s).files && Finish(Reject(s)).current == Finish(s).current
  {
  }

  lemma {:induction false} AcceptedBounded(c: C.Config, filled: seq<C.Fill>, fileSize: nat)
    requires HEADER_SIZE + c.size <= fileSize && c.size < WORD
    ensures Bounded(Accepted(CaptureTheorems.Outcomes(c, filled)), fileSize)
  {
    if filled != [] {
      var n := |filled| - 1;
      AcceptedBounded(c, filled[..n], fileSize);
      assert CaptureTheorems.Outcomes(c, filled)[..n] == CaptureTheorems.Outcomes(c, filled[..n]);
    }
  }

  /** The files at the end of a session, and those of the accepted blocks alone, are the same. */
  lemma SameFiles(s: Store, ring: bool, start: nat, timezone: nat, os: seq<C.Outcome>)
    requires 0 < s.count <= |s.files|
    ensures var t := Finish(RecordAll(Start(s, ring, start, timezone), os));
            var u := Finish(Captured(s, ring, start, timezone, Accepted(os)));
            t.files == u.files && t.current == u.current && t.count == u.count == s.count
  {
    RecordIsFeed(Start(s, ring, start, timezone), os);
    FinishAfterReject(Captured(s, ring, start, timezone, Accepted(os)));
  }

  lemma SameReadBack(t: Store, u: Store, start: nat)
    requires t.files == u.files && t.current == u.current < t.count == u.count <= |t.files|
    ensures ReadBack(Disk(t), start) == ReadBack(Disk(u), start) && OldestFirst(t) == OldestFirst(u)
  {
    assert Disk(t) == Disk(u);
    assert PayloadsFromOldest(t) == PayloadsFromOldest(u);
  }

  /** What the disk has at the end: the retained part of the stream of these blocks, by file order and by number. */
  ghost predicate HasStream(t: Store, blocks: seq<Block>, fileSize: nat, ring: bool, start: nat)
    requires t.current < t.count <= |t.files|
  {
    var gens := Kept(Pack(blocks, fileSize), t.count, ring);
    && OldestFirst(t) == Bytes(Blocks(Retained(gens, t.count)))
    && (InOrder(|gens|, t.count) ==> ReadBack(Disk(t), start) == OldestFirst(t))
  }

  lemma CaptureHasStream(s: Store, ring: bool, start: nat, timezone: nat, blocks: seq<Block>)
    requires Opened(s, start, timezone) && NothingStale(s, start) && s.count <= MAX_FILES && Bounded(blocks, s.fileSize)
    ensures var t := Finish(Captured(s, ring, start, timezone, blocks));
            t.current < t.count == s.count <= |t.files| && HasStream(t, blocks, s.fileSize, ring, start)
  {
    FinishedOnDisk(s, ring, start, timezone, blocks);
    DiskGivesBackStream(s, ring, start, timezone, blocks);
  }

  /**
  The toolkit's own file code.  Once a stopped session has signalled completion, the disk gives back
  everything the firmware filled up to the first buffer of illegal size, as far as the files hold it.
  */
  lemma SessionIsOnDisk(c: C.Config, session: C.State, s: Store, ring: bool, start: nat, timezone: nat)
    requires C.Reachable(c, session) && (session.api.stopEvent || session.api.pc == C.Closed)
    requires Opened(s, start, timezone) && NothingStale(s, start) && s.count <= MAX_FILES
    requires HEADER_SIZE + c.size <= s.fileSize && c.size < WORD
    ensures var t := Finish(RecordAll(Start(s, ring, start, timezone), session.log.consumed));
            && t.current < t.count == s.count <= |t.files|
            && HasStream(t, Accepted(CaptureTheorems.Outcomes(c, session.log.filled)), s.fileSize, ring, start)
  {
    var os := CaptureTheorems.Outcomes(c, session.log.filled);
    CaptureTheorems.StopLosesNothing(c, session);
    AcceptedBounded(c, session.log.filled, s.fileSize);
    var t := Finish(RecordAll(Start(s, ring, start, timezone), os));
    var u := Finish(Captured(s, ring, start, timezone, Accepted(os)));
    SameFiles(s, ring, start, timezone, os);
    CaptureHasStream(s, ring, start, timezone, Accepted(os));
    SameReadBack(t, u, start);
  }

  lemma {:induction false} DeliveredBounded(c: C.Config, filled: seq<C.Fill>, fileSize: nat)
    requires HEADER_SIZE + c.size <= fileSize && c.size < WORD
    ensures Bounded(CaptureInvariant.DeliveredOf(CaptureTheorems.Outcomes(c, filled)), fileSize)
  {
    if filled != [] {
      var n := |filled| - 1;
      DeliveredBounded(c, filled[..n], fileSize);
      assert CaptureTheorems.Outcomes(c, filled)[..n] == CaptureTheorems.Outcomes(c, filled[..n]);
    }
  }

  /**
  The user-space library, which gets every block from the reader.  A buffer of illegal size never
  reaches it, so it writes all others: the disk gives back every block that was copied to user space,
  and these are all the firmware filled except the rejected ones.
  */
  lemma UserSessionIsOnDisk(c: C.Config, session: C.State, s: Store, ring: bool, start: nat, timezone: nat)
    requires C.Reachable(c, session) && (session.api.stopEvent || session.api.pc == C.Closed)
    requires Opened(s, start, timezone) && NothingStale(s, start) && s.count <= MAX_FILES
    requires HEADER_SIZE + c.size <= s.fileSize && c.size < WORD
    ensures session.log.copied == CaptureInvariant.DeliveredOf(CaptureTheorems.Outcomes(c, session.log.filled))
    ensures var t := Finish(Captured(s, ring, start, timezone, session.log.copied));
            && t.current < t.count == s.count <= |t.files|
            && HasStream(t, session.log.copied, s.fileSize, ring, start)
  {
    CaptureTheorems.StopLosesNothing(c, session);
    DeliveredBounded(c, session.log.filled, s.fileSize);
    CaptureHasStream(s, ring, start, timezone, session.log.copied);
  }
}
