/** What holds in every reachable state of a capture session. */
module CaptureTheorems {
  import opened Words
  import opened Handshake
  import opened Capture
  import opened CaptureInvariant

  /** The outcomes that filling these buffers calls for. */
  ghost function Outcomes(c: Config, filled: seq<Fill>): seq<Outcome>
  {
    seq(|filled|, i requires 0 <= i < |filled| => OutcomeOf(c, filled[i]))
  }

  /** The blocks consumed are a prefix of the blocks filled: in order, none lost, none repeated. */
  lemma ConsumedIsPrefix(c: Config, s: State)
    requires Reachable(c, s)
    ensures |s.log.consumed| <= |s.log.passed| <= |s.log.filled|
    ensures |s.log.passed| <= |s.log.consumed| + 1
    ensures s.log.passed == Outcomes(c, s.log.filled)[..|s.log.passed|]
    ensures s.log.consumed == Outcomes(c, s.log.filled)[..|s.log.consumed|]
  {
    ReachableRing(c, s);
    assert s.log.passed == Outcomes(c, s.log.filled)[..|s.log.passed|];
  }

  /** The unequal buffer flags are exactly the cyclic window of the blocks filled and not yet consumed. */
  lemma UnequalFlagsAreTheWindow(c: Config, s: State)
    requires Reachable(c, s)
    ensures c.Valid() && s.dsr.cur == |s.log.consumed| % c.count
    ensures 0 <= |s.log.filled| - |s.log.consumed| <= c.count
    ensures forall k: nat :: Unequal(s.ring.netx, s.ring.host, k) <==>
              k < c.count && Dist(s.dsr.cur, c.count, k) < |s.log.filled| - |s.log.consumed|
  {
    ReachableRing(c, s);
    forall k: nat
      ensures Unequal(s.ring.netx, s.ring.host, k) <==>
                k < c.count && Dist(s.dsr.cur, c.count, k) < |s.log.filled| - |s.log.consumed|
    {
      assert Unequal(s.ring.netx, s.ring.host, k) <==> InWindow(s.dsr.cur, InFlight(s.log), c.count, k);
    }
  }

  /** Each turn of the drain loop takes one bit out of the snapshot, and nothing puts one in. */
  lemma SnapshotShrinks(c: Config, s: State)
    requires Reachable(c, s) && Draining(s.dsr.pc) && Enabled(c, s, DsrStep)
    ensures var t := Next(c, s, DsrStep);
            if s.dsr.pc == Free then t.dsr.used < s.dsr.used else t.dsr.used == s.dsr.used
  {
    ReachableRing(c, s);
    if s.dsr.pc == Free {
      assert s.dsr.cur in WindowSet(s.dsr.cur, s.log.left, c.count);
    }
  }

  lemma PrefixOf(c: Config, s: State)
    requires Progress(c, s)
    ensures |s.log.consumed| <= |s.log.passed| <= |s.log.filled|
    ensures |s.log.passed| <= |s.log.consumed| + 1
    ensures s.log.passed == Outcomes(c, s.log.filled[..|s.log.passed|])
    ensures s.log.consumed == Outcomes(c, s.log.filled[..|s.log.consumed|])
  {
  }

  /** NEWDATA acknowledged, no pass running and no buffer half flipped: nothing filled is left behind. */
  lemma NoLostData(c: Config, s: State)
    requires Reachable(c, s)
    requires !Unequal(s.netx, s.host, NEWDATA) && s.fw.pc != FwFlipped
    requires s.dsr.pc != Snapshot && !Draining(s.dsr.pc)
    ensures s.log.consumed == Outcomes(c, s.log.filled)
  {
    ReachableRing(c, s);
    ReachableStop(c, s);
    PrefixOf(c, s);
    assert s.log.filled[..|s.log.consumed|] == s.log.filled;
  }

  lemma AsleepIsUpToDate(s: State)
    requires Sampling(s) && Cell(s)
    requires s.dsr.pc == Sleep && !s.irq.wake && !s.irq.pending
    ensures s.dsr.cached == s.netx
    ensures !Unequal(s.netx, s.host, NEWDATA) && !Unequal(s.netx, s.host, NEWSTATUS)
  {
  }

  /**
  No lost wake-up from end to end: a sleeping DSR with no interrupt pending and none delivered has
  acknowledged every indication and drained every buffer.
  */
  lemma NoLostWakeup(c: Config, s: State)
    requires Reachable(c, s)
    requires s.dsr.pc == Sleep && !s.irq.wake && !s.irq.pending && s.fw.pc != FwFlipped
    ensures s.dsr.cached == s.netx
    ensures !Unequal(s.netx, s.host, NEWDATA) && !Unequal(s.netx, s.host, NEWSTATUS)
    ensures s.log.consumed == Outcomes(c, s.log.filled)
  {
    ReachableSampling(c, s);
    ReachableCell(c, s);
    AsleepIsUpToDate(s);
    NoLostData(c, s);
  }

  /** The cached flags are safe to act on, and so is a grant given on them earlier. */
  lemma CachedFlagsAreSafe(c: Config, s: State, bit: nat)
    requires Reachable(c, s) && IsGuarded(bit)
    ensures !IsIndication(bit) && !Unequal(s.dsr.cached, s.host, bit) ==> !Unequal(s.netx, s.host, bit)
    ensures IsIndication(bit) && Unequal(s.dsr.cached, s.host, bit) ==> Unequal(s.netx, s.host, bit)
  {
    ReachableCell(c, s);
    CachedIsSafe(s, bit);
  }

  /** Host and firmware never both own a channel. */
  lemma NeverBothOwn(c: Config, s: State, bit: nat)
    requires Reachable(c, s)
    requires bit in s.api.granted || (bit == NEWDATA && s.dsr.pc == AckData) || (bit == NEWSTATUS && s.dsr.pc == AckStatus)
    ensures HostTurn(s.netx, s.host, bit)
    ensures !FirmwareEnabled(c, s, FwToggle(bit))
    ensures forall a | bit == NEWSTATUS && FirmwareEnabled(c, s, a) :: !a.FwPublish? && !a.FwRaise?
  {
    ReachableCell(c, s);
    ReachableStop(c, s);
    CachedIsSafe(s, bit);
  }

  /** Reading the double buffer, the DSR holds the half the interrupt handler does not write. */
  lemma DsrSlotIsStable(c: Config, s: State)
    requires Reachable(c, s) && (s.dsr.pc == ClearValid || s.dsr.pc == Diff || s.dsr.pc == Store)
    ensures |s.irq.slots| == 2 && s.irq.idx < 2 && s.dsr.held < 2 && s.dsr.held != s.irq.idx
    ensures IsrNext(s).irq.slots[s.dsr.held] == s.irq.slots[s.dsr.held]
  {
    ReachableSampling(c, s);
  }

  /** Samples are consumed in order, and between two takeovers with no half valid the newest has been consumed. */
  lemma SamplesInOrder(c: Config, s: State)
    requires Reachable(c, s)
    ensures s.log.taken != [] && forall i | 0 <= i < |s.log.taken| :: s.log.taken[i] < |s.log.samples|
    ensures forall i, j | 0 <= i < j < |s.log.taken| :: s.log.taken[i] < s.log.taken[j]
    ensures s.dsr.cached == s.log.samples[s.log.taken[|s.log.taken| - 1]]
    ensures |s.irq.slots| == 2
    ensures !s.irq.slots[0].valid && !s.irq.slots[1].valid && !Holding(StageOf(s.dsr.pc)) ==>
              s.log.taken[|s.log.taken| - 1] == |s.log.samples| - 1
  {
    ReachableSampling(c, s);
    SamplingInOrder(s);
  }

  lemma SamplingInOrder(s: State)
    requires Sampling(s)
    ensures s.log.taken != [] && forall i | 0 <= i < |s.log.taken| :: s.log.taken[i] < |s.log.samples|
    ensures forall i, j | 0 <= i < j < |s.log.taken| :: s.log.taken[i] < s.log.taken[j]
    ensures s.dsr.cached == s.log.samples[s.log.taken[|s.log.taken| - 1]]
    ensures !s.irq.slots[0].valid && !s.irq.slots[1].valid && !Holding(StageOf(s.dsr.pc)) ==>
              s.log.taken[|s.log.taken| - 1] == |s.log.samples| - 1
  {
    assert s.irq.idx == 0 || s.irq.idx == 1;
    forall i | 0 <= i < |s.log.taken| ensures s.log.taken[i] < |s.log.samples| {
      assert i < |s.log.taken| - 1 ==> s.log.taken[i] < s.log.taken[|s.log.taken| - 1];
    }
  }

  /** Exactly the deliverable blocks reach user space, in order and unchanged, each at most once; -EAGAIN never. */
  lemma CopiedToUser(c: Config, s: State)
    requires Reachable(c, s)
    ensures !s.log.eagain
    ensures s.rv.events == s.rv.readCount || s.rv.events == (s.rv.readCount + 1) % WORD
    ensures |s.log.consumed| <= |s.log.filled|
    ensures s.log.copied == DeliveredOf(Outcomes(c, s.log.filled[..|s.log.consumed|]))
            || (|s.log.consumed| < |s.log.filled|
                && s.log.copied == DeliveredOf(Outcomes(c, s.log.filled[..|s.log.consumed| + 1])))
  {
    ReachableHand(c, s);
    EventsLead(s);
    CopiedSoFar(c, s);
  }

  lemma EventsLead(s: State)
    requires Hand(s)
    ensures !s.log.eagain
    ensures s.rv.events == s.rv.readCount || s.rv.events == (s.rv.readCount + 1) % WORD
  {
  }

  lemma CopiedSoFar(c: Config, s: State)
    requires Hand(s) && Progress(c, s)
    ensures |s.log.consumed| <= |s.log.filled|
    ensures s.log.copied == DeliveredOf(Outcomes(c, s.log.filled[..|s.log.consumed|]))
            || (|s.log.consumed| < |s.log.filled|
                && s.log.copied == DeliveredOf(Outcomes(c, s.log.filled[..|s.log.consumed| + 1])))
  {
    PrefixOf(c, s);
    assert s.log.copied == DeliveredOf(s.log.passed)
           || (|s.log.passed| > |s.log.consumed| && s.log.copied == DeliveredOf(s.log.consumed)) by {
      assert Notifying(s.dsr.pc) ==> Passing(s.dsr.pc);
      CopiedIsDelivered(c, s);
    }
  }

  lemma SameFront<T>(a: seq<T>, b: seq<T>, last: T)
    requires a + [last] == b + [last]
    ensures a == b
  {
    assert a == (a + [last])[..|a|] == (b + [last])[..|b|] == b;
  }

  lemma CopiedIsDelivered(c: Config, s: State)
    requires Hand(s) && |s.log.consumed| <= |s.log.passed| <= |s.log.consumed| + 1
    requires s.log.consumed == s.log.passed[..|s.log.consumed|]
    requires Notifying(s.dsr.pc) ==> |s.log.passed| > |s.log.consumed|
    ensures s.log.copied == DeliveredOf(s.log.passed)
            || (|s.log.passed| > |s.log.consumed| && s.log.copied == DeliveredOf(s.log.consumed))
  {
    var block := Block(s.ring, s.dsr.cur, s.dsr.size);
    if Notifying(s.dsr.pc) && s.log.copied != DeliveredOf(s.log.passed) {
      assert s.log.passed[..|s.log.passed| - 1] == s.log.consumed;
      SameFront(s.log.copied, DeliveredOf(s.log.consumed), block);
    }
  }

  /** From the size check to the end of the copy, the buffer stays out of the firmware's hands. */
  lemma BufferHeldWhileInUse(c: Config, s: State, size: nat, data: seq<byte>)
    requires Reachable(c, s) && InBuffer(s.dsr.pc)
    ensures Unequal(s.ring.netx, s.ring.host, s.dsr.cur)
    ensures s.dsr.cur < |s.ring.mem|
    ensures FirmwareEnabled(c, s, FwFill(size, data)) ==>
              var t := FirmwareNext(c, s, FwFill(size, data));
              s.dsr.cur < |t.ring.mem| && t.ring.mem[s.dsr.cur] == s.ring.mem[s.dsr.cur]
  {
    ReachableRing(c, s);
    assert InWindow(s.dsr.cur, InFlight(s.log), c.count, s.dsr.cur);
  }

  /** Every filled buffer has been processed before the stop event is set, and before stop closes anything. */
  lemma StopLosesNothing(c: Config, s: State)
    requires Reachable(c, s) && (s.dsr.pc == StopEvent || s.api.stopEvent || s.api.pc == Closed)
    ensures s.log.consumed == Outcomes(c, s.log.filled) == s.log.passed
    ensures s.log.copied == DeliveredOf(Outcomes(c, s.log.filled))
    ensures s.fw.pc != FwFilled && s.fw.pc != FwFlipped
    ensures forall size, data :: !FirmwareEnabled(c, s, FwFill(size, data))
  {
    ReachableHand(c, s);
    ReachableStop(c, s);
    StoppedIsDrained(c, s);
  }

  lemma StoppedIsDrained(c: Config, s: State)
    requires Stop(s) && Progress(c, s) && CaughtUp(s) && Hand(s)
    requires s.dsr.pc == StopEvent || Stopped(s.api)
    ensures s.log.consumed == Outcomes(c, s.log.filled) == s.log.passed
    ensures s.log.copied == DeliveredOf(Outcomes(c, s.log.filled))
    ensures s.fw.pc != FwFilled && s.fw.pc != FwFlipped && s.fw.state == OFF
  {
    PrefixOf(c, s);
    assert s.log.filled[..|s.log.consumed|] == s.log.filled;
  }

  // ---------------------------------------------------------------------------------------------
  // The same in terms of what was filled alone
  // ---------------------------------------------------------------------------------------------

  /** A buffer is rejected exactly if its published size exceeds the buffers, and otherwise consumed up to that size. */
  lemma ConsumedInNumbers(c: Config, s: State)
    requires Reachable(c, s)
    ensures |s.log.consumed| <= |s.log.filled|
    ensures forall i | 0 <= i < |s.log.consumed| :: |s.log.filled[i].data| == c.size
    ensures forall i | 0 <= i < |s.log.consumed| ::
              s.log.consumed[i] == if s.log.filled[i].size > c.size then Rejected(s.log.filled[i].size)
                                   else Delivered(s.log.filled[i].data[..s.log.filled[i].size])
  {
    ReachableRing(c, s);
    ConsumedAre(c, s);
  }

  lemma ConsumedAre(c: Config, s: State)
    requires Progress(c, s)
    ensures |s.log.consumed| <= |s.log.filled|
    ensures forall i | 0 <= i < |s.log.consumed| :: |s.log.filled[i].data| == c.size
    ensures forall i | 0 <= i < |s.log.consumed| ::
              s.log.consumed[i] == if s.log.filled[i].size > c.size then Rejected(s.log.filled[i].size)
                                   else Delivered(s.log.filled[i].data[..s.log.filled[i].size])
  {
    forall i | 0 <= i < |s.log.consumed|
      ensures s.log.consumed[i] == OutcomeOf(c, s.log.filled[i]) && |s.log.filled[i].data| == c.size
    {
      assert s.log.consumed[i] == s.log.passed[i];
    }
  }

  lemma {:induction false} AllDelivered(c: Config, filled: seq<Fill>)
    requires forall f | f in filled :: f.size <= c.size == |f.data|
    ensures var blocks := DeliveredOf(Outcomes(c, filled));
            |blocks| == |filled| && forall i | 0 <= i < |filled| :: blocks[i] == filled[i].data[..filled[i].size]
  {
    if filled != [] {
      var n := |filled| - 1;
      AllDelivered(c, filled[..n]);
      assert Outcomes(c, filled)[..n] == Outcomes(c, filled[..n]);
      assert filled[n] in filled;
    }
  }

  /** If no published size exceeds the buffers, user space has every block consumed, byte for byte, at most one ahead. */
  lemma CopiedInNumbers(c: Config, s: State)
    requires Reachable(c, s) && forall f | f in s.log.filled :: f.size <= c.size == |f.data|
    ensures |s.log.consumed| <= |s.log.copied| <= |s.log.consumed| + 1 && |s.log.copied| <= |s.log.filled|
    ensures forall i | 0 <= i < |s.log.copied| :: s.log.copied[i] == s.log.filled[i].data[..s.log.filled[i].size]
  {
    var n := |s.log.consumed|;
    CopiedToUser(c, s);
    if s.log.copied == DeliveredOf(Outcomes(c, s.log.filled[..n])) {
      FirstAreDelivered(c, s.log.filled, n);
    } else {
      FirstAreDelivered(c, s.log.filled, n + 1);
    }
  }

  lemma FirstAreDelivered(c: Config, filled: seq<Fill>, n: nat)
    requires n <= |filled| && forall f | f in filled :: f.size <= c.size == |f.data|
    ensures var blocks := DeliveredOf(Outcomes(c, filled[..n]));
            |blocks| == n && forall i | 0 <= i < n :: blocks[i] == filled[i].data[..filled[i].size]
  {
    AllDelivered(c, filled[..n]);
  }

  /** A rejected buffer is reported if the cached bit leaves the error channel to the host: it is the firmware's turn then. */
  lemma RejectIsSignalled(c: Config, s: State)
    requires Reachable(c, s) && s.dsr.pc == Reject && Enabled(c, s, DsrStep)
    ensures var t := Next(c, s, DsrStep);
            if Unequal(s.dsr.cached, s.host, 5) then t.host == s.host
            else !Unequal(s.netx, s.host, 5) && Unequal(t.netx, t.host, 5)
  {
    CachedFlagsAreSafe(c, s, 5);
    RejectStep(c, s);
  }

  lemma RejectStep(c: Config, s: State)
    requires s.dsr.pc == Reject && Enabled(c, s, DsrStep)
    ensures var t := Next(c, s, DsrStep);
            t.netx == s.netx && t.host == if HostTurn(s.dsr.cached, s.host, DRV_ERROR) then Toggle(s.host, DRV_ERROR) else s.host
  {
  }

  /** Using a granted channel, or sending the stop command, hands it over: it was the host's and is the firmware's. */
  lemma RequestReachesFirmware(c: Config, s: State, a: Action, bit: nat)
    requires Reachable(c, s) && Enabled(c, s, a)
    requires a == Use(bit) || (a == StopToggle && bit == 2)
    ensures HostTurn(s.netx, s.host, bit)
    ensures var t := Next(c, s, a); !HostTurn(t.netx, t.host, bit) && bit !in t.api.granted
    ensures forall k: nat | k != bit :: var t := Next(c, s, a); Unequal(t.netx, t.host, k) <==> Unequal(s.netx, s.host, k)
  {
    ReachableCell(c, s);
    assert bit in s.api.granted;
    CachedIsSafe(s, bit);
    RequestStep(c, s, a, bit);
  }

  lemma RequestStep(c: Config, s: State, a: Action, bit: nat)
    requires Enabled(c, s, a) && (a == Use(bit) || (a == StopToggle && bit == STARTSTOP))
    ensures var t := Next(c, s, a);
            t.netx == s.netx && t.host == Toggle(s.host, bit) && t.api.granted == s.api.granted - {bit}
  {
  }

  /**
  The stop completes: once OFF has been published and the DSR sleeps with no interrupt on its way,
  hStopComplete is set or has been seen, or the stop thread has reset it after it was set.
  */
  lemma StopCompletes(c: Config, s: State)
    requires Reachable(c, s) && s.fw.state == OFF && s.fw.pc != FwPublished
    requires s.dsr.pc == Sleep && !s.irq.wake && !s.irq.pending
    ensures s.api.stopEvent || s.api.pc == Closed || s.api.lost
    ensures s.api.lost ==> !s.api.stopEvent && s.api.pc != Closed
  {
    ReachableSampling(c, s);
    ReachableCell(c, s);
    ReachableCompletion(c, s);
    AsleepIsUpToDate(s);
  }

  /** That happens exactly if the firmware had gone OFF, and the DSR seen it, before the stop command was sent. */
  lemma CompletionLostIff(c: Config, s: State, a: Action)
    requires Reachable(c, s) && Enabled(c, s, a) && !s.api.lost
    ensures Next(c, s, a).api.lost <==> a == StopReset && s.api.stopEvent
    ensures Next(c, s, a).api.lost ==> s.fw.state == OFF && s.api.pc == StopGranted && s.log.consumed == Outcomes(c, s.log.filled)
  {
    LostStep(c, s, a);
    if a == StopReset && s.api.stopEvent {
      ReachableStop(c, s);
      StopLosesNothing(c, s);
    }
  }

  lemma LostStep(c: Config, s: State, a: Action)
    requires Enabled(c, s, a) && !s.api.lost
    ensures Next(c, s, a).api.lost <==> a == StopReset && s.api.stopEvent
    ensures a == StopReset ==> s.api.pc == StopGranted
  {
  }
}
