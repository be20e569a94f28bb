/**
The interrupt handler, the DSR handler and the processing pass as programs over the device instance.
Before every access to shared memory any number of steps of all other actors may happen.
*/
module CaptureDriver {
  import opened Words
  import opened Handshake
  import opened Capture
  import opened CaptureInvariant

  // ---------------------------------------------------------------------------------------------
  // Steps of the program are steps of the session
  // ---------------------------------------------------------------------------------------------

  lemma {:induction false} RunExtends(c: Config, s: State, run: seq<Action>, a: Action)
    requires Legal(c, s, run) && Enabled(c, Final(c, s, run), a)
    ensures Legal(c, s, run + [a]) && Final(c, s, run + [a]) == Next(c, Final(c, s, run), a)
    decreases |run|
  {
    if run == [] {
      assert [] + [a] == [a];
      assert [a][1..] == [];
    } else {
      RunExtends(c, Next(c, s, run[0]), run[1..], a);
      assert (run + [a])[1..] == run[1..] + [a];
    }
  }

  lemma StepReaches(c: Config, s: State, a: Action)
    requires Reachable(c, s) && Enabled(c, s, a)
    ensures Reachable(c, Next(c, s, a))
  {
    var s0 :| Init(c, s0) && Reaches(c, s0, s);
    ReachesFurther(c, s0, s, a, Next(c, s, a));
  }

  lemma ReachesFurther(c: Config, s0: State, s: State, a: Action, t: State)
    requires Reaches(c, s0, s) && Enabled(c, s, a) && t == Next(c, s, a)
    ensures Reaches(c, s0, t)
  {
    var run :| Legal(c, s0, run) && Final(c, s0, run) == s;
    RunExtends(c, s0, run, a);
    assert Legal(c, s0, run + [a]) && Final(c, s0, run + [a]) == t;
  }

  lemma HandlerReady(c: Config, s: State)
    requires Reachable(c, s) && InDsrHandler(s.dsr.pc) && (s.dsr.pc == Sleep ==> s.irq.wake)
    ensures HandlerEnabled(s) && Reachable(c, HandlerNext(s))
    ensures s.dsr.pc == Diff || s.dsr.pc == Store || s.dsr.pc == ClearValid ==> s.dsr.held == 1 - s.irq.idx
    ensures s.dsr.pc == Store ==> s.dsr.changed == Xor(s.dsr.cached, s.irq.slots[s.dsr.held].flags)
  {
    ReachableSampling(c, s);
    ReachableCell(c, s);
    StepReaches(c, s, DsrStep);
  }

  lemma CheckReady(c: Config, s: State)
    requires Reachable(c, s) && s.dsr.pc == CheckValid
    ensures s.dsr.held < |s.irq.slots|
    ensures Reachable(c, s.(dsr := s.dsr.(pc := if s.irq.slots[s.dsr.held].valid then FlipIndex else Sleep)))
  {
    HandlerReady(c, s);
  }

  lemma FlipReady(c: Config, s: State)
    requires Reachable(c, s) && s.dsr.pc == FlipIndex
    ensures s.irq.idx < 2
    ensures Reachable(c, s.(irq := s.irq.(idx := 1 - s.irq.idx), dsr := s.dsr.(pc := ClearValid)))
  {
    HandlerReady(c, s);
  }

  lemma StoreReady(c: Config, s: State)
    requires Reachable(c, s) && s.dsr.pc == Store
    ensures s.dsr.held < |s.irq.slots|
    ensures var slot := s.irq.slots[s.dsr.held];
            && s.dsr.changed == Xor(s.dsr.cached, slot.flags)
            && Reachable(c, s.(dsr := s.dsr.(cached := slot.flags, pc := Signal), log := s.log.(taken := s.log.taken + [slot.no])))
  {
    HandlerReady(c, s);
    StoreNext(s);
  }

  lemma StoreNext(s: State)
    requires s.dsr.pc == Store && HandlerEnabled(s)
    ensures s.dsr.held < |s.irq.slots|
    ensures var b := s.irq.slots[s.dsr.held];
            HandlerNext(s) == s.(dsr := s.dsr.(cached := b.flags, pc := Signal), log := s.log.(taken := s.log.taken + [b.no]))
  {
  }

  lemma SignalReady(c: Config, s: State)
    requires Reachable(c, s) && s.dsr.pc == Signal
    ensures Reachable(c, s.(dsr := s.dsr.(pc := if NEWDATA in s.dsr.changed || NEWSTATUS in s.dsr.changed then Begin else Sleep)))
  {
    HandlerReady(c, s);
  }

  lemma DrainReady(c: Config, s: State)
    requires Reachable(c, s) && !InDsrHandler(s.dsr.pc) && !InStatus(s.dsr.pc) && (s.dsr.pc == AwaitRead ==> s.rv.sig)
    ensures DrainEnabled(s) && Reachable(c, DrainNext(c, s))
  {
    ReachableRing(c, s);
    StepReaches(c, s, DsrStep);
  }

  lemma SnapshotReady(c: Config, s: State)
    requires Reachable(c, s) && s.dsr.pc == Snapshot
    ensures Reachable(c, s.(dsr := s.dsr.(used := Xor(s.ring.host, s.ring.netx), pc := Loop),
                            log := s.log.(left := |s.log.filled| - |s.log.consumed|)))
  {
    DrainReady(c, s);
  }

  lemma RejectReady(c: Config, s: State)
    requires Reachable(c, s) && s.dsr.pc == Reject
    ensures Reachable(c, s.(host := if HostTurn(s.dsr.cached, s.host, DRV_ERROR) then Toggle(s.host, DRV_ERROR) else s.host,
                            dsr := s.dsr.(pc := Free), log := s.log.(passed := s.log.passed + [Rejected(s.dsr.size)])))
  {
    DrainReady(c, s);
  }

  lemma AnnounceReady(c: Config, s: State)
    requires Reachable(c, s) && s.dsr.pc == Announce
    ensures s.dsr.cur < |s.ring.mem| && s.dsr.size <= |s.ring.mem[s.dsr.cur]|
    ensures Reachable(c, s.(rv := s.rv.(data := Some(s.dsr.cur), len := s.dsr.size, valid := true),
                            dsr := s.dsr.(pc := Count),
                            log := s.log.(passed := s.log.passed + [Delivered(s.ring.mem[s.dsr.cur][..s.dsr.size])])))
  {
    DrainReady(c, s);
    AnnounceNext(c, s);
  }

  lemma CountReady(c: Config, s: State)
    requires Reachable(c, s) && s.dsr.pc == Count
    ensures Reachable(c, s.(rv := s.rv.(events := (s.rv.events + 1) % WORD), dsr := s.dsr.(pc := AwaitRead)))
  {
    DrainReady(c, s);
    CountNext(c, s);
  }

  lemma AwaitReady(c: Config, s: State)
    requires Reachable(c, s) && s.dsr.pc == AwaitRead && s.rv.sig
    ensures Reachable(c, s.(rv := s.rv.(sig := false), dsr := s.dsr.(pc := Free)))
  {
    DrainReady(c, s);
  }

  lemma FreeReady(c: Config, s: State)
    requires Reachable(c, s) && s.dsr.pc == Free
    ensures s.dsr.cur < c.count
    ensures Reachable(c, s.(ring := s.ring.(host := Toggle(s.ring.host, s.dsr.cur)),
                            dsr := s.dsr.(used := s.dsr.used - {s.dsr.cur}, cur := Wrap(s.dsr.cur + 1, c.count), pc := Loop),
                            log := s.log.(left := s.log.left - 1, consumed := s.log.consumed + [Freed(c, s)])))
  {
    DrainReady(c, s);
    ReachableRing(c, s);
  }

  /** What the history records when the current buffer is given back. */
  function Freed(c: Config, s: State): Outcome {
    if s.dsr.size > c.size then Rejected(s.dsr.size) else Delivered(LastCopied(s.log))
  }

  /** Between passes and while a block is not yet announced, user space has every block passed on. */
  lemma AllCopied(c: Config, s: State)
    requires Reachable(c, s) && s.dsr.pc != Count && (s.dsr.pc == AwaitRead ==> s.rv.sig)
    ensures s.log.copied == DeliveredOf(s.log.passed)
  {
    ReachableHand(c, s);
  }

  /** The firmware leaves the buffer alone that is being drained. */
  lemma BufferKept(c: Config, s: State, t: State)
    requires Reachable(c, s) && Reachable(c, t) && InBuffer(s.dsr.pc) && s.dsr.pc != ReadSize
    requires InBuffer(t.dsr.pc) && t.dsr.pc != ReadSize && t.dsr.cur == s.dsr.cur
    requires t.log.consumed == s.log.consumed && s.log.filled <= t.log.filled
    ensures s.dsr.cur < |s.ring.mem| && s.dsr.cur < |t.ring.mem| && t.ring.mem[s.dsr.cur] == s.ring.mem[s.dsr.cur]
  {
    CurrentIsOldest(c, s);
    CurrentIsOldest(c, t);
  }

  lemma CurrentIsOldest(c: Config, s: State)
    requires Reachable(c, s) && InBuffer(s.dsr.pc) && s.dsr.pc != ReadSize
    ensures s.dsr.cur < |s.ring.mem| && |s.log.consumed| < |s.log.filled|
    ensures s.log.filled[|s.log.consumed|] == Fill(s.dsr.size, s.ring.mem[s.dsr.cur])
  {
    ReachableRing(c, s);
    CurrentFill(c, s);
  }

  lemma StatusReady(c: Config, s: State)
    requires Reachable(c, s) && InStatus(s.dsr.pc)
    ensures Reachable(c, StatusNext(s))
  {
    StepReaches(c, s, DsrStep);
  }

  /** What the DSR may rely on at `Signal` and when a pass is over. */
  lemma IndicationsSeen(c: Config, s: State)
    requires Reachable(c, s)
    ensures var data, status := Unequal(s.dsr.cached, s.host, NEWDATA), Unequal(s.dsr.cached, s.host, NEWSTATUS);
            && (s.dsr.pc == Signal ==> (data <==> NEWDATA in s.dsr.changed) && (status <==> NEWSTATUS in s.dsr.changed))
            && (s.dsr.pc == Sleep ==> !data && !status)
  {
    ReachableCell(c, s);
  }

  lemma LoopExit(c: Config, s: State)
    requires Reachable(c, s) && s.dsr.pc == Loop
    ensures 0 <= s.log.left
    ensures s.log.left > 0 <==> s.dsr.cur in s.dsr.used
  {
    ReachableRing(c, s);
  }

  // ---------------------------------------------------------------------------------------------
  // The reader releases the notifier
  // ---------------------------------------------------------------------------------------------

  /** How many steps the reader still has to take before it signals the notifier. */
  function Distance(v: Rendezvous, r: Reader): nat {
    if v.sig then 0 else
    match r.pc
    case RIdle => v.len + 6
    case RStore => v.len + 5
    case RCheck => v.len + 4
    case RCopy => if |r.got| <= v.len then v.len - |r.got| + 3 else 3
    case RClear => 2
    case RSignal => 1
  }

  /** While the notifier waits, the reader always has a step to take, and each one brings the signal closer. */
  lemma ReaderApproaches(c: Config, s: State)
    requires Reachable(c, s) && s.dsr.pc == AwaitRead && !s.rv.sig
    ensures var t := ReadNext(s); Distance(t.rv, t.rd) < Distance(s.rv, s.rd)
  {
    ReachableHand(c, s);
    ReaderMoves(s);
  }

  lemma ReaderMoves(s: State)
    requires Hand(s) && s.dsr.pc == AwaitRead && !s.rv.sig
    ensures var t := ReadNext(s); Distance(t.rv, t.rd) < Distance(s.rv, s.rd)
  {
  }

  lemma OthersDoNotDelay(c: Config, s: State, a: Action)
    requires Reachable(c, s) && s.dsr.pc == AwaitRead && a != DsrStep && Enabled(c, s, a)
    ensures var t := Next(c, s, a); Distance(t.rv, t.rd) <= Distance(s.rv, s.rd)
  {
    if a == Read {
      ReachableHand(c, s);
      ReaderWaits(s);
    } else {
      OthersLeaveRendezvous(c, s, a);
    }
  }

  lemma OthersLeaveRendezvous(c: Config, s: State, a: Action)
    requires a != DsrStep && a != Read && Enabled(c, s, a)
    ensures var t := Next(c, s, a); t.rv == s.rv && t.rd == s.rd
  {
  }

  lemma ReaderWaits(s: State)
    requires Hand(s) && s.dsr.pc == AwaitRead
    ensures var t := ReadNext(s); Distance(t.rv, t.rd) <= Distance(s.rv, s.rd)
  {
  }

  // ---------------------------------------------------------------------------------------------
  // The device instance
  // ---------------------------------------------------------------------------------------------

  class Driver {
    const c: Config
    /** Dual-ported memory: both halves of the handshake cell, the buffer flags, sizes and buffers. */
    var netx: Flags
    var host: Flags
    var ring: Ring
    var fw: Firmware
    /** `iIrq2DsrBuffer`, `atIrq2DsrBuffer` and the DSR wake-up signal. */
    var irq: Irq
    /** `ulNetxFlags` and `ulCurrentBuffer`. */
    var netxFlags: Flags
    var currentBuffer: nat
    var rv: Rendezvous
    var rd: Reader
    var api: Api
    /** Where the DSR thread stands, and the history. No program below branches on these. */
    var dsr: Dsr
    var log: Log

    function Snap(): State reads this {
      State(netx, host, ring, fw, irq, dsr, rv, rd, api, log)
    }

    /** The device is in a state some run of the session reaches. */
    ghost predicate Valid() reads this {
      Reachable(c, Snap()) && dsr.cached == netxFlags && dsr.cur == currentBuffer
    }

    /** One step of somebody else. */
    method OtherStep(a: Action)
      requires Valid() && a != DsrStep && Enabled(c, Snap(), a)
      modifies this
      ensures Valid() && Snap() == Next(c, old(Snap()), a)
      ensures netxFlags == old(netxFlags) && currentBuffer == old(currentBuffer)
    {
      StepReaches(c, Snap(), a);
      NextKeepsDsr(c, Snap(), a);
      Become(Next(c, Snap(), a));
    }

    method Become(t: State)
      requires t.dsr == dsr
      modifies this
      ensures Snap() == t && netxFlags == old(netxFlags) && currentBuffer == old(currentBuffer)
    {
      netx, host, ring, fw, irq, rv, rd, api, log := t.netx, t.host, t.ring, t.fw, t.irq, t.rv, t.rd, t.api, t.log;
    }

    /** Any number of steps of all other actors. */
    method Interfere()
      requires Valid()
      modifies this
      ensures Valid() && Undisturbed(old(Snap()), Snap())
      ensures netxFlags == old(netxFlags) && currentBuffer == old(currentBuffer)
    {
      var n: nat := *;
      while n > 0
        invariant Valid() && Undisturbed(old(Snap()), Snap())
        invariant netxFlags == old(netxFlags) && currentBuffer == old(currentBuffer)
        decreases n
      {
        var a: Action := *;
        if a != DsrStep && Enabled(c, Snap(), a) {
          NextUndisturbed(c, Snap(), a);
          OtherStep(a);
        }
        n := n - 1;
      }
    }

    /** The interrupt handler: `fInterrupt` is the global status bit it checks first on a shared line. */
    method IsrHandler(checkOtherDevice: bool, fInterrupt: bool) returns (dsrRequested: bool)
      requires Valid()
      modifies this
      ensures Valid() && dsrRequested == (!checkOtherDevice || fInterrupt)
      ensures !dsrRequested ==> Snap() == old(Snap())
      ensures dsrRequested ==> old(irq.idx) < |old(irq.slots)| && Snap() == IsrNext(old(Snap()))
    {
      if checkOtherDevice && !fInterrupt {
        return false;
      }
      IsrReady(c, Snap());
      ghost var s := Snap();
      var slot := Slot(true, netx, |log.samples|);
      irq := Irq(irq.idx, irq.slots[irq.idx := slot], false, true);
      log := log.(samples := log.samples + [netx]);
      assert Snap() == IsrNext(s);
      dsrRequested := true;
    }

    /** Take the shared buffer, if it holds a sample, and flip so that the ISR uses the other one. */
    method FlipBuffer() returns (held: nat, valid: bool)
      requires Valid() && dsr.pc == ReadIndex
      modifies this
      ensures Valid() && dsr.pc == (if valid then ClearValid else Sleep) && dsr.held == held
      ensures netxFlags == old(netxFlags) && log.consumed == old(log.consumed) && old(|log.filled|) <= |log.filled|
    {
      held, valid := CheckBuffer();
      if valid {
        Interfere();
        ghost var s := Snap();
        FlipReady(c, s);
        irq := irq.(idx := 1 - irq.idx);
        dsr := dsr.(pc := ClearValid);
        assert Snap() == s.(irq := s.irq.(idx := 1 - s.irq.idx), dsr := s.dsr.(pc := ClearValid));
      }
    }

    method CheckBuffer() returns (held: nat, valid: bool)
      requires Valid() && dsr.pc == ReadIndex
      modifies this
      ensures Valid() && dsr.pc == (if valid then FlipIndex else Sleep) && dsr.held == held
      ensures netxFlags == old(netxFlags) && log.consumed == old(log.consumed) && old(|log.filled|) <= |log.filled|
    {
      held := ReadBufferIndex();
      Interfere();
      ghost var s := Snap();
      CheckReady(c, s);
      valid := irq.slots[held].valid;
      dsr := dsr.(pc := if valid then FlipIndex else Sleep);
      assert Snap() == s.(dsr := s.dsr.(pc := if valid then FlipIndex else Sleep));
    }

    method ReadBufferIndex() returns (held: nat)
      requires Valid() && dsr.pc == ReadIndex
      modifies this
      ensures Valid() && dsr.pc == CheckValid && dsr.held == held
      ensures netxFlags == old(netxFlags) && log.consumed == old(log.consumed) && old(|log.filled|) <= |log.filled|
    {
      Interfere();
      HandlerReady(c, Snap());
      held := irq.idx;
      dsr := dsr.(held := held, pc := CheckValid);
    }

    method ClearBuffer(held: nat)
      requires Valid() && dsr.pc == ClearValid && dsr.held == held
      modifies this
      ensures Valid() && dsr == old(dsr).(pc := Diff)
      ensures netxFlags == old(netxFlags) && log.consumed == old(log.consumed) && old(|log.filled|) <= |log.filled|
    {
      Interfere();
      HandlerReady(c, Snap());
      irq := irq.(slots := irq.slots[held := irq.slots[held].(valid := false)]);
      dsr := dsr.(pc := Diff);
    }

    /** Find out what changed and take the sample over into the cached flags. */
    method StoreFlags(held: nat) returns (changed: Flags)
      requires Valid() && dsr.pc == Diff && dsr.held == held
      modifies this
      ensures Valid() && dsr.pc == Signal && dsr.changed == changed == Xor(old(netxFlags), netxFlags)
      ensures log.consumed == old(log.consumed) && old(|log.filled|) <= |log.filled|
    {
      changed := FindChanges(held);

      Interfere();
      ghost var s := Snap();
      StoreReady(c, s);
      var slot := irq.slots[held];
      netxFlags := slot.flags;
      dsr := dsr.(cached := netxFlags, pc := Signal);
      log := log.(taken := log.taken + [slot.no]);
      assert Snap() == s.(dsr := s.dsr.(cached := slot.flags, pc := Signal), log := s.log.(taken := s.log.taken + [slot.no]));
    }

    method FindChanges(held: nat) returns (changed: Flags)
      requires Valid() && dsr.pc == Diff && dsr.held == held
      modifies this
      ensures Valid() && dsr == old(dsr).(pc := Store, changed := changed) && netxFlags == old(netxFlags)
      ensures log.consumed == old(log.consumed) && old(|log.filled|) <= |log.filled|
    {
      Interfere();
      HandlerReady(c, Snap());
      changed := Xor(netxFlags, irq.slots[held].flags);
      dsr := dsr.(changed := changed, pc := Store);
    }

    method DsrHandler() returns (request: bool)
      requires Valid() && dsr.pc == ReadIndex
      modifies this
      ensures Valid() && dsr.pc == (if request then Begin else Sleep)
      ensures request <==> NEWDATA in Xor(old(netxFlags), netxFlags) || NEWSTATUS in Xor(old(netxFlags), netxFlags)
      ensures log.consumed == old(log.consumed) && old(|log.filled|) <= |log.filled|
    {
      var held, valid := FlipBuffer();
      if !valid {
        return false;
      }
      ClearBuffer(held);
      var changed := StoreFlags(held);
      ghost var s := Snap();
      SignalReady(c, s);
      request := NEWDATA in changed || NEWSTATUS in changed;
      dsr := dsr.(pc := if request then Begin else Sleep);
      assert Snap() == s.(dsr := s.dsr.(pc := if request then Begin else Sleep));
    }

    method ToggleBit(bit: nat)
      modifies this`host
      ensures host == Toggle(old(host), bit)
    {
      host := Toggle(host, bit);
    }

    /** Announce the block to the reader and wait until it has been copied. */
    method NotifyData(size: nat)
      requires Valid() && dsr.pc == Announce && dsr.size == size
      modifies this
      ensures Valid() && dsr == old(dsr).(pc := Free)
      ensures old(currentBuffer) < old(|ring.mem|) && size <= old(|ring.mem[currentBuffer]|)
      ensures log.copied == old(log.copied) + [old(ring.mem[currentBuffer][..size])]
      ensures log.consumed == old(log.consumed) && log.left == old(log.left) && old(log.filled) <= log.filled
    {
      AllCopied(c, Snap());
      AnnounceData(size);
      CountEvent();
      AwaitReader();
      ReadIsOver();
      AllCopied(c, Snap());
      assert log.passed == old(log.passed) + [Delivered(old(ring.mem[currentBuffer][..size]))];
      PassedMore(old(log.passed), Delivered(old(ring.mem[currentBuffer][..size])));
    }

    method ReadIsOver()
      requires Valid() && dsr.pc == AwaitRead && rv.sig
      modifies this
      ensures Valid() && dsr == old(dsr).(pc := Free) && log == old(log)
    {
      ghost var s := Snap();
      AwaitReady(c, s);
      rv := rv.(sig := false);
      dsr := dsr.(pc := Free);
      assert Snap() == s.(rv := s.rv.(sig := false), dsr := s.dsr.(pc := Free));
    }

    method AnnounceData(size: nat)
      requires Valid() && dsr.pc == Announce && dsr.size == size
      modifies this
      ensures Valid() && dsr == old(dsr).(pc := Count)
      ensures old(currentBuffer) < old(|ring.mem|) && size <= old(|ring.mem[currentBuffer]|)
      ensures log.passed == old(log.passed) + [Delivered(old(ring.mem[currentBuffer][..size]))]
      ensures log.consumed == old(log.consumed) && log.left == old(log.left) && old(log.filled) <= log.filled
    {
      Interfere();
      ghost var s := Snap();
      BufferKept(c, old(Snap()), s);
      AnnounceReady(c, s);
      log := log.(passed := log.passed + [Delivered(ring.mem[currentBuffer][..size])]);
      rv := rv.(data := Some(currentBuffer), len := size, valid := true);
      dsr := dsr.(pc := Count);
      assert Snap() == s.(rv := s.rv.(data := Some(s.dsr.cur), len := s.dsr.size, valid := true),
                          dsr := s.dsr.(pc := Count),
                          log := s.log.(passed := s.log.passed + [Delivered(s.ring.mem[s.dsr.cur][..s.dsr.size])]));
    }

    method CountEvent()
      requires Valid() && dsr.pc == Count
      modifies this
      ensures Valid() && dsr == old(dsr).(pc := AwaitRead) && log.passed == old(log.passed)
      ensures log.consumed == old(log.consumed) && log.left == old(log.left) && old(log.filled) <= log.filled
    {
      Interfere();
      ghost var s := Snap();
      CountReady(c, s);
      rv := rv.(events := (rv.events + 1) % WORD);
      dsr := dsr.(pc := AwaitRead);
      assert Snap() == s.(rv := s.rv.(events := (s.rv.events + 1) % WORD), dsr := s.dsr.(pc := AwaitRead));
    }

    /** The wait ends: whatever else happens meanwhile, the reader gets closer with every step it takes. */
    method AwaitReader()
      requires Valid() && dsr.pc == AwaitRead
      modifies this
      ensures Valid() && Undisturbed(old(Snap()), Snap()) && rv.sig
      ensures netxFlags == old(netxFlags) && currentBuffer == old(currentBuffer)
    {
      Interfere();
      while !rv.sig
        invariant Valid() && Undisturbed(old(Snap()), Snap())
        invariant netxFlags == old(netxFlags) && currentBuffer == old(currentBuffer)
        decreases Distance(rv, rd)
      {
        ReaderApproaches(c, Snap());
        NextUndisturbed(c, Snap(), Read);
        OtherStep(Read);
        Interfere();
      }
    }

    /** One turn of the drain loop: reject or hand over the current buffer, then give it back. */
    method DrainBuffer()
      requires Valid() && dsr.pc == ReadSize
      modifies this
      ensures Valid() && dsr.pc == Loop && dsr.unequal == old(dsr.unequal)
      ensures dsr.used == old(dsr.used) - {old(currentBuffer)}
      ensures log.left == old(log.left) - 1 && |log.consumed| == old(|log.consumed|) + 1
      ensures old(|log.filled|) <= |log.filled|
    {
      Interfere();
      DrainReady(c, Snap());
      var size := ring.used[currentBuffer];
      dsr := dsr.(size := size, pc := if size > c.size then Reject else Announce);

      if size > c.size {
        SignalDriverError(size);
      } else {
        NotifyData(size);
      }

      Interfere();
      FreeBuffer();
    }

    /** Drain every buffer the snapshot shows. */
    method DrainRing()
      requires Valid() && dsr.pc == AckData
      modifies this
      ensures Valid() && dsr.pc == StatusCheck && dsr.unequal == old(dsr.unequal)
      ensures |log.consumed| >= old(|log.filled|)
    {
      var used := TakeSnapshot();
      ghost var goal := |log.consumed| + log.left;
      while currentBuffer in used
        invariant Valid() && dsr.pc == Loop && dsr.used == used && dsr.unequal == old(dsr.unequal)
        invariant |log.consumed| + log.left == goal
        decreases used
      {
        DrainReady(c, Snap());
        dsr := dsr.(pc := ReadSize);
        used := used - {currentBuffer};
        DrainBuffer();
      }
      LoopExit(c, Snap());
      DrainReady(c, Snap());
      dsr := dsr.(pc := StatusCheck);
    }

    /** NEWDATA is acknowledged first; only then are the buffer flags read. */
    method TakeSnapshot() returns (used: Flags)
      requires Valid() && dsr.pc == AckData
      modifies this
      ensures Valid() && dsr.pc == Loop && dsr.used == used && dsr.unequal == old(dsr.unequal)
      ensures |log.consumed| + log.left >= old(|log.filled|)
    {
      AckNewData();
      Interfere();
      ghost var s := Snap();
      SnapshotReady(c, s);
      used := Xor(ring.host, ring.netx);
      log := log.(left := |log.filled| - |log.consumed|);
      dsr := dsr.(used := used, pc := Loop);
      assert Snap() == s.(dsr := s.dsr.(used := used, pc := Loop),
                          log := s.log.(left := |s.log.filled| - |s.log.consumed|));
    }

    method AckNewData()
      requires Valid() && dsr.pc == AckData
      modifies this
      ensures Valid() && dsr == old(dsr).(pc := Snapshot) && old(|log.filled|) <= |log.filled|
    {
      Interfere();
      DrainReady(c, Snap());
      ToggleBit(NEWDATA);
      dsr := dsr.(pc := Snapshot);
    }

    /** Report the capture state and acknowledge it; OFF completes a stop. */
    method NotifyState()
      requires Valid() && dsr.pc == ReadState
      modifies this
      ensures Valid() && dsr.pc == Sleep && log.consumed == old(log.consumed) && netxFlags == old(netxFlags)
    {
      Interfere();
      StatusReady(c, Snap());
      var state := fw.state;
      dsr := dsr.(seen := state, pc := AckStatus);

      AckNewStatus(state);
      if state == OFF {
        CompleteStop();
      }
    }

    method CompleteStop()
      requires Valid() && dsr.pc == StopEvent
      modifies this
      ensures Valid() && dsr == old(dsr).(pc := Sleep) && api.stopEvent
      ensures log.consumed == old(log.consumed) && netxFlags == old(netxFlags)
    {
      Interfere();
      StatusReady(c, Snap());
      api := api.(stopEvent := true, completed := true);
      dsr := dsr.(pc := Sleep);
    }

    method AckNewStatus(state: nat)
      requires Valid() && dsr.pc == AckStatus && dsr.seen == state
      modifies this
      ensures Valid() && dsr == old(dsr).(pc := if state == OFF then StopEvent else Sleep)
      ensures log.consumed == old(log.consumed) && netxFlags == old(netxFlags)
    {
      Interfere();
      StatusReady(c, Snap());
      ToggleBit(NEWSTATUS);
      dsr := dsr.(pc := if state == OFF then StopEvent else Sleep);
    }

    /** One processing pass: everything filled when it starts is drained when it returns. */
    method Process()
      requires Valid() && dsr.pc == Begin
      modifies this
      ensures Valid() && dsr.pc == Sleep
      ensures !Unequal(netxFlags, host, NEWDATA) && !Unequal(netxFlags, host, NEWSTATUS)
      ensures old(Unequal(netxFlags, host, NEWDATA)) ==> |log.consumed| >= old(|log.filled|)
    {
      DrainReady(c, Snap());
      var unequal := Xor(netxFlags, host);
      dsr := dsr.(unequal := unequal, pc := if NEWDATA in unequal then AckData else StatusCheck);
      if NEWDATA in unequal {
        DrainRing();
      }
      StatusReady(c, Snap());
      dsr := dsr.(pc := if NEWSTATUS in unequal then ReadState else Sleep);
      if NEWSTATUS in unequal {
        NotifyState();
      }
      IndicationsSeen(c, Snap());
    }

    /** One turn of the DSR thread, woken by the interrupt handler. */
    method DsrThread()
      requires Valid() && dsr.pc == Sleep && irq.wake
      modifies this
      ensures Valid() && dsr.pc == Sleep
      ensures !Unequal(netxFlags, host, NEWDATA) && !Unequal(netxFlags, host, NEWSTATUS)
    {
      HandlerReady(c, Snap());
      irq := irq.(wake := false);
      dsr := dsr.(pc := ReadIndex);
      var request := DsrHandler();
      if request {
        Process();
      }
      IndicationsSeen(c, Snap());
    }

    /**
    Wait for a channel. The handshake event wakes the caller at most `wakeups` times before its
    timeout expires. Success means the real cell is in the awaited state, not just the cached one.
    */
    method WaitForBitState(bit: nat, unequal: bool, timeout: nat, wakeups: nat) returns (ok: bool)
      requires Valid() && IsGuarded(bit)
      modifies this
      ensures Valid()
      ensures ok <==> Unequal(netxFlags, host, bit) == unequal
      ensures ok && unequal == IsIndication(bit) ==> HostTurn(netx, host, bit)
    {
      var left := wakeups;
      ok := Unequal(netxFlags, host, bit) == unequal;
      while !ok && timeout > 0 && left > 0
        invariant Valid()
        invariant ok <==> Unequal(netxFlags, host, bit) == unequal
        decreases left
      {
        if dsr.pc == Sleep && irq.wake {
          DsrThread();
        }
        Interfere();
        ok := Unequal(netxFlags, host, bit) == unequal;
        left := left - 1;
      }
      CachedTurn(c, Snap(), bit);
    }

    method SignalDriverError(size: nat)
      requires Valid() && dsr.pc == Reject && dsr.size == size
      modifies this
      ensures Unequal(netxFlags, host, DRV_ERROR)
      ensures Valid() && dsr == old(dsr).(pc := Free)
      ensures log.consumed == old(log.consumed) && log.left == old(log.left) && old(|log.filled|) <= |log.filled|
    {
      Interfere();
      ghost var s := Snap();
      RejectReady(c, s);
      if HostTurn(netxFlags, host, DRV_ERROR) {
        ToggleBit(DRV_ERROR);
      }
      log := log.(passed := log.passed + [Rejected(size)]);
      dsr := dsr.(pc := Free);
      assert Snap() == s.(host := if HostTurn(s.dsr.cached, s.host, DRV_ERROR) then Toggle(s.host, DRV_ERROR) else s.host,
                          dsr := s.dsr.(pc := Free), log := s.log.(passed := s.log.passed + [Rejected(s.dsr.size)]));
    }

    method FreeBuffer()
      requires Valid() && dsr.pc == Free
      modifies this
      ensures Valid() && dsr.pc == Loop && dsr.unequal == old(dsr.unequal)
      ensures dsr.used == old(dsr.used) - {old(currentBuffer)}
      ensures log.left == old(log.left) - 1 && |log.consumed| == old(|log.consumed|) + 1
      ensures log.filled == old(log.filled)
    {
      ghost var s := Snap();
      FreeReady(c, s);
      log := log.(left := log.left - 1, consumed := log.consumed + [Freed(c, Snap())]);
      ring := ring.(host := Toggle(ring.host, currentBuffer));
      dsr := dsr.(used := dsr.used - {currentBuffer}, cur := Wrap(currentBuffer + 1, c.count), pc := Loop);
      currentBuffer := currentBuffer + 1;
      if currentBuffer >= c.count {
        currentBuffer := 0;
      }
      assert Snap() == s.(ring := s.ring.(host := Toggle(s.ring.host, s.dsr.cur)),
                          dsr := s.dsr.(used := s.dsr.used - {s.dsr.cur}, cur := Wrap(s.dsr.cur + 1, c.count), pc := Loop),
                          log := s.log.(left := s.log.left - 1, consumed := s.log.consumed + [Freed(c, s)]));
    }
  }

  /** What the DSR finds unchanged after interference. */
  ghost predicate Undisturbed(s: State, t: State) {
    && t.dsr == s.dsr
    && t.log.consumed == s.log.consumed && t.log.passed == s.log.passed && t.log.taken == s.log.taken
    && t.log.left == s.log.left && s.log.filled <= t.log.filled
    && (s.irq.wake ==> t.irq.wake)
    && (s.dsr.pc == AwaitRead ==> Distance(t.rv, t.rd) <= Distance(s.rv, s.rd))
  }

  lemma NextKeepsDsr(c: Config, s: State, a: Action)
    requires a != DsrStep && Enabled(c, s, a)
    ensures Next(c, s, a).dsr == s.dsr
  {
  }

  lemma NextUndisturbed(c: Config, s: State, a: Action)
    requires Reachable(c, s) && a != DsrStep && Enabled(c, s, a)
    ensures Undisturbed(s, Next(c, s, a))
  {
    NextLog(c, s, a);
    if s.dsr.pc == AwaitRead { OthersDoNotDelay(c, s, a); }
  }

  lemma NextLog(c: Config, s: State, a: Action)
    requires a != DsrStep && Enabled(c, s, a)
    ensures var t := Next(c, s, a);
            && t.dsr == s.dsr && t.log.consumed == s.log.consumed && t.log.passed == s.log.passed
            && t.log.taken == s.log.taken && t.log.left == s.log.left && s.log.filled <= t.log.filled
            && (s.irq.wake ==> t.irq.wake)
  {
  }

  lemma IsrReady(c: Config, s: State)
    requires Reachable(c, s)
    ensures s.irq.idx < |s.irq.slots| && Reachable(c, IsrNext(s))
  {
    ReachableSampling(c, s);
    StepReaches(c, s, Isr);
  }

  lemma CachedTurn(c: Config, s: State, bit: nat)
    requires Reachable(c, s) && IsGuarded(bit)
    ensures HostTurn(s.dsr.cached, s.host, bit) ==> HostTurn(s.netx, s.host, bit)
  {
    ReachableCell(c, s);
    CachedIsSafe(s, bit);
  }
}
