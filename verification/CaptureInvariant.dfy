/** What every step of a capture session keeps. */
module CaptureInvariant {
  import opened Words
  import opened Handshake
  import opened Capture

  // ---------------------------------------------------------------------------------------------
  // The invariant, one predicate per concern
  // ---------------------------------------------------------------------------------------------

  /** Where the DSR stands with respect to the double buffer. */
  datatype Stage = Elsewhere | Looking | Checking | Flipping | Clearing | Taking

  function StageOf(pc: DsrPc): Stage {
    match pc
    case ReadIndex => Looking
    case CheckValid => Checking
    case FlipIndex => Flipping
    case ClearValid => Clearing
    case Diff => Taking
    case Store => Taking
    case _ => Elsewhere
  }

  /** The DSR has flipped the double buffer and not yet taken the sample over. */
  predicate Holding(at: Stage) { at == Clearing || at == Taking }

  /** A buffer is being drained. */
  predicate InBuffer(pc: DsrPc) {
    pc == ReadSize || pc == Reject || pc == Announce || pc == Count || pc == AwaitRead || pc == Free
  }

  /** Between the buffer snapshot and the end of the drain loop. */
  predicate Draining(pc: DsrPc) { pc == Loop || InBuffer(pc) }

  predicate IrqShape(irq: Irq, held: nat) { |irq.slots| == 2 && irq.idx < 2 && held < 2 }

  ghost predicate RingShape(c: Config, ring: Ring, next: nat, cur: nat) {
    && c.Valid()
    && cur < c.count && next < c.count
    && |ring.used| == c.count && |ring.mem| == c.count
    && (forall k | 0 <= k < c.count :: |ring.mem[k]| == c.size)
  }

  /** The newest sample the DSR has not begun to take over, or else the real flags. */
  function Pending(irq: Irq, held: nat, netx: Flags): Flags
    requires IrqShape(irq, held)
  {
    if irq.slots[irq.idx].valid then irq.slots[irq.idx].flags else netx
  }

  function Held(irq: Irq, held: nat, at: Stage, netx: Flags): Flags
    requires IrqShape(irq, held)
  {
    if Holding(at) then irq.slots[held].flags else Pending(irq, held, netx)
  }

  /** Cached flags, sample held, sample pending and real flags: each at least as permissive as the one before. */
  ghost predicate Chain(cached: Flags, held: Flags, pending: Flags, netx: Flags, host: Flags) {
    Leads(cached, held, host) && Leads(held, pending, host) && Leads(pending, netx, host)
  }

  ghost predicate Views(s: State)
    requires IrqShape(s.irq, s.dsr.held)
  {
    Chain(s.dsr.cached, Held(s.irq, s.dsr.held, StageOf(s.dsr.pc), s.netx), Pending(s.irq, s.dsr.held, s.netx), s.netx, s.host)
  }

  /** Whoever was granted a channel still has it. */
  ghost predicate Grants(api: Api, cached: Flags, host: Flags) {
    && (forall bit | bit in api.granted :: (IsCallerBit(bit) || bit == STARTSTOP) && HostTurn(cached, host, bit))
    && (STARTSTOP in api.granted <==> api.pc == StopGranted || api.pc == StopArmed)
  }

  ghost predicate Increasing(q: seq<nat>) { forall i, j | 0 <= i < j < |q| :: q[i] < q[j] }

  function Last(q: seq<nat>): nat { if q == [] then 0 else q[|q| - 1] }

  /** The double buffer between ISR and DSR: the pending sample is the newest one taken. */
  ghost predicate Buffer(irq: Irq, at: Stage, held: nat, cached: Flags, samples: seq<Flags>, taken: seq<nat>)
    requires IrqShape(irq, held)
  {
    var last := |samples| - 1;
    var pending := irq.slots[irq.idx];
    var newest := if Holding(at) then irq.slots[held].no else Last(taken);
    && taken != [] && Increasing(taken) && Last(taken) <= newest <= last
    && cached == samples[Last(taken)]
    && (at == Checking || at == Flipping ==> held == irq.idx)
    && (at == Flipping ==> pending.valid)
    && (at != Clearing ==> !irq.slots[1 - irq.idx].valid)
    && (Holding(at) ==> held == 1 - irq.idx && Last(taken) < newest && irq.slots[held].flags == samples[newest])
    && (if pending.valid then newest < last && pending.no == last && pending.flags == samples[last] else newest == last)
  }

  /** Every change of the netX half is on its way to the DSR. */
  ghost predicate Wakeup(netx: Flags, irq: Irq, held: nat, at: Stage, samples: seq<Flags>)
    requires IrqShape(irq, held)
  {
    && samples != []
    && (netx == samples[|samples| - 1] || irq.pending)
    && (irq.slots[irq.idx].valid ==> irq.wake || at == Looking || at == Checking || at == Flipping)
  }

  /** When the DSR sees an indication in its cached flags: `data` and `status` say it does now. */
  ghost predicate Indications(d: Dsr, data: bool, status: bool) {
    && (InDsrHandler(d.pc) && d.pc != Signal ==> !data && !status)
    && (d.pc == Signal ==> (data <==> NEWDATA in d.changed) && (status <==> NEWSTATUS in d.changed))
    && (d.pc == AckData ==> data)
    && (d.pc == Snapshot || Draining(d.pc) || InStatus(d.pc) ==> !data)
    && (d.pc == AckData || d.pc == Snapshot || Draining(d.pc) || d.pc == StatusCheck ==>
          (status <==> NEWSTATUS in d.unequal))
    && (d.pc == ReadState || d.pc == AckStatus ==> status)
    && (d.pc == StopEvent ==> !status)
  }

  ghost predicate Seen(s: State)
    requires IrqShape(s.irq, s.dsr.held)
  {
    && Indications(s.dsr, Unequal(s.dsr.cached, s.host, NEWDATA), Unequal(s.dsr.cached, s.host, NEWSTATUS))
    && (s.dsr.pc == Store ==> s.dsr.changed == Xor(s.dsr.cached, s.irq.slots[s.dsr.held].flags))
  }

  /** How far buffer k lies ahead of `cur`, cyclically. */
  function Dist(cur: nat, n: nat, k: nat): int { if k >= cur then k - cur else k + n - cur }

  /** Buffer k is one of the `cnt` buffers from `cur` on. */
  predicate InWindow(cur: nat, cnt: int, n: nat, k: nat) { k < n && Dist(cur, n, k) < cnt }

  ghost function WindowSet(cur: nat, cnt: int, n: nat): Flags {
    set k | 0 <= k < n && InWindow(cur, cnt, n, k)
  }

  /** Unequal buffer flags are exactly the cyclic window at `ulCurrentBuffer`, with the right contents. */
  ghost predicate Window(c: Config, ring: Ring, fw: Firmware, cur: nat, filled: seq<Fill>, done: nat)
    requires RingShape(c, ring, fw.next, cur)
  {
    var cnt := |filled| - done;
    && 0 <= cnt <= c.count
    && (forall k: nat :: Unequal(ring.netx, ring.host, k) <==> InWindow(cur, cnt, c.count, k))
    && cur == done % c.count && fw.next == Wrap(cur + cnt, c.count)
    && (fw.pc == FwFilled ==> cnt < c.count)
    && (forall f | f in filled :: |f.data| == c.size)
    && (forall k: nat | k < c.count && InWindow(cur, cnt, c.count, k) ::
          filled[done + Dist(cur, c.count, k)] == Fill(ring.used[k], ring.mem[k]))
  }

  /** The running pass: its snapshot is a prefix of the window. */
  ghost predicate Pass(c: Config, d: Dsr, used: seq<nat>, left: int, cnt: int) {
    && (Draining(d.pc) ==> 0 <= left <= cnt && d.used == WindowSet(d.cur, left, c.count))
    && (InBuffer(d.pc) ==> left > 0)
    && (InBuffer(d.pc) && d.pc != ReadSize ==> d.cur < |used| && d.size == used[d.cur])
    && (d.pc == Reject ==> d.size > c.size)
    && (d.pc == Announce || d.pc == Count || d.pc == AwaitRead ==> d.size <= c.size)
  }

  function BlockOf(o: Outcome): seq<seq<byte>> {
    match o case Delivered(b) => [b] case Rejected(_) => []
  }

  /** The blocks among the outcomes, in order. */
  function DeliveredOf(os: seq<Outcome>): seq<seq<byte>> {
    if os == [] then [] else DeliveredOf(os[..|os| - 1]) + BlockOf(os[|os| - 1])
  }

  predicate Passing(pc: DsrPc) { pc == Count || pc == AwaitRead || pc == Free }

  /** Blocks are passed on in filling order; at most the current one is passed and not yet consumed. */
  ghost predicate Order(c: Config, passing: bool, passed: seq<Outcome>, consumed: seq<Outcome>, filled: seq<Fill>) {
    && |passed| == |consumed| + (if passing then 1 else 0)
    && |passed| <= |filled|
    && consumed == passed[..|consumed|]
    && (forall i | 0 <= i < |passed| :: |filled[i].data| == c.size && passed[i] == OutcomeOf(c, filled[i]))
  }

  predicate Notifying(pc: DsrPc) { pc == Count || pc == AwaitRead }

  /** The reader's side of the rendezvous while block `cur` is being handed over. */
  ghost predicate ReaderTurn(v: Rendezvous, r: Reader, cur: nat, block: seq<byte>) {
    match r.pc
    case RIdle =>
      if v.sig then v.readCount == v.events && v.data == None
      else v.events == (v.readCount + 1) % WORD && v.data == Some(cur)
    case RStore => !v.sig && v.events == (v.readCount + 1) % WORD && v.data == Some(cur) && r.event == v.events
    case RCheck => !v.sig && v.readCount == v.events && v.data == Some(cur)
    case RCopy =>
      !v.sig && v.readCount == v.events && v.data == Some(cur) && |r.got| <= |block| && r.got == block[..|r.got|]
    case RClear => !v.sig && v.readCount == v.events && v.data == Some(cur)
    case RSignal => !v.sig && v.readCount == v.events && v.data == None
  }

  predicate Copied(v: Rendezvous, r: Reader) { v.sig || r.pc == RClear || r.pc == RSignal }

  /** Notifier and reader take turns. `block` is the content of the current buffer as announced. */
  ghost predicate Handover(pc: DsrPc, v: Rendezvous, r: Reader, cur: nat, block: seq<byte>) {
    && v.events < WORD && v.readCount < WORD
    && (pc == AwaitRead ==> v.valid && v.len == |block| && ReaderTurn(v, r, cur, block))
    && (pc != AwaitRead ==> r.pc == RIdle && v.readCount == v.events && !v.sig)
    && (pc == Count ==> v.valid && v.len == |block| && v.data == Some(cur))
    && (!Notifying(pc) ==> v.data == None)
  }

  /** What has been copied to user space is what has been passed on, but for the block in hand. */
  ghost predicate Copies(pc: DsrPc, copied: bool, block: seq<byte>, passed: seq<Outcome>, out: seq<seq<byte>>) {
    && (Notifying(pc) ==> passed != [] && passed[|passed| - 1] == Delivered(block))
    && (if pc == Count || (pc == AwaitRead && !copied)
        then out + [block] == DeliveredOf(passed)
        else out == DeliveredOf(passed))
  }

  function Block(ring: Ring, cur: nat, size: nat): seq<byte> {
    if cur < |ring.mem| && size <= |ring.mem[cur]| then ring.mem[cur][..size] else []
  }

  ghost predicate Hand(s: State) {
    && !s.log.eagain
    && Handover(s.dsr.pc, s.rv, s.rd, s.dsr.cur, Block(s.ring, s.dsr.cur, s.dsr.size))
    && Copies(s.dsr.pc, Copied(s.rv, s.rd), Block(s.ring, s.dsr.cur, s.dsr.size), s.log.passed, s.log.copied)
  }

  /** NEWDATA acknowledged and no buffer half flipped: nothing is filled beyond what the pass will drain. */
  predicate NothingMissed(raised: bool, flipped: bool, pc: DsrPc, cnt: int, left: int) {
    !raised && !flipped && pc != Snapshot ==> cnt == (if Draining(pc) then left else 0)
  }

  predicate SameData(v: Flags, netx: Flags, host: Flags) {
    Unequal(v, host, NEWSTATUS) ==> (NEWDATA in v <==> NEWDATA in netx)
  }

  /** Once OFF is published, a NEWSTATUS that the DSR can see comes with every NEWDATA. */
  ghost predicate OffSeen(s: State)
    requires IrqShape(s.irq, s.dsr.held)
  {
    s.fw.state == OFF ==>
      && s.fw.pc != FwFilled && s.fw.pc != FwFlipped
      && SameData(s.dsr.cached, s.netx, s.host)
      && SameData(Held(s.irq, s.dsr.held, StageOf(s.dsr.pc), s.netx), s.netx, s.host)
      && SameData(Pending(s.irq, s.dsr.held, s.netx), s.netx, s.host)
  }

  ghost predicate Stopping(state: nat, pc: DsrPc, status: bool, seen: nat, raised: bool, cnt: int, stopped: bool) {
    && (state == OFF && (pc == Snapshot || Draining(pc) || pc == StatusCheck) && status ==> !raised)
    && (state == OFF && (pc == ReadState || pc == AckStatus) ==> !raised)
    && (pc == AckStatus ==> seen == state)
    && (pc == StopEvent || stopped ==> state == OFF && cnt == 0 && !raised)
  }

  ghost predicate Publishing(s: State) { s.fw.pc == FwPublished ==> !Unequal(s.netx, s.host, NEWSTATUS) }

  function InFlight(l: Log): int { |l.filled| - |l.consumed| }

  function Stopped(a: Api): bool { a.stopEvent || a.pc == Closed }

  ghost predicate Sampling(s: State) {
    && IrqShape(s.irq, s.dsr.held)
    && Buffer(s.irq, StageOf(s.dsr.pc), s.dsr.held, s.dsr.cached, s.log.samples, s.log.taken)
    && Wakeup(s.netx, s.irq, s.dsr.held, StageOf(s.dsr.pc), s.log.samples)
  }

  ghost predicate Cell(s: State) {
    IrqShape(s.irq, s.dsr.held) && Views(s) && Grants(s.api, s.dsr.cached, s.host) && Seen(s)
  }

  ghost predicate Filling(c: Config, s: State) {
    && RingShape(c, s.ring, s.fw.next, s.dsr.cur)
    && Window(c, s.ring, s.fw, s.dsr.cur, s.log.filled, |s.log.consumed|)
  }

  ghost predicate Progress(c: Config, s: State) {
    && Pass(c, s.dsr, s.ring.used, s.log.left, InFlight(s.log))
    && Order(c, Passing(s.dsr.pc), s.log.passed, s.log.consumed, s.log.filled)
  }

  ghost predicate CaughtUp(s: State) {
    NothingMissed(Unequal(s.netx, s.host, NEWDATA), s.fw.pc == FwFlipped, s.dsr.pc, InFlight(s.log), s.log.left)
  }

  ghost predicate Stop(s: State) {
    && IrqShape(s.irq, s.dsr.held) && OffSeen(s) && Publishing(s)
    && Stopping(s.fw.state, s.dsr.pc, NEWSTATUS in s.dsr.unequal, s.dsr.seen, Unequal(s.netx, s.host, NEWDATA),
                InFlight(s.log), Stopped(s.api))
  }

  /** The firmware has published OFF, and the DSR has acknowledged it. */
  predicate OffAcknowledged(s: State) {
    s.fw.state == OFF && s.fw.pc != FwPublished && !Unequal(s.netx, s.host, NEWSTATUS)
  }

  /** Completion is signalled once, when OFF has been acknowledged, and not forgotten unless the stop thread resets it. */
  ghost predicate Completion(s: State) {
    && (OffAcknowledged(s) <==> s.dsr.pc == StopEvent || s.api.completed)
    && (s.dsr.pc == StopEvent ==> !s.api.completed)
    && (s.api.completed <==> s.api.stopEvent || s.api.pc == Closed || s.api.lost)
    && (s.api.lost ==> !s.api.stopEvent && s.api.pc != Closed && s.api.pc != Capturing && s.api.pc != StopGranted)
  }

  ghost predicate Inv(c: Config, s: State) {
    Sampling(s) && Cell(s) && Filling(c, s) && Progress(c, s) && Hand(s) && CaughtUp(s) && Stop(s) && Completion(s)
  }

  lemma InitEstablishes(c: Config, s: State)
    requires Init(c, s)
    ensures Inv(c, s)
  {
  }

  // ---------------------------------------------------------------------------------------------
  // Facts the step lemmas share
  // ---------------------------------------------------------------------------------------------

  /** What the cached flags let the host do, every later view and the real flags let it do. */
  lemma CachedIsSafe(s: State, bit: nat)
    requires IrqShape(s.irq, s.dsr.held) && Views(s) && IsGuarded(bit)
    ensures var held := Held(s.irq, s.dsr.held, StageOf(s.dsr.pc), s.netx);
            var pending := Pending(s.irq, s.dsr.held, s.netx);
            && (HostTurn(s.dsr.cached, s.host, bit) ==> HostTurn(held, s.host, bit))
            && (HostTurn(held, s.host, bit) ==> HostTurn(pending, s.host, bit))
            && (HostTurn(pending, s.host, bit) ==> HostTurn(s.netx, s.host, bit))
  {
  }

  /** One buffer further on, every other buffer is one closer and the one left behind is the farthest. */
  lemma DistAdvances(cur: nat, n: nat, k: nat)
    requires cur < n && k < n
    ensures Dist(Wrap(cur + 1, n), n, k) == if k == cur then n - 1 else Dist(cur, n, k) - 1
    ensures Dist(cur, n, k) == 0 <==> k == cur
  {
    if cur + 1 == n {
      assert Wrap(cur + 1, n) == 0;
      assert Dist(0, n, k) == k;
    } else {
      assert Wrap(cur + 1, n) == cur + 1;
      assert k < cur ==> Dist(cur, n, k) == k + n - cur;
    }
  }

  lemma WindowAdvancesAt(cur: nat, cnt: int, n: nat, k: nat)
    requires cur < n && 0 < cnt <= n
    ensures InWindow(Wrap(cur + 1, n), cnt - 1, n, k) <==> InWindow(cur, cnt, n, k) && k != cur
  {
    if k < n {
      DistAdvances(cur, n, k);
    }
  }

  /** Moving on takes exactly the current buffer off the window. */
  lemma WindowAdvances(cur: nat, cnt: int, n: nat)
    requires cur < n && 0 < cnt <= n
    ensures forall k: nat :: InWindow(Wrap(cur + 1, n), cnt - 1, n, k) <==> InWindow(cur, cnt, n, k) && k != cur
    ensures WindowSet(Wrap(cur + 1, n), cnt - 1, n) == WindowSet(cur, cnt, n) - {cur}
  {
    var next, before := WindowSet(Wrap(cur + 1, n), cnt - 1, n), WindowSet(cur, cnt, n);
    forall k: nat
      ensures InWindow(Wrap(cur + 1, n), cnt - 1, n, k) <==> InWindow(cur, cnt, n, k) && k != cur
      ensures k in next <==> k in before - {cur}
    {
      WindowAdvancesAt(cur, cnt, n, k);
    }
    assert next == before - {cur};
  }

  lemma WindowGrowsAt(cur: nat, cnt: int, n: nat, k: nat)
    requires cur < n && 0 <= cnt < n
    ensures InWindow(cur, cnt + 1, n, k) <==> InWindow(cur, cnt, n, k) || k == Wrap(cur + cnt, n)
  {
    if cur + cnt < n {
      assert Wrap(cur + cnt, n) == cur + cnt;
    } else {
      assert Wrap(cur + cnt, n) == cur + cnt - n;
    }
    assert k < n ==> (Dist(cur, n, k) == cnt <==> k == Wrap(cur + cnt, n));
  }

  /** Filling one more buffer adds exactly the one behind the window. */
  lemma WindowGrows(cur: nat, cnt: int, n: nat)
    requires cur < n && 0 <= cnt < n
    ensures forall k: nat :: InWindow(cur, cnt + 1, n, k) <==> InWindow(cur, cnt, n, k) || k == Wrap(cur + cnt, n)
    ensures !InWindow(cur, cnt, n, Wrap(cur + cnt, n))
  {
    forall k: nat
      ensures InWindow(cur, cnt + 1, n, k) <==> InWindow(cur, cnt, n, k) || k == Wrap(cur + cnt, n)
    {
      WindowGrowsAt(cur, cnt, n, k);
    }
    assert Dist(cur, n, Wrap(cur + cnt, n)) == cnt;
  }

  // ---------------------------------------------------------------------------------------------
  // What a step leaves alone
  // ---------------------------------------------------------------------------------------------

  /** The interrupt side is untouched, and the DSR is as far with it as before. */
  predicate SameIrqSide(s: State, t: State) {
    && t.netx == s.netx && t.irq == s.irq && t.dsr.held == s.dsr.held && t.dsr.cached == s.dsr.cached
    && StageOf(t.dsr.pc) == StageOf(s.dsr.pc)
  }

  lemma SameSampling(s: State, t: State)
    requires Sampling(s) && SameIrqSide(s, t) && t.log.samples == s.log.samples && t.log.taken == s.log.taken
    ensures Sampling(t)
  {
  }

  lemma SameViews(s: State, t: State)
    requires IrqShape(s.irq, s.dsr.held) && Views(s) && SameIrqSide(s, t) && t.host == s.host
    ensures Views(t)
  {
  }

  /** The host toggles a bit on its turn. */
  lemma HostToggleViews(s: State, t: State, bit: nat)
    requires IrqShape(s.irq, s.dsr.held) && Views(s) && SameIrqSide(s, t) && t.host == Toggle(s.host, bit)
    requires IsGuarded(bit) ==> HostTurn(s.dsr.cached, s.host, bit)
    ensures Views(t)
  {
    if IsGuarded(bit) { CachedIsSafe(s, bit); }
    var held := Held(s.irq, s.dsr.held, StageOf(s.dsr.pc), s.netx);
    var pending := Pending(s.irq, s.dsr.held, s.netx);
    HostToggleLeads(s.dsr.cached, held, s.host, bit);
    HostToggleLeads(held, pending, s.host, bit);
    HostToggleLeads(pending, s.netx, s.host, bit);
  }

  lemma SameOffSeen(s: State, t: State)
    requires IrqShape(s.irq, s.dsr.held) && OffSeen(s) && SameIrqSide(s, t) && t.fw == s.fw
    requires NEWSTATUS in t.host <==> NEWSTATUS in s.host
    ensures OffSeen(t)
  {
  }

  /** Nothing the filling depends on has changed. */
  lemma SameFilling(c: Config, s: State, t: State)
    requires Filling(c, s) && t.ring == s.ring && t.dsr.cur == s.dsr.cur
    requires t.fw.next == s.fw.next && (t.fw.pc == FwFilled ==> s.fw.pc == FwFilled)
    requires t.log.filled == s.log.filled && |t.log.consumed| == |s.log.consumed|
    ensures Filling(c, t)
  {
  }

  // ---------------------------------------------------------------------------------------------
  // DSR handler
  // ---------------------------------------------------------------------------------------------

  lemma HandlerLeaves(s: State)
    requires HandlerEnabled(s)
    ensures var t := HandlerNext(s);
            && t == s.(irq := t.irq, dsr := t.dsr, log := s.log.(taken := t.log.taken))
            && t.dsr == s.dsr.(pc := t.dsr.pc, held := t.dsr.held, cached := t.dsr.cached, changed := t.dsr.changed)
            && (InDsrHandler(t.dsr.pc) || t.dsr.pc == Begin)
            && (t.dsr.pc == Begin ==> s.dsr.pc == Signal)
  {
  }

  lemma HandlerBuffer(s: State)
    requires HandlerEnabled(s) && Sampling(s)
    ensures var t := HandlerNext(s);
            && IrqShape(t.irq, t.dsr.held)
            && Buffer(t.irq, StageOf(t.dsr.pc), t.dsr.held, t.dsr.cached, t.log.samples, t.log.taken)
  {
    if s.dsr.pc == Store { StoreBuffer(s); }
    else if s.dsr.pc == FlipIndex { FlippedBuffer(s); }
    else if s.dsr.pc == ClearValid { ClearedBuffer(s); }
    else { LookingBuffer(s); }
  }

  /** The DSR takes a sample over that is newer than any it took before. */
  lemma StoreBuffer(s: State)
    requires HandlerEnabled(s) && Sampling(s) && s.dsr.pc == Store
    ensures var t := HandlerNext(s);
            Buffer(t.irq, StageOf(t.dsr.pc), t.dsr.held, t.dsr.cached, t.log.samples, t.log.taken)
  {
    var t := HandlerNext(s);
    var slot := s.irq.slots[s.dsr.held];
    assert t.log.taken == s.log.taken + [slot.no];
    IncreasingMore(s.log.taken, slot.no);
  }

  lemma IncreasingMore(q: seq<nat>, x: nat)
    requires Increasing(q) && q != [] && Last(q) < x
    ensures Increasing(q + [x]) && Last(q + [x]) == x
  {
    forall i, j | 0 <= i < j < |q| + 1
      ensures (q + [x])[i] < (q + [x])[j]
    {
      assert i < |q| - 1 ==> q[i] < q[|q| - 1];
    }
  }

  lemma FlippedBuffer(s: State)
    requires HandlerEnabled(s) && Sampling(s) && s.dsr.pc == FlipIndex
    ensures var t := HandlerNext(s);
            && IrqShape(t.irq, t.dsr.held)
            && Buffer(t.irq, StageOf(t.dsr.pc), t.dsr.held, t.dsr.cached, t.log.samples, t.log.taken)
  {
  }

  lemma ClearedBuffer(s: State)
    requires HandlerEnabled(s) && Sampling(s) && s.dsr.pc == ClearValid
    ensures var t := HandlerNext(s);
            && IrqShape(t.irq, t.dsr.held)
            && Buffer(t.irq, StageOf(t.dsr.pc), t.dsr.held, t.dsr.cached, t.log.samples, t.log.taken)
  {
  }

  lemma LookingBuffer(s: State)
    requires HandlerEnabled(s) && Sampling(s)
    requires s.dsr.pc != FlipIndex && s.dsr.pc != ClearValid && s.dsr.pc != Store
    ensures var t := HandlerNext(s);
            && IrqShape(t.irq, t.dsr.held)
            && Buffer(t.irq, StageOf(t.dsr.pc), t.dsr.held, t.dsr.cached, t.log.samples, t.log.taken)
  {
    var t := HandlerNext(s);
    assert t.irq.slots == s.irq.slots && t.irq.idx == s.irq.idx && t.log.taken == s.log.taken;
  }

  lemma HandlerWakeup(s: State)
    requires HandlerEnabled(s) && Sampling(s)
    ensures Sampling(HandlerNext(s))
  {
    HandlerBuffer(s);
  }

  /** The views of a state: cached flags, sample held, sample pending. */
  datatype ViewsOf = ViewsOf(cached: Flags, held: Flags, pending: Flags)

  function ViewsIn(s: State): ViewsOf
    requires IrqShape(s.irq, s.dsr.held)
  {
    ViewsOf(s.dsr.cached, Held(s.irq, s.dsr.held, StageOf(s.dsr.pc), s.netx), Pending(s.irq, s.dsr.held, s.netx))
  }

  /** A view is replaced only by the one behind it. */
  predicate Shifted(v: ViewsOf, w: ViewsOf, netx: Flags) {
    || w == v
    || (v.held == v.pending && w == v.(pending := netx))
    || w == ViewsOf(v.held, v.pending, v.pending)
  }

  lemma HandlerShifts(s: State)
    requires HandlerEnabled(s) && Sampling(s)
    ensures var t := HandlerNext(s); IrqShape(t.irq, t.dsr.held) && Shifted(ViewsIn(s), ViewsIn(t), s.netx)
  {
    if s.dsr.pc == FlipIndex { FlipShifts(s); }
    else if s.dsr.pc == ClearValid { ClearShifts(s); }
    else if s.dsr.pc == Store { StoreShifts(s); }
    else { OthersShift(s); }
  }

  lemma FlipShifts(s: State)
    requires HandlerEnabled(s) && Sampling(s) && s.dsr.pc == FlipIndex
    ensures var t := HandlerNext(s); IrqShape(t.irq, t.dsr.held) && Shifted(ViewsIn(s), ViewsIn(t), s.netx)
  {
  }

  lemma ClearShifts(s: State)
    requires HandlerEnabled(s) && Sampling(s) && s.dsr.pc == ClearValid
    ensures var t := HandlerNext(s); IrqShape(t.irq, t.dsr.held) && Shifted(ViewsIn(s), ViewsIn(t), s.netx)
  {
  }

  lemma StoreShifts(s: State)
    requires HandlerEnabled(s) && Sampling(s) && s.dsr.pc == Store
    ensures var t := HandlerNext(s); IrqShape(t.irq, t.dsr.held) && Shifted(ViewsIn(s), ViewsIn(t), s.netx)
  {
  }

  lemma OthersShift(s: State)
    requires HandlerEnabled(s) && Sampling(s)
    requires s.dsr.pc != FlipIndex && s.dsr.pc != ClearValid && s.dsr.pc != Store
    ensures var t := HandlerNext(s); IrqShape(t.irq, t.dsr.held) && Shifted(ViewsIn(s), ViewsIn(t), s.netx)
  {
    var t := HandlerNext(s);
    assert t.irq.slots == s.irq.slots && t.irq.idx == s.irq.idx && t.netx == s.netx && t.dsr.cached == s.dsr.cached;
  }

  lemma ChainShifts(v: ViewsOf, w: ViewsOf, netx: Flags, host: Flags)
    requires Chain(v.cached, v.held, v.pending, netx, host) && Shifted(v, w, netx)
    ensures Chain(w.cached, w.held, w.pending, netx, host)
  {
  }

  lemma HandlerViews(s: State)
    requires HandlerEnabled(s) && Sampling(s) && Cell(s)
    ensures var t := HandlerNext(s); IrqShape(t.irq, t.dsr.held) && Views(t)
  {
    HandlerLeaves(s);
    HandlerShifts(s);
    ChainShifts(ViewsIn(s), ViewsIn(HandlerNext(s)), s.netx, s.host);
  }

  lemma HandlerGrants(s: State)
    requires HandlerEnabled(s) && Sampling(s) && Cell(s)
    ensures var t := HandlerNext(s); Grants(t.api, t.dsr.cached, t.host)
  {
    HandlerLeaves(s);
    HandlerShifts(s);
    forall bit | bit in s.api.granted ensures HostTurn(HandlerNext(s).dsr.cached, s.host, bit) {
      CachedIsSafe(s, bit);
    }
  }

  lemma HandlerSeen(s: State)
    requires HandlerEnabled(s) && IrqShape(s.irq, s.dsr.held) && Seen(s)
    ensures var t := HandlerNext(s); IrqShape(t.irq, t.dsr.held) && Seen(t)
  {
    if s.dsr.pc == Store { StoreSeen(s); }
  }

  /** What the DSR is about to see is what it found changed. */
  lemma StoreSeen(s: State)
    requires HandlerEnabled(s) && IrqShape(s.irq, s.dsr.held) && Seen(s) && s.dsr.pc == Store
    ensures var t := HandlerNext(s); IrqShape(t.irq, t.dsr.held) && Seen(t)
  {
  }

  lemma HandlerCell(s: State)
    requires HandlerEnabled(s) && Sampling(s) && Cell(s)
    ensures Cell(HandlerNext(s))
  {
    var t := HandlerNext(s);
    assert IrqShape(t.irq, t.dsr.held) && Views(t) by { HandlerViews(s); }
    assert Grants(t.api, t.dsr.cached, t.host) by { HandlerGrants(s); }
    assert Seen(t) by { HandlerSeen(s); }
  }

  lemma HandlerRest(c: Config, s: State)
    requires HandlerEnabled(s) && Filling(c, s) && Progress(c, s) && CaughtUp(s)
    ensures var t := HandlerNext(s); Filling(c, t) && Progress(c, t) && CaughtUp(t)
  {
    HandlerLeaves(s);
    SameFilling(c, s, HandlerNext(s));
  }

  lemma HandlerHand(s: State)
    requires HandlerEnabled(s) && Hand(s)
    ensures Hand(HandlerNext(s))
  {
    HandlerLeaves(s);
  }

  lemma HandlerOffSeen(s: State)
    requires HandlerEnabled(s) && Sampling(s) && Stop(s)
    ensures var t := HandlerNext(s); IrqShape(t.irq, t.dsr.held) && OffSeen(t) && Publishing(t)
  {
    HandlerLeaves(s);
    HandlerShifts(s);
  }

  lemma HandlerStop(s: State)
    requires HandlerEnabled(s) && Sampling(s) && Stop(s)
    ensures Stop(HandlerNext(s))
  {
    var t := HandlerNext(s);
    assert IrqShape(t.irq, t.dsr.held) && OffSeen(t) && Publishing(t) by { HandlerOffSeen(s); }
    HandlerLeaves(s);
  }

  // ---------------------------------------------------------------------------------------------
  // Drain loop
  // ---------------------------------------------------------------------------------------------

  lemma DrainLeaves(c: Config, s: State)
    requires DrainEnabled(s)
    ensures var t := DrainNext(c, s);
            && SameIrqSide(s, t) && t.fw == s.fw && t.api == s.api && t.rd == s.rd
            && t.log == s.log.(passed := t.log.passed, consumed := t.log.consumed, left := t.log.left)
            && t.ring == s.ring.(host := t.ring.host)
            && (s.dsr.pc != AckData && s.dsr.pc != Reject ==> t.host == s.host)
            && (s.dsr.pc != Free ==> t.ring == s.ring && t.dsr.cur == s.dsr.cur && t.log.consumed == s.log.consumed)
  {
  }

  /** The DSR toggles NEWDATA, or DRV_ERROR if the cached flags allow it. */
  lemma DrainHost(c: Config, s: State)
    requires DrainEnabled(s)
    ensures var t := DrainNext(c, s);
            if s.dsr.pc == AckData then t.host == Toggle(s.host, NEWDATA)
            else if s.dsr.pc == Reject && HostTurn(s.dsr.cached, s.host, DRV_ERROR) then t.host == Toggle(s.host, DRV_ERROR)
            else t.host == s.host
  {
  }

  lemma DrainSampling(c: Config, s: State)
    requires DrainEnabled(s) && Sampling(s)
    ensures Sampling(DrainNext(c, s))
  {
    DrainLeaves(c, s);
    SameSampling(s, DrainNext(c, s));
  }

  lemma DrainViews(c: Config, s: State)
    requires DrainEnabled(s) && Cell(s)
    ensures var t := DrainNext(c, s); IrqShape(t.irq, t.dsr.held) && Views(t) && Grants(t.api, t.dsr.cached, t.host)
  {
    var t := DrainNext(c, s);
    DrainLeaves(c, s);
    DrainHost(c, s);
    if s.dsr.pc == AckData {
      HostToggleViews(s, t, NEWDATA);
    } else if s.dsr.pc == Reject && HostTurn(s.dsr.cached, s.host, DRV_ERROR) {
      HostToggleViews(s, t, DRV_ERROR);
    } else {
      SameViews(s, t);
    }
  }

  lemma DrainSeen(c: Config, s: State)
    requires DrainEnabled(s) && IrqShape(s.irq, s.dsr.held) && Seen(s)
    ensures var t := DrainNext(c, s); IrqShape(t.irq, t.dsr.held) && Seen(t)
  {
    DrainHost(c, s);
    if s.dsr.pc == Begin { BegunSeen(c, s); }
    else if s.dsr.pc == AckData { AckedSeen(c, s); }
    else { LoopSeen(c, s); }
  }

  lemma BegunSeen(c: Config, s: State)
    requires DrainEnabled(s) && IrqShape(s.irq, s.dsr.held) && Seen(s) && s.dsr.pc == Begin
    ensures var t := DrainNext(c, s); IrqShape(t.irq, t.dsr.held) && Seen(t)
  {
  }

  lemma AckedSeen(c: Config, s: State)
    requires DrainEnabled(s) && IrqShape(s.irq, s.dsr.held) && Seen(s) && s.dsr.pc == AckData
    ensures var t := DrainNext(c, s); IrqShape(t.irq, t.dsr.held) && Seen(t)
  {
  }

  lemma LoopSeen(c: Config, s: State)
    requires DrainEnabled(s) && IrqShape(s.irq, s.dsr.held) && Seen(s) && s.dsr.pc != Begin && s.dsr.pc != AckData
    ensures var t := DrainNext(c, s); IrqShape(t.irq, t.dsr.held) && Seen(t)
  {
    var t := DrainNext(c, s);
    DrainLeaves(c, s);
    DrainHost(c, s);
    assert t.dsr.unequal == s.dsr.unequal && (Draining(t.dsr.pc) || t.dsr.pc == StatusCheck);
    assert forall bit | bit == NEWDATA || bit == NEWSTATUS ::
             Unequal(t.dsr.cached, t.host, bit) <==> Unequal(s.dsr.cached, s.host, bit);
  }

  lemma DrainCell(c: Config, s: State)
    requires DrainEnabled(s) && Cell(s)
    ensures Cell(DrainNext(c, s))
  {
    var t := DrainNext(c, s);
    assert IrqShape(t.irq, t.dsr.held) && Views(t) && Grants(t.api, t.dsr.cached, t.host) by { DrainViews(c, s); }
    assert Seen(t) by { DrainSeen(c, s); }
  }

  lemma DrainFilling(c: Config, s: State)
    requires DrainEnabled(s) && Filling(c, s) && Progress(c, s)
    ensures Filling(c, DrainNext(c, s))
  {
    if s.dsr.pc == Free {
      FreeFilling(c, s);
    } else {
      DrainLeaves(c, s);
      SameFilling(c, s, DrainNext(c, s));
    }
  }

  /** Freeing the current buffer takes it off the front of the window. */
  lemma FreeFilling(c: Config, s: State)
    requires DrainEnabled(s) && s.dsr.pc == Free && Filling(c, s) && 0 < s.log.left <= InFlight(s.log)
    ensures Filling(c, DrainNext(c, s))
  {
    var t := DrainNext(c, s);
    FreeShape(c, s);
    assert t.dsr.cur == |t.log.consumed| % c.count by { ModAdvances(|s.log.consumed|, c.count); }
    FreeFlags(c, s);
    FreeContents(c, s, t);
  }

  lemma FreeFlags(c: Config, s: State)
    requires DrainEnabled(s) && s.dsr.pc == Free && Filling(c, s) && 0 < InFlight(s.log)
    ensures var t := DrainNext(c, s);
            forall k: nat :: Unequal(t.ring.netx, t.ring.host, k) <==> InWindow(t.dsr.cur, InFlight(s.log) - 1, c.count, k)
  {
    var t := DrainNext(c, s);
    forall k: nat
      ensures Unequal(t.ring.netx, t.ring.host, k) <==> InWindow(t.dsr.cur, InFlight(s.log) - 1, c.count, k)
    {
      FreeFlag(c, s, k);
    }
  }

  lemma FreeShape(c: Config, s: State)
    requires DrainEnabled(s) && s.dsr.pc == Free && Filling(c, s) && 0 < InFlight(s.log)
    ensures var t := DrainNext(c, s);
            && RingShape(c, t.ring, t.fw.next, t.dsr.cur) && t.log.filled == s.log.filled && t.fw == s.fw
            && |t.log.consumed| == |s.log.consumed| + 1 && t.fw.next == Wrap(t.dsr.cur + InFlight(s.log) - 1, c.count)
  {
  }

  lemma FreeFlag(c: Config, s: State, k: nat)
    requires DrainEnabled(s) && s.dsr.pc == Free && Filling(c, s) && 0 < InFlight(s.log)
    ensures var t := DrainNext(c, s);
            Unequal(t.ring.netx, t.ring.host, k) <==> InWindow(t.dsr.cur, InFlight(s.log) - 1, c.count, k)
  {
    WindowAdvances(s.dsr.cur, InFlight(s.log), c.count);
    assert Unequal(s.ring.netx, s.ring.host, k) <==> InWindow(s.dsr.cur, InFlight(s.log), c.count, k);
  }

  lemma FreeContents(c: Config, s: State, t: State)
    requires Filling(c, s) && 0 < InFlight(s.log)
    requires t.ring.used == s.ring.used && t.ring.mem == s.ring.mem && t.dsr.cur == Wrap(s.dsr.cur + 1, c.count)
    ensures forall k: nat | k < c.count && InWindow(t.dsr.cur, InFlight(s.log) - 1, c.count, k) ::
              s.log.filled[|s.log.consumed| + 1 + Dist(t.dsr.cur, c.count, k)] == Fill(t.ring.used[k], t.ring.mem[k])
  {
    WindowAdvances(s.dsr.cur, InFlight(s.log), c.count);
    forall k: nat | k < c.count && InWindow(t.dsr.cur, InFlight(s.log) - 1, c.count, k)
      ensures s.log.filled[|s.log.consumed| + 1 + Dist(t.dsr.cur, c.count, k)] == Fill(t.ring.used[k], t.ring.mem[k])
    {
      assert InWindow(s.dsr.cur, InFlight(s.log), c.count, k);
    }
  }

  lemma DrainPass(c: Config, s: State)
    requires DrainEnabled(s) && Filling(c, s) && Pass(c, s.dsr, s.ring.used, s.log.left, InFlight(s.log))
    ensures var t := DrainNext(c, s); Pass(c, t.dsr, t.ring.used, t.log.left, InFlight(t.log))
  {
    if s.dsr.pc == Free { FreePass(c, s); }
    else if s.dsr.pc == Snapshot { SnapshotPass(c, s); }
  }

  /** The buffer given back leaves the snapshot. */
  lemma FreePass(c: Config, s: State)
    requires DrainEnabled(s) && Filling(c, s) && Pass(c, s.dsr, s.ring.used, s.log.left, InFlight(s.log))
    requires s.dsr.pc == Free
    ensures var t := DrainNext(c, s); Pass(c, t.dsr, t.ring.used, t.log.left, InFlight(t.log))
  {
    WindowAdvances(s.dsr.cur, s.log.left, c.count);
  }

  /** A snapshot shows everything filled and not consumed. */
  lemma SnapshotPass(c: Config, s: State)
    requires DrainEnabled(s) && Filling(c, s) && s.dsr.pc == Snapshot
    ensures var t := DrainNext(c, s); Pass(c, t.dsr, t.ring.used, t.log.left, InFlight(t.log))
  {
    var used := Xor(s.ring.host, s.ring.netx);
    forall k: nat
      ensures k in used <==> k in WindowSet(s.dsr.cur, InFlight(s.log), c.count)
    {
      assert Unequal(s.ring.netx, s.ring.host, k) <==> InWindow(s.dsr.cur, InFlight(s.log), c.count, k);
    }
    assert used == WindowSet(s.dsr.cur, InFlight(s.log), c.count);
  }

  lemma DrainOrder(c: Config, s: State)
    requires DrainEnabled(s) && Filling(c, s) && Progress(c, s) && Hand(s)
    ensures var t := DrainNext(c, s); Order(c, Passing(t.dsr.pc), t.log.passed, t.log.consumed, t.log.filled)
  {
    if s.dsr.pc == Free { FreeOrder(c, s); }
    else if s.dsr.pc == Reject { RejectOrder(c, s); }
    else if s.dsr.pc == Announce { AnnounceOrder(c, s); }
  }

  lemma FreeOrder(c: Config, s: State)
    requires DrainEnabled(s) && Filling(c, s) && Progress(c, s) && Hand(s) && s.dsr.pc == Free
    ensures var t := DrainNext(c, s); Order(c, Passing(t.dsr.pc), t.log.passed, t.log.consumed, t.log.filled)
  {
    var o := if s.dsr.size > c.size then Rejected(s.dsr.size) else Delivered(LastCopied(s.log));
    FreedOutcome(c, s);
    assert s.log.consumed + [o] == s.log.passed;
  }

  /** What is recorded as consumed is what was passed on: the reader has copied it by now. */
  lemma FreedOutcome(c: Config, s: State)
    requires Filling(c, s) && Progress(c, s) && Hand(s) && s.dsr.pc == Free
    ensures |s.log.passed| == |s.log.consumed| + 1
    ensures s.log.passed[|s.log.consumed|]
         == if s.dsr.size > c.size then Rejected(s.dsr.size) else Delivered(LastCopied(s.log))
  {
    var n := |s.log.consumed|;
    CurrentFill(c, s);
    assert s.log.passed[n] == OutcomeOf(c, s.log.filled[n]);
    if s.dsr.size <= c.size {
      PassedMore(s.log.passed[..n], s.log.passed[n]);
      assert s.log.passed == s.log.passed[..n] + [s.log.passed[n]];
    }
  }

  /** The buffer being drained holds the oldest block not consumed. */
  lemma CurrentFill(c: Config, s: State)
    requires Filling(c, s) && Pass(c, s.dsr, s.ring.used, s.log.left, InFlight(s.log))
    requires InBuffer(s.dsr.pc) && s.dsr.pc != ReadSize
    ensures 0 < InFlight(s.log) && s.dsr.cur < |s.ring.mem|
    ensures s.log.filled[|s.log.consumed|] == Fill(s.dsr.size, s.ring.mem[s.dsr.cur])
  {
    assert InWindow(s.dsr.cur, InFlight(s.log), c.count, s.dsr.cur);
  }

  lemma RejectOrder(c: Config, s: State)
    requires DrainEnabled(s) && Filling(c, s) && Progress(c, s) && s.dsr.pc == Reject
    ensures var t := DrainNext(c, s); Order(c, Passing(t.dsr.pc), t.log.passed, t.log.consumed, t.log.filled)
  {
  }

  lemma AnnounceOrder(c: Config, s: State)
    requires DrainEnabled(s) && Filling(c, s) && Progress(c, s) && s.dsr.pc == Announce
    ensures var t := DrainNext(c, s); Order(c, Passing(t.dsr.pc), t.log.passed, t.log.consumed, t.log.filled)
  {
  }

  lemma DrainHand(c: Config, s: State)
    requires DrainEnabled(s) && Filling(c, s) && Progress(c, s) && Hand(s)
    ensures Hand(DrainNext(c, s))
  {
    if Notifying(s.dsr.pc) || s.dsr.pc == Announce || s.dsr.pc == Reject {
      HandingOver(c, s);
    }
  }

  lemma HandingOver(c: Config, s: State)
    requires DrainEnabled(s) && Pass(c, s.dsr, s.ring.used, s.log.left, InFlight(s.log)) && Hand(s)
    requires RingShape(c, s.ring, s.fw.next, s.dsr.cur)
    requires Notifying(s.dsr.pc) || s.dsr.pc == Announce || s.dsr.pc == Reject
    ensures Hand(DrainNext(c, s))
  {
    if s.dsr.pc == Announce { Announcing(c, s); }
    else if s.dsr.pc == Reject { Rejecting(c, s); }
    else if s.dsr.pc == Count { Counting(c, s); }
    else { ReadDone(c, s); }
  }

  lemma Announcing(c: Config, s: State)
    requires DrainEnabled(s) && Pass(c, s.dsr, s.ring.used, s.log.left, InFlight(s.log)) && Hand(s)
    requires RingShape(c, s.ring, s.fw.next, s.dsr.cur) && s.dsr.pc == Announce
    ensures Hand(DrainNext(c, s))
  {
    var t := DrainNext(c, s);
    var block := s.ring.mem[s.dsr.cur][..s.dsr.size];
    AnnounceNext(c, s);
    assert Block(t.ring, t.dsr.cur, t.dsr.size) == block;
    assert Copies(Count, Copied(t.rv, t.rd), block, s.log.passed + [Delivered(block)], s.log.copied) by {
      PassedMore(s.log.passed, Delivered(block));
    }
  }

  lemma AnnounceNext(c: Config, s: State)
    requires DrainEnabled(s) && s.dsr.pc == Announce
    ensures DrainNext(c, s)
         == s.(rv := s.rv.(data := Some(s.dsr.cur), len := s.dsr.size, valid := true), dsr := s.dsr.(pc := Count),
               log := s.log.(passed := s.log.passed + [Delivered(s.ring.mem[s.dsr.cur][..s.dsr.size])]))
  {
  }

  lemma PassedMore(passed: seq<Outcome>, o: Outcome)
    ensures DeliveredOf(passed + [o]) == DeliveredOf(passed) + BlockOf(o)
  {
    assert (passed + [o])[..|passed|] == passed;
  }

  lemma Rejecting(c: Config, s: State)
    requires DrainEnabled(s) && Hand(s) && s.dsr.pc == Reject
    ensures Hand(DrainNext(c, s))
  {
    PassedMore(s.log.passed, Rejected(s.dsr.size));
  }

  lemma Counting(c: Config, s: State)
    requires DrainEnabled(s) && Hand(s) && s.dsr.pc == Count
    ensures Hand(DrainNext(c, s))
  {
    var t := DrainNext(c, s);
    var block := Block(s.ring, s.dsr.cur, s.dsr.size);
    CountNext(c, s);
    assert Block(t.ring, t.dsr.cur, t.dsr.size) == block;
    assert Handover(t.dsr.pc, t.rv, t.rd, t.dsr.cur, block) by { CountedHandover(s.rv, s.rd, s.dsr.cur, block); }
    assert Copies(t.dsr.pc, Copied(t.rv, t.rd), block, t.log.passed, t.log.copied) by {
      CountedCopies(Copied(s.rv, s.rd), block, s.log.passed, s.log.copied);
      assert !Copied(t.rv, t.rd);
    }
  }

  lemma CountNext(c: Config, s: State)
    requires DrainEnabled(s) && s.dsr.pc == Count
    ensures DrainNext(c, s) == s.(rv := s.rv.(events := (s.rv.events + 1) % WORD), dsr := s.dsr.(pc := AwaitRead))
  {
  }

  lemma CountedHandover(v: Rendezvous, r: Reader, cur: nat, block: seq<byte>)
    requires Handover(Count, v, r, cur, block)
    ensures Handover(AwaitRead, v.(events := (v.events + 1) % WORD), r, cur, block)
  {
  }

  lemma CountedCopies(copied: bool, block: seq<byte>, passed: seq<Outcome>, out: seq<seq<byte>>)
    requires Copies(Count, copied, block, passed, out)
    ensures Copies(AwaitRead, false, block, passed, out)
  {
  }

  lemma ReadDone(c: Config, s: State)
    requires DrainEnabled(s) && Hand(s) && s.dsr.pc == AwaitRead
    ensures Hand(DrainNext(c, s))
  {
  }

  lemma DrainMissed(c: Config, s: State)
    requires DrainEnabled(s) && Cell(s) && Filling(c, s) && Progress(c, s) && CaughtUp(s)
    ensures CaughtUp(DrainNext(c, s))
  {
  }

  lemma DrainOffSeen(c: Config, s: State)
    requires DrainEnabled(s) && Stop(s)
    ensures var t := DrainNext(c, s); IrqShape(t.irq, t.dsr.held) && OffSeen(t) && Publishing(t)
  {
    DrainLeaves(c, s);
    DrainHost(c, s);
    SameOffSeen(s, DrainNext(c, s));
  }

  lemma DrainStop(c: Config, s: State)
    requires DrainEnabled(s) && Cell(s) && Progress(c, s) && Stop(s)
    ensures Stop(DrainNext(c, s))
  {
    var t := DrainNext(c, s);
    assert IrqShape(t.irq, t.dsr.held) && OffSeen(t) && Publishing(t) by { DrainOffSeen(c, s); }
    DrainStopping(c, s);
  }

  lemma DrainStopping(c: Config, s: State)
    requires DrainEnabled(s) && Cell(s) && Progress(c, s) && Stop(s)
    ensures var t := DrainNext(c, s);
            Stopping(t.fw.state, t.dsr.pc, NEWSTATUS in t.dsr.unequal, t.dsr.seen, Unequal(t.netx, t.host, NEWDATA),
                     InFlight(t.log), Stopped(t.api))
  {
    DrainLeaves(c, s);
    DrainHost(c, s);
    CachedIsSafe(s, NEWDATA);
  }

  // ---------------------------------------------------------------------------------------------
  // Status part
  // ---------------------------------------------------------------------------------------------

  lemma StatusLeaves(s: State)
    requires InStatus(s.dsr.pc)
    ensures var t := StatusNext(s);
            && SameIrqSide(s, t) && t == s.(host := t.host, dsr := t.dsr, api := t.api)
            && t.dsr == s.dsr.(pc := t.dsr.pc, seen := t.dsr.seen) && (InStatus(t.dsr.pc) || t.dsr.pc == Sleep)
            && t.host == (if s.dsr.pc == AckStatus then Toggle(s.host, NEWSTATUS) else s.host)
            && t.api == (if s.dsr.pc == StopEvent then s.api.(stopEvent := true, completed := true) else s.api)
  {
  }

  lemma StatusRest(c: Config, s: State)
    requires InStatus(s.dsr.pc) && Filling(c, s) && Progress(c, s)
    ensures var t := StatusNext(s); Filling(c, t) && Progress(c, t)
  {
    StatusLeaves(s);
    SameFilling(c, s, StatusNext(s));
  }

  lemma StatusHand(s: State)
    requires InStatus(s.dsr.pc) && Hand(s)
    ensures Hand(StatusNext(s))
  {
    StatusLeaves(s);
  }

  lemma StatusCaughtUp(s: State)
    requires InStatus(s.dsr.pc) && CaughtUp(s)
    ensures CaughtUp(StatusNext(s))
  {
    StatusLeaves(s);
  }

  lemma StatusSampling(s: State)
    requires InStatus(s.dsr.pc) && Sampling(s)
    ensures Sampling(StatusNext(s))
  {
    StatusLeaves(s);
    SameSampling(s, StatusNext(s));
  }

  lemma StatusViews(s: State)
    requires InStatus(s.dsr.pc) && Cell(s)
    ensures var t := StatusNext(s); IrqShape(t.irq, t.dsr.held) && Views(t) && Grants(t.api, t.dsr.cached, t.host)
  {
    StatusLeaves(s);
    if s.dsr.pc == AckStatus {
      HostToggleViews(s, StatusNext(s), NEWSTATUS);
    } else {
      SameViews(s, StatusNext(s));
    }
  }

  lemma StatusSeen(s: State)
    requires InStatus(s.dsr.pc) && IrqShape(s.irq, s.dsr.held) && Seen(s)
    ensures var t := StatusNext(s); IrqShape(t.irq, t.dsr.held) && Seen(t)
  {
  }

  lemma StatusCell(s: State)
    requires InStatus(s.dsr.pc) && Cell(s)
    ensures Cell(StatusNext(s))
  {
    var t := StatusNext(s);
    assert IrqShape(t.irq, t.dsr.held) && Views(t) && Grants(t.api, t.dsr.cached, t.host) by { StatusViews(s); }
    assert Seen(t) by { StatusSeen(s); }
  }

  lemma StatusStop(c: Config, s: State)
    requires InStatus(s.dsr.pc) && Cell(s) && CaughtUp(s) && Stop(s)
    ensures Stop(StatusNext(s))
  {
    CachedIsSafe(s, NEWSTATUS);
  }

  // ---------------------------------------------------------------------------------------------
  // Interrupt handler
  // ---------------------------------------------------------------------------------------------

  lemma IsrSampling(s: State)
    requires Sampling(s)
    ensures Sampling(IsrNext(s))
  {
  }

  lemma IsrCell(s: State)
    requires Sampling(s) && Cell(s)
    ensures Cell(IsrNext(s))
  {
  }

  lemma IsrRest(c: Config, s: State)
    requires Sampling(s) && Filling(c, s) && Progress(c, s) && Hand(s) && CaughtUp(s) && Cell(s) && Stop(s)
    ensures var t := IsrNext(s); Filling(c, t) && Progress(c, t) && Hand(t) && CaughtUp(t) && Stop(t)
  {
  }

  // ---------------------------------------------------------------------------------------------
  // User-space reader
  // ---------------------------------------------------------------------------------------------

  lemma ReadHandover(s: State)
    requires Hand(s)
    ensures var t := ReadNext(s);
            !t.log.eagain && Handover(t.dsr.pc, t.rv, t.rd, t.dsr.cur, Block(t.ring, t.dsr.cur, t.dsr.size))
  {
  }

  lemma ReadHand(s: State)
    requires Hand(s)
    ensures Hand(ReadNext(s))
  {
    ReadLeaves(s);
    ReadHandover(s);
    if s.rd.pc == RCopy { CopyingKeeps(s); }
  }

  /** The reader copies the whole block before it signals. */
  lemma CopyingKeeps(s: State)
    requires Hand(s) && s.rd.pc == RCopy
    ensures var t := ReadNext(s);
            Copies(t.dsr.pc, Copied(t.rv, t.rd), Block(t.ring, t.dsr.cur, t.dsr.size), t.log.passed, t.log.copied)
  {
    var block := Block(s.ring, s.dsr.cur, s.dsr.size);
    assert s.dsr.pc == AwaitRead && block[..|block|] == block;
    if |s.rd.got| == |block| {
      assert s.rd.got == block;
    }
  }

  lemma ReadRest(c: Config, s: State)
    requires Sampling(s) && Cell(s) && Filling(c, s)
    ensures var t := ReadNext(s); Sampling(t) && Cell(t) && Filling(c, t)
  {
    ReadLeaves(s);
    ReadFilling(c, s);
  }

  /** The reader changes nothing but the rendezvous and the history of what it copied. */
  lemma ReadLeaves(s: State)
    ensures var t := ReadNext(s);
            && t == s.(rv := t.rv, rd := t.rd, log := t.log)
            && t.log == s.log.(copied := t.log.copied, eagain := t.log.eagain)
  {
  }

  lemma ReadFilling(c: Config, s: State)
    requires Filling(c, s)
    ensures Filling(c, ReadNext(s))
  {
    ReadLeaves(s);
    SameFilling(c, s, ReadNext(s));
  }

  lemma ReadStop(c: Config, s: State)
    requires Progress(c, s) && CaughtUp(s) && Stop(s)
    ensures var t := ReadNext(s); Progress(c, t) && CaughtUp(t) && Stop(t)
  {
    ReadLeaves(s);
  }

  // ---------------------------------------------------------------------------------------------
  // API threads
  // ---------------------------------------------------------------------------------------------

  /** The channel an API step toggles. */
  function ToggledBy(a: Action): Option<nat> {
    match a
    case Use(bit) => Some(bit)
    case ToggleFree(bit) => Some(bit)
    case StopToggle => Some(STARTSTOP)
    case _ => None
  }

  lemma HostLeaves(s: State, a: Action)
    requires HostEnabled(s, a)
    ensures var t := HostNext(s, a); t == s.(host := t.host, api := t.api)
    ensures HostNext(s, a).host == match ToggledBy(a) { case Some(bit) => Toggle(s.host, bit) case None => s.host }
    ensures ToggledBy(a) != Some(NEWDATA) && ToggledBy(a) != Some(NEWSTATUS)
  {
  }

  /** A guarded channel is toggled only with a grant, which is given up with it. */
  lemma HostGrants(s: State, a: Action)
    requires HostEnabled(s, a) && Grants(s.api, s.dsr.cached, s.host)
    ensures var t := HostNext(s, a); Grants(t.api, t.dsr.cached, t.host)
    ensures ToggledBy(a).Some? && IsGuarded(ToggledBy(a).value) ==> HostTurn(s.dsr.cached, s.host, ToggledBy(a).value)
  {
  }

  lemma HostViews(s: State, a: Action)
    requires HostEnabled(s, a) && Cell(s)
    ensures var t := HostNext(s, a); IrqShape(t.irq, t.dsr.held) && Views(t)
  {
    var t := HostNext(s, a);
    HostLeaves(s, a);
    HostGrants(s, a);
    match ToggledBy(a) {
      case Some(bit) => HostToggleViews(s, t, bit);
      case None => SameViews(s, t);
    }
  }

  lemma HostSampling(s: State, a: Action)
    requires Sampling(s) && HostEnabled(s, a)
    ensures Sampling(HostNext(s, a))
  {
    HostLeaves(s, a);
    SameSampling(s, HostNext(s, a));
  }

  lemma HostSeen(s: State, a: Action)
    requires HostEnabled(s, a) && IrqShape(s.irq, s.dsr.held) && Seen(s)
    ensures Seen(HostNext(s, a))
  {
    var t := HostNext(s, a);
    HostLeaves(s, a);
    assert forall bit | bit == NEWDATA || bit == NEWSTATUS ::
             Unequal(t.dsr.cached, t.host, bit) <==> Unequal(s.dsr.cached, s.host, bit);
  }

  lemma HostCell(s: State, a: Action)
    requires Cell(s) && HostEnabled(s, a)
    ensures Cell(HostNext(s, a))
  {
    var t := HostNext(s, a);
    assert IrqShape(t.irq, t.dsr.held) && Views(t) by { HostViews(s, a); }
    assert Grants(t.api, t.dsr.cached, t.host) by { HostGrants(s, a); }
    assert Seen(t) by { HostLeaves(s, a); HostSeen(s, a); }
  }

  lemma HostRest(c: Config, s: State, a: Action)
    requires Filling(c, s) && Progress(c, s) && Hand(s) && HostEnabled(s, a)
    ensures var t := HostNext(s, a); Filling(c, t) && Progress(c, t) && Hand(t)
  {
    HostLeaves(s, a);
    SameFilling(c, s, HostNext(s, a));
  }

  lemma HostStop(c: Config, s: State, a: Action)
    requires Cell(s) && CaughtUp(s) && Stop(s) && HostEnabled(s, a)
    ensures var t := HostNext(s, a); CaughtUp(t) && Stop(t)
  {
    var t := HostNext(s, a);
    HostLeaves(s, a);
    SameOffSeen(s, t);
    StopEventKept(s, a);
    assert forall bit | bit == NEWDATA || bit == NEWSTATUS ::
             Unequal(t.netx, t.host, bit) <==> Unequal(s.netx, s.host, bit);
  }

  /** Only the DSR completes a stop. */
  lemma StopEventKept(s: State, a: Action)
    requires HostEnabled(s, a)
    ensures Stopped(HostNext(s, a).api) ==> Stopped(s.api)
  {
  }

  // ---------------------------------------------------------------------------------------------
  // Firmware
  // ---------------------------------------------------------------------------------------------

  lemma FwSampling(c: Config, s: State, a: Action)
    requires Sampling(s) && FirmwareEnabled(c, s, a)
    ensures Sampling(FirmwareNext(c, s, a))
  {
  }

  lemma FlagCell(s: State, bit: nat)
    requires Cell(s) && (IsGuarded(bit) ==> !HostTurn(s.netx, s.host, bit))
    ensures Cell(FirmwareFlag(s, bit))
  {
    var held := Held(s.irq, s.dsr.held, StageOf(s.dsr.pc), s.netx);
    var pending := Pending(s.irq, s.dsr.held, s.netx);
    FirmwareToggleLeads(pending, s.netx, s.host, bit);
    FirmwareToggleLeads(held, s.netx, s.host, bit);
    FirmwareToggleLeads(s.dsr.cached, s.netx, s.host, bit);
  }

  lemma FwCell(c: Config, s: State, a: Action)
    requires Cell(s) && Stop(s) && FirmwareEnabled(c, s, a)
    ensures Cell(FirmwareNext(c, s, a))
  {
    match a {
      case FwNotify =>
        if !Unequal(s.netx, s.host, NEWDATA) { FlagCell(s.(fw := s.fw.(pc := FwIdle)), NEWDATA); }
      case FwRaise => FlagCell(s.(fw := s.fw.(pc := FwIdle)), NEWSTATUS);
      case FwToggle(bit) => FlagCell(s, bit);
      case _ =>
    }
  }

  /** What the firmware does besides filling touches neither the ring nor the history. */
  lemma FwLeaves(c: Config, s: State, a: Action)
    requires FirmwareEnabled(c, s, a)
    ensures var t := FirmwareNext(c, s, a);
            && t == s.(netx := t.netx, irq := t.irq, ring := t.ring, fw := t.fw, log := s.log.(filled := t.log.filled))
            && t.irq == s.irq.(pending := t.irq.pending) && t.ring.host == s.ring.host
            && (!a.FwFill? && !a.FwFlip? ==>
                  t.ring == s.ring && t.log == s.log && t.fw.next == s.fw.next && (t.fw.pc == FwFilled ==> s.fw.pc == FwFilled))
  {
  }

  lemma FwFilling(c: Config, s: State, a: Action)
    requires Filling(c, s) && FirmwareEnabled(c, s, a)
    ensures Filling(c, FirmwareNext(c, s, a))
  {
    if a.FwFill? {
      FillFilling(c, s, a);
    } else if a.FwFlip? {
      FlipFilling(c, s, a);
    } else {
      FwLeaves(c, s, a);
      SameFilling(c, s, FirmwareNext(c, s, a));
    }
  }

  /** The buffer being filled is behind the window. */
  lemma FillFilling(c: Config, s: State, a: Action)
    requires Filling(c, s) && FirmwareEnabled(c, s, a) && a.FwFill?
    ensures Filling(c, FirmwareNext(c, s, a))
  {
    var cnt := InFlight(s.log);
    assert !InWindow(s.dsr.cur, cnt, c.count, s.fw.next);
    assert cnt == c.count ==> InWindow(s.dsr.cur, cnt, c.count, s.fw.next);
  }

  /** Flipping the flag of a filled buffer puts it at the end of the window. */
  lemma FlipFilling(c: Config, s: State, a: Action)
    requires Filling(c, s) && FirmwareEnabled(c, s, a) && a.FwFlip?
    ensures Filling(c, FirmwareNext(c, s, a))
  {
    var t := FirmwareNext(c, s, a);
    var cnt := InFlight(s.log);
    WindowGrows(s.dsr.cur, cnt, c.count);
    forall k: nat
      ensures Unequal(t.ring.netx, t.ring.host, k) <==> InWindow(t.dsr.cur, InFlight(t.log), c.count, k)
    {
      assert Unequal(s.ring.netx, s.ring.host, k) <==> InWindow(s.dsr.cur, cnt, c.count, k);
    }
    FlipContents(c, s, a);
  }

  lemma FlipContents(c: Config, s: State, a: Action)
    requires Filling(c, s) && FirmwareEnabled(c, s, a) && a.FwFlip?
    ensures var t := FirmwareNext(c, s, a);
            && |t.log.filled| == |s.log.filled| + 1
            && forall k: nat | k < c.count && InWindow(s.dsr.cur, InFlight(s.log) + 1, c.count, k) ::
                 t.log.filled[|s.log.consumed| + Dist(s.dsr.cur, c.count, k)] == Fill(s.ring.used[k], s.ring.mem[k])
  {
    var t := FirmwareNext(c, s, a);
    var cnt := InFlight(s.log);
    forall k: nat | k < c.count && InWindow(s.dsr.cur, cnt + 1, c.count, k)
      ensures t.log.filled[|s.log.consumed| + Dist(s.dsr.cur, c.count, k)] == Fill(s.ring.used[k], s.ring.mem[k])
    {
      WindowGrowsAt(s.dsr.cur, cnt, c.count, k);
    }
  }

  lemma FwPass(c: Config, s: State, a: Action)
    requires Filling(c, s) && Progress(c, s) && FirmwareEnabled(c, s, a)
    ensures Progress(c, FirmwareNext(c, s, a))
  {
  }

  lemma FwHand(c: Config, s: State, a: Action)
    requires Filling(c, s) && Progress(c, s) && Hand(s) && FirmwareEnabled(c, s, a)
    ensures Hand(FirmwareNext(c, s, a))
  {
  }

  lemma FwCaughtUp(c: Config, s: State, a: Action)
    requires CaughtUp(s) && FirmwareEnabled(c, s, a)
    ensures CaughtUp(FirmwareNext(c, s, a))
  {
    var t := FirmwareNext(c, s, a);
    FwLeaves(c, s, a);
    if a.FwFlip? {
      assert t.fw.pc == FwFlipped;
    } else if a.FwNotify? {
      assert Unequal(t.netx, t.host, NEWDATA);
    } else {
      FwKeepsData(c, s, a);
    }
  }

  lemma FwKeepsData(c: Config, s: State, a: Action)
    requires FirmwareEnabled(c, s, a) && !a.FwFlip? && !a.FwNotify?
    ensures var t := FirmwareNext(c, s, a);
            && (NEWDATA in t.netx <==> NEWDATA in s.netx) && t.log == s.log
            && (t.fw.pc == FwFlipped <==> s.fw.pc == FwFlipped)
  {
  }

  lemma FwOffSeen(c: Config, s: State, a: Action)
    requires Cell(s) && Stop(s) && FirmwareEnabled(c, s, a)
    ensures var t := FirmwareNext(c, s, a); OffSeen(t) && Publishing(t)
  {
    CachedIsSafe(s, NEWSTATUS);
  }

  lemma FwStop(c: Config, s: State, a: Action)
    requires Cell(s) && FirmwareEnabled(c, s, a) && Stop(s)
    ensures Stop(FirmwareNext(c, s, a))
  {
    CachedIsSafe(s, NEWSTATUS);
    FwOffSeen(c, s, a);
  }

  // ---------------------------------------------------------------------------------------------
  // Completion
  // ---------------------------------------------------------------------------------------------

  /** Steps that touch neither NEWSTATUS nor the firmware's state. */
  lemma SameCompletion(s: State, t: State)
    requires Completion(s) && t.api == s.api && t.fw.state == s.fw.state
    requires t.fw.pc == FwPublished <==> s.fw.pc == FwPublished
    requires Unequal(t.netx, t.host, NEWSTATUS) <==> Unequal(s.netx, s.host, NEWSTATUS)
    requires t.dsr.pc == StopEvent <==> s.dsr.pc == StopEvent
    ensures Completion(t)
  {
  }

  lemma HandlerCompletion(s: State)
    requires HandlerEnabled(s) && Completion(s)
    ensures Completion(HandlerNext(s))
  {
    HandlerLeaves(s);
    SameCompletion(s, HandlerNext(s));
  }

  lemma DrainCompletion(c: Config, s: State)
    requires DrainEnabled(s) && Completion(s)
    ensures Completion(DrainNext(c, s))
  {
    DrainLeaves(c, s);
    DrainHost(c, s);
    DrainPc(c, s);
    SameCompletion(s, DrainNext(c, s));
  }

  lemma DrainPc(c: Config, s: State)
    requires DrainEnabled(s)
    ensures s.dsr.pc != StopEvent && DrainNext(c, s).dsr.pc != StopEvent
  {
  }

  lemma StatusCompletion(s: State)
    requires InStatus(s.dsr.pc) && Cell(s) && Stop(s) && Completion(s)
    ensures Completion(StatusNext(s))
  {
    CachedIsSafe(s, NEWSTATUS);
    if s.dsr.pc == AckStatus {
      assert Unequal(s.netx, s.host, NEWSTATUS) && s.dsr.seen == s.fw.state && s.fw.pc != FwPublished;
    }
  }

  lemma HostCompletion(s: State, a: Action)
    requires HostEnabled(s, a) && Completion(s)
    ensures Completion(HostNext(s, a))
  {
    HostLeaves(s, a);
    assert Unequal(s.netx, HostNext(s, a).host, NEWSTATUS) <==> Unequal(s.netx, s.host, NEWSTATUS);
  }

  lemma FwCompletion(c: Config, s: State, a: Action)
    requires FirmwareEnabled(c, s, a) && Stop(s) && Completion(s)
    ensures Completion(FirmwareNext(c, s, a))
  {
  }

  // ---------------------------------------------------------------------------------------------
  // Every step, every run
  // ---------------------------------------------------------------------------------------------

  lemma HandlerKeeps(c: Config, s: State)
    requires Inv(c, s) && HandlerEnabled(s)
    ensures Inv(c, HandlerNext(s))
  {
    HandlerWakeup(s); HandlerCell(s); HandlerRest(c, s); HandlerHand(s); HandlerStop(s); HandlerCompletion(s);
  }

  lemma DrainKeeps(c: Config, s: State)
    requires Inv(c, s) && DrainEnabled(s)
    ensures Inv(c, DrainNext(c, s))
  {
    DrainSampling(c, s); DrainCell(c, s); DrainFilling(c, s); DrainPass(c, s); DrainOrder(c, s);
    DrainHand(c, s); DrainMissed(c, s); DrainStop(c, s); DrainCompletion(c, s);
  }

  lemma StatusKeeps(c: Config, s: State)
    requires Inv(c, s) && InStatus(s.dsr.pc)
    ensures Inv(c, StatusNext(s))
  {
    StatusSampling(s); StatusCell(s); StatusRest(c, s); StatusHand(s); StatusCaughtUp(s); StatusStop(c, s);
    StatusCompletion(s);
  }

  lemma IsrKeeps(c: Config, s: State)
    requires Inv(c, s)
    ensures Inv(c, IsrNext(s))
  {
    IsrSampling(s); IsrCell(s); IsrRest(c, s); SameCompletion(s, IsrNext(s));
  }

  lemma ReadKeeps(c: Config, s: State)
    requires Inv(c, s)
    ensures Inv(c, ReadNext(s))
  {
    ReadHand(s); ReadRest(c, s); ReadStop(c, s); ReadLeaves(s); SameCompletion(s, ReadNext(s));
  }

  lemma HostKeeps(c: Config, s: State, a: Action)
    requires Inv(c, s) && HostEnabled(s, a)
    ensures Inv(c, HostNext(s, a))
  {
    HostSampling(s, a); HostCell(s, a); HostRest(c, s, a); HostStop(c, s, a); HostCompletion(s, a);
  }

  lemma FirmwareKeeps(c: Config, s: State, a: Action)
    requires Inv(c, s) && FirmwareEnabled(c, s, a)
    ensures Inv(c, FirmwareNext(c, s, a))
  {
    FwSampling(c, s, a); FwCell(c, s, a); FwFilling(c, s, a); FwPass(c, s, a);
    FwHand(c, s, a); FwCaughtUp(c, s, a); FwStop(c, s, a); FwCompletion(c, s, a);
  }

  lemma DsrKeeps(c: Config, s: State)
    requires Inv(c, s) && Enabled(c, s, DsrStep)
    ensures Inv(c, Next(c, s, DsrStep))
  {
    if HandlerEnabled(s) {
      HandlerKeeps(c, s);
    } else if DrainEnabled(s) {
      DrainKeeps(c, s);
    } else {
      StatusKeeps(c, s);
    }
  }

  lemma OtherKeeps(c: Config, s: State, a: Action)
    requires Inv(c, s) && (FirmwareEnabled(c, s, a) || HostEnabled(s, a))
    ensures Enabled(c, s, a) && Inv(c, Next(c, s, a))
  {
    if FirmwareEnabled(c, s, a) {
      FirmwareKeeps(c, s, a);
    } else {
      HostKeeps(c, s, a);
    }
  }

  lemma StepKeeps(c: Config, s: State, a: Action)
    requires Inv(c, s) && Enabled(c, s, a)
    ensures Inv(c, Next(c, s, a))
  {
    match a {
      case Isr => IsrKeeps(c, s);
      case DsrStep => DsrKeeps(c, s);
      case Read => ReadKeeps(c, s);
      case _ => OtherKeeps(c, s, a);
    }
  }

  lemma {:induction false} RunKeeps(c: Config, s: State, run: seq<Action>)
    requires Inv(c, s) && Legal(c, s, run)
    ensures Inv(c, Final(c, s, run))
    decreases |run|
  {
    if run != [] {
      StepKeeps(c, s, run[0]);
      RunKeeps(c, Next(c, s, run[0]), run[1..]);
    }
  }

  lemma ReachableKeeps(c: Config, t: State)
    requires Reachable(c, t)
    ensures Inv(c, t)
  {
    var s :| Init(c, s) && Reaches(c, s, t);
    var run :| Legal(c, s, run) && Final(c, s, run) == t;
    InitEstablishes(c, s);
    RunKeeps(c, s, run);
  }

  // The parts of the invariant, so that a proof sees no more than it needs.

  lemma ReachableSampling(c: Config, t: State)
    requires Reachable(c, t)
    ensures Sampling(t)
  {
    ReachableKeeps(c, t);
  }

  lemma ReachableCell(c: Config, t: State)
    requires Reachable(c, t)
    ensures Cell(t)
  {
    ReachableKeeps(c, t);
  }

  lemma ReachableRing(c: Config, t: State)
    requires Reachable(c, t)
    ensures Filling(c, t) && Progress(c, t)
  {
    ReachableKeeps(c, t);
  }

  lemma ReachableHand(c: Config, t: State)
    requires Reachable(c, t)
    ensures Hand(t) && Progress(c, t)
  {
    ReachableKeeps(c, t);
  }

  lemma ReachableStop(c: Config, t: State)
    requires Reachable(c, t)
    ensures CaughtUp(t) && Stop(t)
  {
    ReachableKeeps(c, t);
  }

  lemma ReachableCompletion(c: Config, t: State)
    requires Reachable(c, t)
    ensures Completion(t)
  {
    ReachableKeeps(c, t);
  }
}
