/**
The send mailbox: one slot in the dual-ported memory, a command bit that says whose it is, and any
number of threads that put packets through it under a mutex.
*/
module SendMailbox {
  import opened Words
  import opened CachedBit
  import opened LockedCall
  import Mutex

  const MAILBOX_SIZE := 1596
  const HEADER_SIZE := 40

  const NO_ERROR := 0
  const DEV_MAILBOX_FULL := 0x8021_0007
  const DEV_MAILBOX_TOO_SHORT := 0x8021_0009
  const DRV_CMD_ACTIVE := 0x8022_0013

  /** The caller's packet buffer, as large as the mailbox. */
  type Packet = seq<byte>

  /** `tHeader.ulLen`, little endian at offset 16. */
  function Length(p: Packet): nat
    requires |p| == MAILBOX_SIZE
  {
    FromBytes(p[16..20])
  }

  /** What the driver takes for the size of the packet: the sum has 32 bits. */
  function Size(p: Packet): nat
    requires |p| == MAILBOX_SIZE
  {
    (Length(p) + HEADER_SIZE) % WORD
  }

  datatype Work = Wait(p: Packet) | Copy(p: Packet, n: nat)
  datatype Call = Call(who: nat, p: Packet, ret: nat)

  /** History: packets the host posted, mailbox contents the device took, calls with their results, who took the mutex. */
  datatype Log = Log(posted: seq<Packet>, taken: seq<seq<byte>>, calls: seq<Call>, takers: seq<nat>)

  /** `got`: how much of the mailbox the device has read on its present turn. */
  datatype State = State(m: Mutex.State, stages: seq<Stage<Packet, Work>>, line: Line, mem: seq<byte>, got: seq<byte>, log: Log)

  datatype Action =
    | Put(i: nat, p: Packet, timeout: nat) | Lock(i: nat, r: nat)
    | Check(i: nat) | Found(i: nat) | GiveUp(i: nat) | CopyByte(i: nat) | Post(i: nat)
    | Interrupt | Consume(k: nat)
    | DeviceReads | DeviceAcknowledges

  predicate Init(s: State) {
    && Mutex.Init(s.m) && |s.stages| == |s.m.pcs| && (forall i | 0 <= i < |s.stages| :: s.stages[i].Out?)
    && s.line.netx == s.line.host == s.line.cached && s.line.pending == []
    && |s.mem| == MAILBOX_SIZE && s.got == [] && s.log == Log([], [], [], [])
  }

  predicate Enabled(s: State, a: Action) {
    match a
    case Put(i, p, _) => MayEnter(s.m, s.stages, i) && |p| == MAILBOX_SIZE
    case Lock(i, r) => MayMove(s.m, s.stages, i, r)
    case Check(i) => AtWork(s.m, s.stages, i) && s.stages[i].Entering? && |s.stages[i].arg| == MAILBOX_SIZE
    case Found(i) => AtWork(s.m, s.stages, i) && Waits(s.stages[i]) && HostMay(s.line, true)
    case GiveUp(i) => AtWork(s.m, s.stages, i) && Waits(s.stages[i]) && !HostMay(s.line, true)
    case CopyByte(i) => AtWork(s.m, s.stages, i) && Copies(s.stages[i]) && !Copied(s.stages[i].work) && s.stages[i].work.n < |s.mem|
    case Post(i) => AtWork(s.m, s.stages, i) && Copies(s.stages[i]) && Copied(s.stages[i].work)
    case Interrupt => true
    case Consume(k) => k < |s.line.pending|
    case DeviceReads => FirmwareMay(s.line, true) && |s.got| < |s.mem|
    case DeviceAcknowledges => FirmwareMay(s.line, true) && |s.got| == |s.mem|
  }

  predicate Waits(st: Stage<Packet, Work>) { st.Inside? && st.work.Wait? }

  predicate Copies(st: Stage<Packet, Work>) { st.Inside? && st.work.Copy? && |st.work.p| == MAILBOX_SIZE }

  predicate Copied(w: Work)
    requires w.Copy? && |w.p| == MAILBOX_SIZE
  {
    w.n >= Size(w.p)
  }

  /** The call of thread i ends with this result. */
  function Return(log: Log, i: nat, p: Packet, ret: nat): Log {
    log.(calls := log.calls + [Call(i, p, ret)], posted := if ret == NO_ERROR then log.posted + [p] else log.posted)
  }

  function Next(s: State, a: Action): State
    requires Enabled(s, a)
  {
    match a
    case Put(i, p, timeout) => s.(m := Mutex.Next(s.m, Mutex.Wait(i, timeout)), stages := s.stages[i := Entering(p)])
    case Lock(i, r) =>
      s.(m := Mutex.Next(s.m, Mutex.Step(i, r)), stages := Moved(s.m, s.stages, i, r),
         log := if Refused(s.m, s.stages, i, r) then Return(s.log, i, s.stages[i].arg, DRV_CMD_ACTIVE)
                else s.log.(takers := Takers(s.m, i, s.log.takers)))
    case Check(i) =>
      var p := s.stages[i].arg;
      if Size(p) > MAILBOX_SIZE then s.(stages := s.stages[i := Leaving], log := Return(s.log, i, p, DEV_MAILBOX_TOO_SHORT))
      else s.(stages := s.stages[i := Inside(Wait(p))])
    case Found(i) => s.(stages := s.stages[i := Inside(Copy(s.stages[i].work.p, 0))])
    case GiveUp(i) => s.(stages := s.stages[i := Leaving], log := Return(s.log, i, s.stages[i].work.p, DEV_MAILBOX_FULL))
    case CopyByte(i) =>
      var w := s.stages[i].work;
      s.(mem := s.mem[w.n := if w.n < |w.p| then w.p[w.n] else 0], stages := s.stages[i := Inside(w.(n := w.n + 1))])
    case Post(i) =>
      s.(line := HostToggle(s.line), stages := s.stages[i := Leaving], log := Return(s.log, i, s.stages[i].work.p, NO_ERROR))
    case Interrupt => s.(line := Sample(s.line))
    case Consume(k) => s.(line := Deliver(s.line, k))
    case DeviceReads => s.(got := s.got + [s.mem[|s.got|]])
    case DeviceAcknowledges =>
      s.(line := FirmwareToggle(s.line), got := [], log := s.log.(taken := s.log.taken + [s.got]))
  }

  predicate Legal(s: State, run: seq<Action>)
    decreases |run|
  {
    run == [] || (Enabled(s, run[0]) && Legal(Next(s, run[0]), run[1..]))
  }

  function After(s: State, run: seq<Action>): State
    requires Legal(s, run)
    decreases |run|
  {
    if run == [] then s else After(Next(s, run[0]), run[1..])
  }

  // ---------------------------------------------------------------------------------------------
  // Invariant
  // ---------------------------------------------------------------------------------------------

  predicate Fits(p: Packet) { |p| == MAILBOX_SIZE && Size(p) <= MAILBOX_SIZE }

  /** A copying thread has the slot, and its packet so far is in it. */
  ghost predicate Copying(stages: seq<Stage<Packet, Work>>, line: Line, mem: seq<byte>) {
    forall i | 0 <= i < |stages| && stages[i].Inside? ::
      var w := stages[i].work;
      Fits(w.p) && (w.Copy? ==> HostMay(line, true) && w.n <= Size(w.p) <= |mem| && mem[..w.n] == w.p[..w.n])
  }

  /** The mailbox holds packet `p`. */
  predicate Holds(content: seq<byte>, p: Packet) {
    Fits(p) && |content| == MAILBOX_SIZE && content[..Size(p)] == p[..Size(p)]
  }

  /** The device has taken every posted packet, or all but the one that is in the slot. */
  ghost predicate Slot(line: Line, mem: seq<byte>, got: seq<byte>, posted: seq<Packet>, taken: seq<seq<byte>>) {
    && |mem| == MAILBOX_SIZE
    && (forall k | 0 <= k < |taken| && k < |posted| :: Holds(taken[k], posted[k]))
    && if FirmwareMay(line, true)
       then |posted| == |taken| + 1 && Holds(mem, posted[|taken|]) && got <= mem
       else |posted| == |taken| && got == []
  }

  /** The packets of the successful calls, in the order the calls got their results. */
  function Successful(calls: seq<Call>): seq<Packet> {
    if calls == [] then [] else
      Successful(calls[..|calls| - 1])
      + (if calls[|calls| - 1].ret == NO_ERROR then [calls[|calls| - 1].p] else [])
  }

  ghost predicate Inv(s: State) {
    && AllMatch(s.m, s.stages)
    && Safe(s.line, true)
    && Copying(s.stages, s.line, s.mem)
    && Slot(s.line, s.mem, s.got, s.log.posted, s.log.taken)
    && s.log.posted == Successful(s.log.calls)
  }

  lemma ReturnKeeps(log: Log, i: nat, p: Packet, ret: nat)
    requires log.posted == Successful(log.calls)
    ensures Return(log, i, p, ret).posted == Successful(Return(log, i, p, ret).calls)
  {
    assert Return(log, i, p, ret).calls[..|log.calls|] == log.calls;
  }

  lemma EntryStepKeeps(s: State, a: Action)
    requires Inv(s) && Enabled(s, a) && (a.Put? || a.Lock?)
    ensures Inv(Next(s, a))
  {
    if a.Put? {
      EnterKeeps(s.m, s.stages, a.i, a.timeout, a.p);
    } else {
      MoveKeeps(s.m, s.stages, a.i, a.r);
      if Refused(s.m, s.stages, a.i, a.r) {
        ReturnKeeps(s.log, a.i, s.stages[a.i].arg, DRV_CMD_ACTIVE);
      }
    }
  }

  lemma DecisionStepKeeps(s: State, a: Action)
    requires Inv(s) && Enabled(s, a) && (a.Check? || a.Found? || a.GiveUp?)
    ensures Inv(Next(s, a))
  {
    if a.Check? { CheckKeeps(s, a); }
    else if a.Found? { FoundKeeps(s, a); }
    else { GiveUpKeeps(s, a); }
  }

  lemma CheckKeeps(s: State, a: Action)
    requires Inv(s) && Enabled(s, a) && a.Check?
    ensures Inv(Next(s, a))
  {
    var t := Next(s, a);
    WorkKeeps(s.m, s.stages, a.i, t.stages[a.i]);
    assert Copying(t.stages, s.line, s.mem) by {
      assert t.stages[a.i].Inside? ==> t.stages[a.i].work == Wait(s.stages[a.i].arg) && Fits(s.stages[a.i].arg);
    }
    ReturnKeeps(s.log, a.i, s.stages[a.i].arg, DEV_MAILBOX_TOO_SHORT);
  }

  lemma FoundKeeps(s: State, a: Action)
    requires Inv(s) && Enabled(s, a) && a.Found?
    ensures Inv(Next(s, a))
  {
    WorkKeeps(s.m, s.stages, a.i, Next(s, a).stages[a.i]);
  }

  lemma GiveUpKeeps(s: State, a: Action)
    requires Inv(s) && Enabled(s, a) && a.GiveUp?
    ensures Inv(Next(s, a))
  {
    WorkKeeps(s.m, s.stages, a.i, Next(s, a).stages[a.i]);
    ReturnKeeps(s.log, a.i, s.stages[a.i].work.p, DEV_MAILBOX_FULL);
  }

  lemma CopyStepKeeps(s: State, a: Action)
    requires Inv(s) && Enabled(s, a) && a.CopyByte?
    ensures Inv(Next(s, a))
  {
    var t := Next(s, a);
    WorkKeeps(s.m, s.stages, a.i, t.stages[a.i]);
    var w := s.stages[a.i].work;
    forall j | 0 <= j < |s.stages| && t.stages[j].Inside? ensures j == a.i {
      OneInside(s.m, s.stages, a.i, j);
    }
    assert t.mem[..w.n + 1] == t.mem[..w.n] + [t.mem[w.n]];
    assert w.p[..w.n + 1] == w.p[..w.n] + [w.p[w.n]];
  }

  lemma PostStepKeeps(s: State, a: Action)
    requires Inv(s) && Enabled(s, a) && a.Post?
    ensures Inv(Next(s, a))
  {
    var t := Next(s, a);
    WorkKeeps(s.m, s.stages, a.i, t.stages[a.i]);
    NobodyInside(s.m, s.stages, a.i);
    PostFillsSlot(s, a);
    ReturnKeeps(s.log, a.i, s.stages[a.i].work.p, NO_ERROR);
  }

  lemma PostFillsSlot(s: State, a: Action)
    requires Inv(s) && Enabled(s, a) && a.Post?
    ensures var t := Next(s, a); Safe(t.line, true) && Slot(t.line, t.mem, t.got, t.log.posted, t.log.taken)
  {
    HostToggleSafe(s.line, true);
  }

  lemma LineStepKeeps(s: State, a: Action)
    requires Inv(s) && Enabled(s, a) && (a.Interrupt? || a.Consume?)
    ensures Inv(Next(s, a))
  {
    if a.Interrupt? {
      SampleSafe(s.line, true);
    } else {
      DeliverSafe(s.line, a.k, true);
    }
  }

  lemma DeviceStepKeeps(s: State, a: Action)
    requires Inv(s) && Enabled(s, a) && (a.DeviceReads? || a.DeviceAcknowledges?)
    ensures Inv(Next(s, a))
  {
    var t := Next(s, a);
    assert forall j | 0 <= j < |s.stages| && s.stages[j].Inside? :: !s.stages[j].work.Copy?;
    if a.DeviceAcknowledges? {
      FirmwareToggleSafe(s.line, true);
      assert s.got == s.mem;
    }
  }

  lemma StepKeeps(s: State, a: Action)
    requires Inv(s) && Enabled(s, a)
    ensures Inv(Next(s, a))
  {
    if a.Put? || a.Lock? { EntryStepKeeps(s, a); }
    else if a.Check? || a.Found? || a.GiveUp? { DecisionStepKeeps(s, a); }
    else if a.CopyByte? { CopyStepKeeps(s, a); }
    else if a.Post? { PostStepKeeps(s, a); }
    else if a.Interrupt? || a.Consume? { LineStepKeeps(s, a); }
    else { DeviceStepKeeps(s, a); }
  }

  lemma {:induction false} RunKeeps(s: State, run: seq<Action>)
    requires Inv(s) && Legal(s, run)
    ensures Inv(After(s, run))
    decreases |run|
  {
    if run != [] {
      StepKeeps(s, run[0]);
      RunKeeps(Next(s, run[0]), run[1..]);
    }
  }

  /** Who got a result under the mutex. */
  function Callers(calls: seq<Call>): seq<nat> {
    if calls == [] then [] else
      Callers(calls[..|calls| - 1]) + (if calls[|calls| - 1].ret == DRV_CMD_ACTIVE then [] else [calls[|calls| - 1].who])
  }

  lemma CallersReturn(log: Log, i: nat, p: Packet, ret: nat)
    ensures Callers(Return(log, i, p, ret).calls) == Callers(log.calls) + (if ret == DRV_CMD_ACTIVE then [] else [i])
  {
    assert Return(log, i, p, ret).calls[..|log.calls|] == log.calls;
  }

  ghost predicate Ordered(s: State) { LockOrder(s.m, s.stages, s.log.takers, Callers(s.log.calls)) }

  lemma PutKeepsOrder(s: State, a: Action)
    requires AllMatch(s.m, s.stages) && Enabled(s, a) && Ordered(s) && a.Put?
    ensures Ordered(Next(s, a))
  {
    EnterKeepsOrder(s.m, s.stages, a.i, a.timeout, a.p, s.log.takers, Callers(s.log.calls));
  }

  lemma LockKeepsOrder(s: State, a: Action)
    requires AllMatch(s.m, s.stages) && Enabled(s, a) && Ordered(s) && a.Lock?
    ensures Ordered(Next(s, a))
  {
    var t := Next(s, a);
    MoveKeepsOrder(s.m, s.stages, a.i, a.r, s.log.takers, Callers(s.log.calls));
    assert t.log.takers == Takers(s.m, a.i, s.log.takers);
    assert Callers(t.log.calls) == Callers(s.log.calls) by {
      if Refused(s.m, s.stages, a.i, a.r) { CallersReturn(s.log, a.i, s.stages[a.i].arg, DRV_CMD_ACTIVE); }
    }
  }

  lemma GoingOnKeepsOrder(s: State, a: Action, work: Work)
    requires Inv(s) && Enabled(s, a) && Ordered(s) && (a.Check? || a.Found? || a.CopyByte?)
    requires Next(s, a).stages[a.i] == Inside(work)
    ensures Ordered(Next(s, a))
  {
    WorkKeepsOrder(s.m, s.stages, a.i, work, s.log.takers, Callers(s.log.calls));
  }

  lemma LeavingKeepsOrder(s: State, a: Action, p: Packet, ret: nat)
    requires Inv(s) && Enabled(s, a) && Ordered(s) && (a.Check? || a.GiveUp? || a.Post?)
    requires Next(s, a).stages == s.stages[a.i := Leaving] && Next(s, a).log == Return(s.log, a.i, p, ret)
    requires ret != DRV_CMD_ACTIVE
    ensures Ordered(Next(s, a))
  {
    CallersReturn(s.log, a.i, p, ret);
    ResultKeepsOrder(s.m, s.stages, a.i, s.log.takers, Callers(s.log.calls));
  }

  lemma StepKeepsOrder(s: State, a: Action)
    requires Inv(s) && Enabled(s, a) && Ordered(s)
    ensures Ordered(Next(s, a))
  {
    match a
    case Put(_, _, _) => PutKeepsOrder(s, a);
    case Lock(_, _) => LockKeepsOrder(s, a);
    case Check(i) =>
      var p := s.stages[i].arg;
      if Size(p) > MAILBOX_SIZE { LeavingKeepsOrder(s, a, p, DEV_MAILBOX_TOO_SHORT); } else { GoingOnKeepsOrder(s, a, Wait(p)); }
    case Found(i) => GoingOnKeepsOrder(s, a, Copy(s.stages[i].work.p, 0));
    case GiveUp(i) => LeavingKeepsOrder(s, a, s.stages[i].work.p, DEV_MAILBOX_FULL);
    case CopyByte(i) => GoingOnKeepsOrder(s, a, Copy(s.stages[i].work.p, s.stages[i].work.n + 1));
    case Post(i) => LeavingKeepsOrder(s, a, s.stages[i].work.p, NO_ERROR);
    case _ =>
  }

  lemma {:induction false} RunKeepsOrder(s: State, run: seq<Action>)
    requires Inv(s) && Legal(s, run) && Ordered(s)
    ensures Ordered(After(s, run))
    decreases |run|
  {
    if run != [] {
      StepKeeps(s, run[0]);
      StepKeepsOrder(s, run[0]);
      RunKeepsOrder(Next(s, run[0]), run[1..]);
    }
  }

  /** The calls get their results in the order in which they took the mutex; at most the last taker still waits for its. */
  lemma ResultsInLockOrder(s: State, run: seq<Action>)
    requires Init(s) && Legal(s, run)
    ensures var log := After(s, run).log;
            && Callers(log.calls) <= log.takers && |log.takers| <= |Callers(log.calls)| + 1
  {
    InitHolds(s);
    RunKeepsOrder(s, run);
    var t := After(s, run);
    if i: nat :| Open(t.m, t.stages, i) {
      assert t.log.takers == Callers(t.log.calls) + [i];
    }
  }

  lemma InitHolds(s: State)
    requires Init(s)
    ensures Inv(s)
  {
  }

  // ---------------------------------------------------------------------------------------------
  // Results
  // ---------------------------------------------------------------------------------------------

  /** What the device has to see of a packet. */
  function Sent(p: Packet): seq<byte>
    requires |p| == MAILBOX_SIZE && Length(p) + HEADER_SIZE <= MAILBOX_SIZE
  {
    p[..Length(p) + HEADER_SIZE]
  }

  /**
  The device takes the packets of exactly the successful calls, in the order of their results, each
  once; the last one may still be in the slot.
  */
  lemma ExactlyOnce(s: State, run: seq<Action>)
    requires Init(s) && Legal(s, run)
    ensures var log := After(s, run).log;
            && log.posted == Successful(log.calls)
            && |log.taken| <= |log.posted| <= |log.taken| + 1
            && (forall k | 0 <= k < |log.taken| :: Holds(log.taken[k], log.posted[k]))
  {
    InitHolds(s);
    RunKeeps(s, run);
  }

  /** The device gets the whole packet exactly when adding the header size to its length does not wrap. */
  lemma WholeIff(content: seq<byte>, p: Packet)
    requires Holds(content, p)
    ensures Length(p) + HEADER_SIZE <= MAILBOX_SIZE <==> Length(p) + HEADER_SIZE < WORD
    ensures Length(p) + HEADER_SIZE < WORD ==> Sent(p) <= content
    ensures Length(p) + HEADER_SIZE >= WORD ==> Size(p) < HEADER_SIZE
  {
    FromBytesBound(p[16..20]);
    assert Power256(4) == WORD;
  }

  /** While a thread writes the slot, the device has no business in it, and the other way round. */
  lemma SlotHasOneUser(s: State, run: seq<Action>)
    requires Init(s) && Legal(s, run)
    ensures var t := After(s, run);
            && (forall i, j | 0 <= i < |t.stages| && 0 <= j < |t.stages| && t.stages[i].Inside? && t.stages[j].Inside? :: i == j)
            && (forall i | 0 <= i < |t.stages| && Copies(t.stages[i]) :: !FirmwareMay(t.line, true))
            && (FirmwareMay(t.line, true) ==> t.got <= t.mem)
  {
    InitHolds(s);
    RunKeeps(s, run);
    var t := After(s, run);
    forall i, j | 0 <= i < |t.stages| && 0 <= j < |t.stages| && t.stages[i].Inside? && t.stages[j].Inside?
      ensures i == j
    {
      OneInside(t.m, t.stages, i, j);
    }
  }

  /** The size check rejects exactly the packets that do not fit, if and only if the sum does not wrap. */
  lemma CheckIsRightIff(p: Packet)
    requires |p| == MAILBOX_SIZE
    ensures (Size(p) > MAILBOX_SIZE <==> Length(p) + HEADER_SIZE > MAILBOX_SIZE) <==> Length(p) + HEADER_SIZE < WORD
  {
    FromBytesBound(p[16..20]);
    assert Power256(4) == WORD;
  }

  lemma WrappedPacketPasses(p: Packet)
    requires |p| == MAILBOX_SIZE && p[16..20] == ToBytes(WORD - HEADER_SIZE, 4)
    ensures Length(p) + HEADER_SIZE > MAILBOX_SIZE && Size(p) == 0
  {
    assert Power256(4) == WORD;
    BytesRoundTrip(WORD - HEADER_SIZE, 4);
  }

  // ---------------------------------------------------------------------------------------------
  // Which result, and why
  // ---------------------------------------------------------------------------------------------

  /** The call was judged by the 32-bit sum of the length, byte by byte, and the header size. */
  predicate Judged(c: Call) {
    && |c.p| == MAILBOX_SIZE
    && (c.ret == 0 || c.ret == 0x8021_0007 || c.ret == 0x8021_0009 || c.ret == 0x8022_0013)
    && (c.ret != 0x8022_0013 ==>
          (c.ret == 0x8021_0009 <==>
             (c.p[16] as nat + 0x100 * c.p[17] as nat + 0x1_0000 * c.p[18] as nat + 0x100_0000 * c.p[19] as nat + 40) % 0x1_0000_0000 > 1596))
  }

  lemma SizeInBytes(p: Packet)
    requires |p| == MAILBOX_SIZE
    ensures Size(p) == (p[16] as nat + 0x100 * p[17] as nat + 0x1_0000 * p[18] as nat + 0x100_0000 * p[19] as nat + 40)
                       % 0x1_0000_0000
  {
    FourBytes(p[16..20]);
  }

  ghost predicate AllJudged(s: State) {
    && (forall c | c in s.log.calls :: Judged(c))
    && (forall i | 0 <= i < |s.stages| && s.stages[i].Entering? :: |s.stages[i].arg| == MAILBOX_SIZE)
  }

  lemma ReturnJudged(log: Log, i: nat, p: Packet, ret: nat)
    requires (forall c | c in log.calls :: Judged(c)) && |p| == MAILBOX_SIZE
    requires ret == NO_ERROR || ret == DEV_MAILBOX_FULL || ret == DEV_MAILBOX_TOO_SHORT || ret == DRV_CMD_ACTIVE
    requires ret != DRV_CMD_ACTIVE ==> (ret == DEV_MAILBOX_TOO_SHORT <==> Size(p) > MAILBOX_SIZE)
    ensures forall c | c in Return(log, i, p, ret).calls :: Judged(c)
  {
    SizeInBytes(p);
  }

  lemma StepKeepsJudged(s: State, a: Action)
    requires Inv(s) && Enabled(s, a) && AllJudged(s)
    ensures AllJudged(Next(s, a))
  {
    if a.Lock? && Refused(s.m, s.stages, a.i, a.r) {
      ReturnJudged(s.log, a.i, s.stages[a.i].arg, DRV_CMD_ACTIVE);
    } else if a.Check? && Size(s.stages[a.i].arg) > MAILBOX_SIZE {
      ReturnJudged(s.log, a.i, s.stages[a.i].arg, DEV_MAILBOX_TOO_SHORT);
    } else if a.GiveUp? {
      ReturnJudged(s.log, a.i, s.stages[a.i].work.p, DEV_MAILBOX_FULL);
    } else if a.Post? {
      ReturnJudged(s.log, a.i, s.stages[a.i].work.p, NO_ERROR);
    }
  }

  lemma {:induction false} RunKeepsJudged(s: State, run: seq<Action>)
    requires Inv(s) && Legal(s, run) && AllJudged(s)
    ensures AllJudged(After(s, run))
    decreases |run|
  {
    if run != [] {
      StepKeeps(s, run[0]);
      StepKeepsJudged(s, run[0]);
      RunKeepsJudged(Next(s, run[0]), run[1..]);
    }
  }

  /** In every run, a call that got the mutex is refused as too long exactly if the 32-bit sum exceeds the mailbox. */
  lemma TooLongIff(s: State, run: seq<Action>)
    requires Init(s) && Legal(s, run)
    ensures forall c | c in After(s, run).log.calls :: Judged(c)
  {
    InitHolds(s);
    RunKeepsJudged(s, run);
  }

  /** Every result has its cause at the step at which the call gets it. */
  lemma ResultHasCause(s: State, a: Action)
    requires Inv(s) && Enabled(s, a)
    ensures var calls, calls' := s.log.calls, Next(s, a).log.calls;
            || calls' == calls
            || (|calls'| == |calls| + 1 && calls == calls'[..|calls|]
                && var c := calls'[|calls|];
                   && IsStepOf(a, c.who)
                   && (c.ret == NO_ERROR ==>
                         s.line.cached == s.line.host == s.line.netx && Next(s, a).line.host != s.line.host && Holds(s.mem, c.p))
                   && (c.ret == DEV_MAILBOX_FULL ==> s.line.cached != s.line.host)
                   && (c.ret == DRV_CMD_ACTIVE ==> Mutex.InTheWay(s.m, c.who)))
  {
    if a.Lock? && Refused(s.m, s.stages, a.i, a.r) {
      Mutex.RefusalHasCause(s.m, a.i, a.r);
    }
  }

  /** Thread i takes steps of its own, and nobody else any, until its call has a result. */
  predicate OwnSteps(s: State, i: nat, run: seq<Action>)
    decreases |run|
  {
    run == [] ||
    (i < |s.stages| && !s.stages[i].Out? && !s.stages[i].Leaving? && IsStepOf(run[0], i) && Enabled(s, run[0])
     && OwnSteps(Next(s, run[0]), i, run[1..]))
  }

  function ResultOf(p: Packet): nat
    requires |p| == MAILBOX_SIZE
  {
    if Size(p) > MAILBOX_SIZE then DEV_MAILBOX_TOO_SHORT else NO_ERROR
  }

  /** With mutex and slot free, this is what thread i finds at each point of the call. */
  ghost predicate Unhindered(s: State, i: nat, p: Packet, log: Log) {
    && |p| == MAILBOX_SIZE && |s.mem| == MAILBOX_SIZE && i < |s.stages| == |s.m.pcs|
    && match s.stages[i]
       case Out => false
       case Entering(q) => q == p && Mutex.Unhindered(s.m, i) && HostMay(s.line, true) && SameCalls(s.log, log)
       case Inside(w) =>
         && w.p == p && Size(p) <= MAILBOX_SIZE && s.m.pcs[i] == Mutex.Granted && HostMay(s.line, true) && SameCalls(s.log, log)
         && (w.Copy? ==> w.n <= Size(p))
       case Leaving => SameCalls(s.log, Return(log, i, p, ResultOf(p)))
  }

  predicate SameCalls(a: Log, b: Log) { a.calls == b.calls && a.posted == b.posted }

  /** A bound on the steps that are left. */
  function ToGo(s: State, i: nat): nat
    requires i < |s.stages| == |s.m.pcs|
  {
    match s.stages[i]
    case Entering(_) => MAILBOX_SIZE + 4 + Mutex.ToGo(s.m.pcs[i])
    case Inside(Wait(_)) => MAILBOX_SIZE + 3
    case Inside(Copy(p, n)) => if n <= MAILBOX_SIZE then MAILBOX_SIZE - n + 2 else 1
    case _ => 0
  }

  lemma UnhinderedStep(s: State, i: nat, p: Packet, log: Log, a: Action)
    requires Unhindered(s, i, p, log) && !s.stages[i].Leaving? && IsStepOf(a, i) && Enabled(s, a)
    ensures Unhindered(Next(s, a), i, p, log) && ToGo(Next(s, a), i) < ToGo(s, i)
  {
    if a.Lock? {
      Mutex.UnhinderedStep(s.m, i, a.r);
    }
  }

  lemma {:induction false} UnhinderedRun(s: State, i: nat, p: Packet, log: Log, run: seq<Action>)
    requires Unhindered(s, i, p, log) && OwnSteps(s, i, run)
    ensures Legal(s, run) && Unhindered(After(s, run), i, p, log)
    decreases |run|
  {
    if run != [] {
      UnhinderedStep(s, i, p, log, run[0]);
      UnhinderedRun(Next(s, run[0]), i, p, log, run[1..]);
    }
  }

  /** Mutex and slot are free. */
  predicate AllFree(s: State) { !s.m.flag && s.m.lock == None && s.line.cached == s.line.host }

  /**
  With mutex and slot free and nobody interfering, the packet is posted if it fits, whatever the timeout,
  and refused as too long otherwise: the call can end in no other way.
  */
  lemma FreeSlotTakesPacket(s: State, i: nat, p: Packet, timeout: nat, run: seq<Action>)
    requires Inv(s) && MayEnter(s.m, s.stages, i) && |p| == MAILBOX_SIZE && AllFree(s)
    requires OwnSteps(Next(s, Put(i, p, timeout)), i, run)
    ensures Legal(Next(s, Put(i, p, timeout)), run)
    ensures var t := After(Next(s, Put(i, p, timeout)), run);
            && i < |t.stages| && !t.stages[i].Out?
            && (t.stages[i].Leaving? ==>
                  if (Length(p) + HEADER_SIZE) % WORD <= MAILBOX_SIZE
                  then t.log.calls == s.log.calls + [Call(i, p, NO_ERROR)] && t.log.posted == s.log.posted + [p]
                  else t.log.calls == s.log.calls + [Call(i, p, DEV_MAILBOX_TOO_SHORT)] && t.log.posted == s.log.posted)
  {
    UnhinderedRun(Next(s, Put(i, p, timeout)), i, p, s.log, run);
  }

  /** And it does end. */
  lemma FreeSlotReturns(s: State, i: nat, p: Packet, timeout: nat) returns (run: seq<Action>)
    requires Inv(s) && MayEnter(s.m, s.stages, i) && |p| == MAILBOX_SIZE && AllFree(s)
    ensures OwnSteps(Next(s, Put(i, p, timeout)), i, run) && Legal(Next(s, Put(i, p, timeout)), run)
    ensures var t := After(Next(s, Put(i, p, timeout)), run); i < |t.stages| && t.stages[i].Leaving?
  {
    run := UnhinderedReturns(Next(s, Put(i, p, timeout)), i, p, s.log);
  }

  function NextOf(s: State, i: nat): Action
    requires i < |s.stages| == |s.m.pcs|
  {
    match s.stages[i]
    case Inside(Wait(_)) => Found(i)
    case Inside(Copy(p, n)) => if |p| == MAILBOX_SIZE && n >= Size(p) then Post(i) else CopyByte(i)
    case _ => if s.m.pcs[i] == Mutex.Granted then Check(i) else Lock(i, 1)
  }

  lemma {:induction false} UnhinderedReturns(s: State, i: nat, p: Packet, log: Log) returns (run: seq<Action>)
    requires Unhindered(s, i, p, log)
    ensures OwnSteps(s, i, run) && Legal(s, run)
    ensures i < |After(s, run).stages| && After(s, run).stages[i].Leaving?
    decreases ToGo(s, i)
  {
    if s.stages[i].Leaving? {
      run := [];
    } else {
      var a := NextOf(s, i);
      UnhinderedStep(s, i, p, log, a);
      var rest := UnhinderedReturns(Next(s, a), i, p, log);
      run := [a] + rest;
      assert run[1..] == rest;
    }
  }

  // ---------------------------------------------------------------------------------------------
  // netana_put_packet
  // ---------------------------------------------------------------------------------------------

  /** The calls of one thread, in order. */
  function CallsOf(calls: seq<Call>, who: nat): seq<Call> {
    if calls == [] then [] else
      CallsOf(calls[..|calls| - 1], who) + (if calls[|calls| - 1].who == who then [calls[|calls| - 1]] else [])
  }

  lemma CallsOfReturn(log: Log, i: nat, p: Packet, ret: nat, who: nat)
    ensures CallsOf(Return(log, i, p, ret).calls, who)
            == CallsOf(log.calls, who) + (if i == who then [Call(i, p, ret)] else [])
  {
    assert Return(log, i, p, ret).calls[..|log.calls|] == log.calls;
  }

  predicate IsStepOf(a: Action, me: nat) {
    (a.Put? || a.Lock? || a.Check? || a.Found? || a.GiveUp? || a.CopyByte? || a.Post?) && a.i == me
  }

  lemma OthersLeaveMe(s: State, a: Action, me: nat)
    requires Inv(s) && Enabled(s, a) && !IsStepOf(a, me) && me < |s.stages|
    ensures var t := Next(s, a);
            |t.stages| == |s.stages| && t.stages[me] == s.stages[me] && t.m.pcs[me] == s.m.pcs[me]
  {
  }

  /** Only a thread's own steps end its calls. */
  lemma OthersReturn(s: State, a: Action, me: nat)
    requires Inv(s) && Enabled(s, a) && !IsStepOf(a, me)
    ensures CallsOf(Next(s, a).log.calls, me) == CallsOf(s.log.calls, me)
  {
    if a.Lock? && Refused(s.m, s.stages, a.i, a.r) {
      CallsOfReturn(s.log, a.i, s.stages[a.i].arg, DRV_CMD_ACTIVE, me);
    } else if a.Check? {
      CallsOfReturn(s.log, a.i, s.stages[a.i].arg, DEV_MAILBOX_TOO_SHORT, me);
    } else if a.GiveUp? {
      CallsOfReturn(s.log, a.i, s.stages[a.i].work.p, DEV_MAILBOX_FULL, me);
    } else if a.Post? {
      CallsOfReturn(s.log, a.i, s.stages[a.i].work.p, NO_ERROR, me);
    }
  }

  lemma PostFacts(s: State, me: nat, p: Packet)
    requires Inv(s) && AtWork(s.m, s.stages, me) && |p| == MAILBOX_SIZE && s.stages[me] == Inside(Copy(p, Size(p)))
    ensures Enabled(s, Post(me))
    ensures var t := Next(s, Post(me));
            && Inv(t) && t == s.(line := HostToggle(s.line), stages := s.stages[me := Leaving], log := Return(s.log, me, p, NO_ERROR))
            && FirmwareMay(t.line, true) && CallsOf(t.log.calls, me) == CallsOf(s.log.calls, me) + [Call(me, p, NO_ERROR)]
  {
    StepKeeps(s, Post(me));
    CallsOfReturn(s.log, me, p, NO_ERROR, me);
    HostToggleSafe(s.line, true);
  }

  /** How far a thread has copied, so far is its packet in the slot. */
  lemma CopyFacts(s: State, me: nat, p: Packet, n: nat)
    requires Inv(s) && AtWork(s.m, s.stages, me) && s.stages[me] == Inside(Copy(p, n)) && |p| == MAILBOX_SIZE
    ensures n <= Size(p) <= |s.mem| && s.mem[..n] == p[..n]
    ensures n < Size(p) ==>
              && Enabled(s, CopyByte(me))
              && var t := Next(s, CopyByte(me));
                 Inv(t) && t == s.(mem := s.mem[n := p[n]], stages := s.stages[me := Inside(Copy(p, n + 1))])
  {
    if n < Size(p) {
      StepKeeps(s, CopyByte(me));
    }
  }

  class Device {
    var m: Mutex.State
    var stages: seq<Stage<Packet, Work>>
    var line: Line
    var mem: seq<byte>
    var got: seq<byte>
    var log: Log

    function Snap(): State reads this { State(m, stages, line, mem, got, log) }

    ghost predicate Valid() reads this { Inv(Snap()) && |stages| == |m.pcs| }

    method Become(t: State)
      modifies this
      ensures Snap() == t
    {
      m, stages, line, mem, got, log := t.m, t.stages, t.line, t.mem, t.got, t.log;
    }

    /** Any number of steps of everybody else: other threads, the interrupt, the DSR, the device. */
    method Interfere(me: nat)
      requires Valid() && me < |stages|
      modifies this
      ensures Valid() && |stages| == old(|stages|) && stages[me] == old(stages[me]) && m.pcs[me] == old(m.pcs[me])
      ensures CallsOf(log.calls, me) == old(CallsOf(log.calls, me))
    {
      var n: nat := *;
      while n > 0
        invariant Valid() && |stages| == old(|stages|) && stages[me] == old(stages[me]) && m.pcs[me] == old(m.pcs[me])
        invariant CallsOf(log.calls, me) == old(CallsOf(log.calls, me))
        decreases n
      {
        var a: Action := *;
        if Enabled(Snap(), a) && !IsStepOf(a, me) {
          StepKeeps(Snap(), a);
          OthersLeaveMe(Snap(), a, me);
          OthersReturn(Snap(), a, me);
          Become(Next(Snap(), a));
        }
        n := n - 1;
      }
    }

    /** A call returns exactly one result, and its packet is posted exactly if that is success. */
    method PutPacket(me: nat, p: Packet, timeout: nat) returns (returned: bool, ret: nat)
      requires Valid() && me < |stages| && stages[me].Out? && |p| == MAILBOX_SIZE
      modifies this
      ensures Valid() && |stages| == old(|stages|)
      ensures returned ==> stages[me].Out? && CallsOf(log.calls, me) == old(CallsOf(log.calls, me)) + [Call(me, p, ret)]
      ensures log.posted == Successful(log.calls)
      ensures returned ==> ret == NO_ERROR || ret == DEV_MAILBOX_FULL || ret == DEV_MAILBOX_TOO_SHORT || ret == DRV_CMD_ACTIVE
      ensures returned && ret != DRV_CMD_ACTIVE ==>
                (ret == DEV_MAILBOX_TOO_SHORT <==> (Length(p) + HEADER_SIZE) % WORD > MAILBOX_SIZE)
      ensures returned && ret == DRV_CMD_ACTIVE ==> Mutex.InTheWay(m, me)
      ensures !returned ==> !stages[me].Out?
    {
      ret := DRV_CMD_ACTIVE;
      var granted: bool;
      returned, granted := WaitMutex(me, p, timeout);
      if returned && granted {
        ret := PutLocked(me, p, timeout);
        returned := ReleaseMutex(me);
      }
    }

    /** OS_WaitMutex, step by step as in module Mutex; it need not return. */
    method WaitMutex(me: nat, p: Packet, timeout: nat) returns (returned: bool, granted: bool)
      requires Valid() && me < |stages| && stages[me].Out? && |p| == MAILBOX_SIZE
      modifies this
      ensures Valid() && |stages| == old(|stages|)
      ensures returned && granted ==> stages[me] == Entering(p) && m.pcs[me] == Mutex.Granted
                                      && CallsOf(log.calls, me) == old(CallsOf(log.calls, me))
      ensures returned && !granted ==>
                stages[me].Out? && CallsOf(log.calls, me) == old(CallsOf(log.calls, me)) + [Call(me, p, DRV_CMD_ACTIVE)]
      ensures returned && !granted ==> Mutex.InTheWay(m, me)
      ensures !returned ==> stages[me].Entering?
    {
      StepKeeps(Snap(), Put(me, p, timeout));
      Become(Next(Snap(), Put(me, p, timeout)));
      var steps: nat := *;
      while steps > 0
        invariant Valid() && |stages| == old(|stages|) && stages[me] == Entering(p)
        invariant CallsOf(log.calls, me) == old(CallsOf(log.calls, me))
        decreases steps
      {
        Interfere(me);
        if m.pcs[me] == Mutex.Granted {
          return true, true;
        }
        var left: nat := *;
        var a := Lock(me, left);
        if Enabled(Snap(), a) {
          if Refused(m, stages, me, left) {
            CallsOfReturn(log, me, p, DRV_CMD_ACTIVE, me);
            Mutex.RefusalHasCause(m, me, left);
            StepKeeps(Snap(), a);
            Become(Next(Snap(), a));
            return true, false;
          }
          StepKeeps(Snap(), a);
          Become(Next(Snap(), a));
        }
        steps := steps - 1;
      }
      returned, granted := false, false;
    }

    /** The body of put_packet: check the size, wait for the slot, copy, signal. */
    method PutLocked(me: nat, p: Packet, timeout: nat) returns (ret: nat)
      requires Valid() && me < |stages| && stages[me] == Entering(p) && m.pcs[me] == Mutex.Granted && |p| == MAILBOX_SIZE
      modifies this
      ensures Valid() && |stages| == old(|stages|) && stages[me].Leaving? && m.pcs[me] == Mutex.Granted
      ensures CallsOf(log.calls, me) == old(CallsOf(log.calls, me)) + [Call(me, p, ret)]
      ensures ret == DEV_MAILBOX_TOO_SHORT <==> (Length(p) + HEADER_SIZE) % WORD > MAILBOX_SIZE
      ensures ret == NO_ERROR || ret == DEV_MAILBOX_TOO_SHORT || (ret == DEV_MAILBOX_FULL && line.cached != line.host)
    {
      StepKeeps(Snap(), Check(me));
      if Size(p) > MAILBOX_SIZE {
        ret := DEV_MAILBOX_TOO_SHORT;
        CallsOfReturn(log, me, p, ret, me);
        Become(Next(Snap(), Check(me)));
        return;
      }
      stages := stages[me := Inside(Wait(p))];
      var found := WaitForSlot(me, p, timeout);
      if !found {
        return DEV_MAILBOX_FULL;
      }
      CopyPacket(me, p);
      SignalPacket(me, p);
      ret := NO_ERROR;
    }

    /** Toggle the command bit: the slot is the device's now. */
    method SignalPacket(me: nat, p: Packet)
      requires Valid() && me < |stages| && m.pcs[me] == Mutex.Granted && |p| == MAILBOX_SIZE
      requires stages[me] == Inside(Copy(p, Size(p)))
      modifies this
      ensures Valid() && |stages| == old(|stages|) && stages[me].Leaving? && m.pcs[me] == Mutex.Granted
      ensures line == HostToggle(old(line)) && FirmwareMay(line, true) && mem == old(mem)
      ensures log == Return(old(log), me, p, NO_ERROR)
      ensures CallsOf(log.calls, me) == old(CallsOf(log.calls, me)) + [Call(me, p, NO_ERROR)]
    {
      PostFacts(Snap(), me, p);
      ghost var t := Next(Snap(), Post(me));
      line := HostToggle(line);
      stages := stages[me := Leaving];
      log := Return(log, me, p, NO_ERROR);
      assert Snap() == t;
    }

    /** Wait until the cached bits are equal, or give up at a moment when they are not. */
    method WaitForSlot(me: nat, p: Packet, timeout: nat) returns (found: bool)
      requires Valid() && me < |stages| && stages[me] == Inside(Wait(p)) && m.pcs[me] == Mutex.Granted
      modifies this
      ensures Valid() && |stages| == old(|stages|) && m.pcs[me] == Mutex.Granted
      ensures found ==> stages[me] == Inside(Copy(p, 0)) && CallsOf(log.calls, me) == old(CallsOf(log.calls, me))
      ensures !found ==> stages[me].Leaving?
                         && CallsOf(log.calls, me) == old(CallsOf(log.calls, me)) + [Call(me, p, DEV_MAILBOX_FULL)]
      ensures !found ==> line.cached != line.host
    {
      var turns: nat := *;
      Interfere(me);
      while timeout > 0 && turns > 0 && !HostMay(line, true)
        invariant Valid() && |stages| == old(|stages|) && stages[me] == Inside(Wait(p)) && m.pcs[me] == Mutex.Granted
        invariant CallsOf(log.calls, me) == old(CallsOf(log.calls, me))
        decreases turns
      {
        Interfere(me);
        turns := turns - 1;
      }
      found := HostMay(line, true);
      if found {
        StepKeeps(Snap(), Found(me));
        stages := stages[me := Inside(Copy(p, 0))];
      } else {
        ReportFull(me, p);
      }
    }

    method ReportFull(me: nat, p: Packet)
      requires Valid() && me < |stages| && stages[me] == Inside(Wait(p)) && m.pcs[me] == Mutex.Granted
      requires !HostMay(line, true)
      modifies this
      ensures Valid() && |stages| == old(|stages|) && m == old(m) && line == old(line) && stages[me].Leaving?
      ensures CallsOf(log.calls, me) == old(CallsOf(log.calls, me)) + [Call(me, p, DEV_MAILBOX_FULL)]
    {
      StepKeeps(Snap(), GiveUp(me));
      CallsOfReturn(log, me, p, DEV_MAILBOX_FULL, me);
      stages := stages[me := Leaving];
      log := Return(log, me, p, DEV_MAILBOX_FULL);
    }

    /** OS_Memcpy into the slot; the device and all other threads may run between any two bytes. */
    method CopyPacket(me: nat, p: Packet)
      requires Valid() && me < |stages| && stages[me] == Inside(Copy(p, 0)) && m.pcs[me] == Mutex.Granted
      requires |p| == MAILBOX_SIZE
      modifies this
      ensures Valid() && |stages| == old(|stages|) && m.pcs[me] == Mutex.Granted
      ensures stages[me] == Inside(Copy(p, Size(p))) && mem[..Size(p)] == p[..Size(p)]
      ensures CallsOf(log.calls, me) == old(CallsOf(log.calls, me))
    {
      var n, size := 0, Size(p);
      while n < size
        invariant Valid() && |stages| == old(|stages|) && m.pcs[me] == Mutex.Granted
        invariant n <= size && stages[me] == Inside(Copy(p, n))
        invariant CallsOf(log.calls, me) == old(CallsOf(log.calls, me))
      {
        CopyNext(me, p, n);
        n := n + 1;
      }
      Interfere(me);
      CopyFacts(Snap(), me, p, n);
    }

    method CopyNext(me: nat, p: Packet, n: nat)
      requires Valid() && me < |stages| && stages[me] == Inside(Copy(p, n)) && m.pcs[me] == Mutex.Granted
      requires |p| == MAILBOX_SIZE && n < Size(p)
      modifies this
      ensures Valid() && |stages| == old(|stages|) && m.pcs[me] == Mutex.Granted
      ensures stages[me] == Inside(Copy(p, n + 1)) && CallsOf(log.calls, me) == old(CallsOf(log.calls, me))
    {
      Interfere(me);
      CopyFacts(Snap(), me, p, n);
      ghost var t := Next(Snap(), CopyByte(me));
      mem := mem[n := p[n]];
      stages := stages[me := Inside(Copy(p, n + 1))];
      assert Snap() == t;
    }

    /** OS_ReleaseMutex, step by step. */
    method ReleaseMutex(me: nat) returns (returned: bool)
      requires Valid() && me < |stages| && stages[me].Leaving?
      modifies this
      ensures Valid() && |stages| == old(|stages|) && CallsOf(log.calls, me) == old(CallsOf(log.calls, me))
      ensures returned ==> stages[me].Out?
      ensures !returned ==> stages[me].Leaving?
    {
      var steps: nat := *;
      while steps > 0
        invariant Valid() && |stages| == old(|stages|) && stages[me].Leaving?
        invariant CallsOf(log.calls, me) == old(CallsOf(log.calls, me))
        decreases steps
      {
        Interfere(me);
        var a := Lock(me, 0);
        if Enabled(Snap(), a) {
          StepKeeps(Snap(), a);
          Become(Next(Snap(), a));
          if stages[me].Out? {
            return true;
          }
        }
        steps := steps - 1;
      }
      returned := false;
    }
  }
}
