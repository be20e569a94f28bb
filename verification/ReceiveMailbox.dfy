/**
The receive mailbox: one slot in the dual-ported memory, an indication bit that says whose it is, and
any number of threads that take packets out of it under a mutex.
*/
module ReceiveMailbox {
  import opened Words
  import opened CachedBit
  import opened LockedCall
  import Mutex

  const MAILBOX_SIZE := 1596
  const HEADER_SIZE := 40

  const NO_ERROR := 0
  const DEV_GET_NO_PACKET := 0x8021_000a
  const BUFFER_TOO_SHORT := 0x8021_000b
  const DRV_CMD_ACTIVE := 0x8022_0013

  /** What the driver takes for the size of the packet in the mailbox: the sum has 32 bits. */
  function Size(mem: seq<byte>): nat
    requires |mem| == MAILBOX_SIZE
  {
    (FromBytes(mem[16..20]) + HEADER_SIZE) % WORD
  }

  /** A packet no larger than the mailbox. */
  predicate Fits(mem: seq<byte>) { |mem| == MAILBOX_SIZE && Size(mem) <= MAILBOX_SIZE }

  function Min(a: nat, b: nat): nat { if a <= b then a else b }

  /** About to read the length, or copying `size` bytes or as many as the caller has room for. */
  datatype Work = Read(room: nat) | Copy(room: nat, size: nat, out: seq<byte>)

  datatype Call = Call(who: nat, room: nat, out: seq<byte>, ret: nat)

  /** History: mailbox contents the device posted, calls with their results, who took the mutex. */
  datatype Log = Log(posted: seq<seq<byte>>, calls: seq<Call>, takers: seq<nat>)

  datatype State = State(m: Mutex.State, stages: seq<Stage<nat, Work>>, line: Line, mem: seq<byte>, log: Log)

  datatype Action =
    | Get(i: nat, room: nat, timeout: nat) | Lock(i: nat, r: nat)
    | Found(i: nat) | GiveUp(i: nat) | ReadSize(i: nat) | CopyByte(i: nat) | Acknowledge(i: nat)
    | Interrupt | Consume(k: nat)
    | DeviceWrites(k: nat, b: byte) | DevicePosts

  predicate Init(s: State) {
    && Mutex.Init(s.m) && |s.stages| == |s.m.pcs| && (forall i | 0 <= i < |s.stages| :: s.stages[i].Out?)
    && s.line.netx == s.line.host == s.line.cached && s.line.pending == []
    && |s.mem| == MAILBOX_SIZE && s.log == Log([], [], [])
  }

  predicate Reads(st: Stage<nat, Work>) { st.Inside? && st.work.Read? }

  predicate Copies(st: Stage<nat, Work>) { st.Inside? && st.work.Copy? }

  function Wanted(w: Work): nat
    requires w.Copy?
  {
    Min(w.size, w.room)
  }

  /** The device writes the slot only on its turn, and posts no packet larger than the slot. */
  predicate Enabled(s: State, a: Action) {
    match a
    case Get(i, _, _) => MayEnter(s.m, s.stages, i)
    case Lock(i, r) => MayMove(s.m, s.stages, i, r)
    case Found(i) => AtWork(s.m, s.stages, i) && s.stages[i].Entering? && HostMay(s.line, false)
    case GiveUp(i) => AtWork(s.m, s.stages, i) && s.stages[i].Entering? && !HostMay(s.line, false)
    case ReadSize(i) => AtWork(s.m, s.stages, i) && Reads(s.stages[i]) && |s.mem| == MAILBOX_SIZE
    case CopyByte(i) =>
      && AtWork(s.m, s.stages, i) && Copies(s.stages[i])
      && |s.stages[i].work.out| < Wanted(s.stages[i].work) && |s.stages[i].work.out| < |s.mem|
    case Acknowledge(i) =>
      AtWork(s.m, s.stages, i) && Copies(s.stages[i]) && |s.stages[i].work.out| >= Wanted(s.stages[i].work)
    case Interrupt => true
    case Consume(k) => k < |s.line.pending|
    case DeviceWrites(k, _) => FirmwareMay(s.line, false) && k < |s.mem|
    case DevicePosts => FirmwareMay(s.line, false) && Fits(s.mem)
  }

  function Return(log: Log, i: nat, room: nat, out: seq<byte>, ret: nat): Log {
    log.(calls := log.calls + [Call(i, room, out, ret)])
  }

  function Next(s: State, a: Action): State
    requires Enabled(s, a)
  {
    match a
    case Get(i, room, timeout) => s.(m := Mutex.Next(s.m, Mutex.Wait(i, timeout)), stages := s.stages[i := Entering(room)])
    case Lock(i, r) =>
      s.(m := Mutex.Next(s.m, Mutex.Step(i, r)), stages := Moved(s.m, s.stages, i, r),
         log := if Refused(s.m, s.stages, i, r) then Return(s.log, i, s.stages[i].arg, [], DRV_CMD_ACTIVE)
                else s.log.(takers := Takers(s.m, i, s.log.takers)))
    case Found(i) => s.(stages := s.stages[i := Inside(Read(s.stages[i].arg))])
    case GiveUp(i) => s.(stages := s.stages[i := Leaving], log := Return(s.log, i, s.stages[i].arg, [], DEV_GET_NO_PACKET))
    case ReadSize(i) => s.(stages := s.stages[i := Inside(Copy(s.stages[i].work.room, Size(s.mem), []))])
    case CopyByte(i) =>
      var w := s.stages[i].work;
      s.(stages := s.stages[i := Inside(w.(out := w.out + [s.mem[|w.out|]]))])
    case Acknowledge(i) =>
      var w := s.stages[i].work;
      s.(line := HostToggle(s.line), stages := s.stages[i := Leaving],
         log := Return(s.log, i, w.room, w.out, ResultOf(w.size, w.room)))
    case Interrupt => s.(line := Sample(s.line))
    case Consume(k) => s.(line := Deliver(s.line, k))
    case DeviceWrites(k, b) => s.(mem := s.mem[k := b])
    case DevicePosts => s.(line := FirmwareToggle(s.line), log := s.log.(posted := s.log.posted + [s.mem]))
  }

  function ResultOf(size: nat, room: nat): nat { if size > room then BUFFER_TOO_SHORT else NO_ERROR }

  predicate Legal(s: State, run: seq<Action>)
    decreases |run|
  {
    run == [] || (Enabled(s, run[0]) && Legal(Next(s, run[0]), run[1..]))
  }

  function After(s: State, run: seq<Action>): State
    requires Legal(s, run)
    decreases |run|
  {
    if run == [] then s else After(Next(s, run[0]), run[1..])
  }

  // ---------------------------------------------------------------------------------------------
  // Invariant
  // ---------------------------------------------------------------------------------------------

  /** A thread at work has the slot, and has so far copied what is in it. */
  ghost predicate Taking(stages: seq<Stage<nat, Work>>, line: Line, mem: seq<byte>) {
    forall i | 0 <= i < |stages| && stages[i].Inside? ::
      var w := stages[i].work;
      && HostMay(line, false)
      && (w.Copy? ==> Fits(mem) && w.size == Size(mem) && |w.out| <= Wanted(w) && w.out == mem[..|w.out|])
  }

  /** The calls that took a packet, in the order they got their results. */
  function Consumed(calls: seq<Call>): seq<Call> {
    if calls == [] then [] else
      Consumed(calls[..|calls| - 1])
      + (var c := calls[|calls| - 1]; if c.ret == NO_ERROR || c.ret == BUFFER_TOO_SHORT then [c] else [])
  }

  /** The call got this packet: all of it, or as much as it had room for. */
  predicate Got(c: Call, content: seq<byte>) {
    && Fits(content) && c.out == content[..Min(Size(content), c.room)]
    && (c.ret == BUFFER_TOO_SHORT <==> Size(content) > c.room)
  }

  /** Every posted packet has been taken by one call, or all but the one that is in the slot. */
  ghost predicate Slot(line: Line, mem: seq<byte>, posted: seq<seq<byte>>, consumed: seq<Call>) {
    && |mem| == MAILBOX_SIZE
    && (forall k | 0 <= k < |consumed| && k < |posted| :: Got(consumed[k], posted[k]))
    && if FirmwareMay(line, false) then |posted| == |consumed|
       else |posted| == |consumed| + 1 && posted[|consumed|] == mem && Fits(mem)
  }

  ghost predicate Inv(s: State) {
    && AllMatch(s.m, s.stages)
    && Safe(s.line, false)
    && Taking(s.stages, s.line, s.mem)
    && Slot(s.line, s.mem, s.log.posted, Consumed(s.log.calls))
  }

  lemma ConsumedReturn(log: Log, i: nat, room: nat, out: seq<byte>, ret: nat)
    ensures Consumed(Return(log, i, room, out, ret).calls)
            == Consumed(log.calls) + (if ret == NO_ERROR || ret == BUFFER_TOO_SHORT then [Call(i, room, out, ret)] else [])
  {
    assert Return(log, i, room, out, ret).calls[..|log.calls|] == log.calls;
  }

  lemma EntryStepKeeps(s: State, a: Action)
    requires Inv(s) && Enabled(s, a) && (a.Get? || a.Lock?)
    ensures Inv(Next(s, a))
  {
    if a.Get? {
      EnterKeeps(s.m, s.stages, a.i, a.timeout, a.room);
    } else {
      MoveKeeps(s.m, s.stages, a.i, a.r);
      if Refused(s.m, s.stages, a.i, a.r) {
        ConsumedReturn(s.log, a.i, s.stages[a.i].arg, [], DRV_CMD_ACTIVE);
      }
    }
  }

  lemma DecisionStepKeeps(s: State, a: Action)
    requires Inv(s) && Enabled(s, a) && (a.Found? || a.GiveUp? || a.ReadSize?)
    ensures Inv(Next(s, a))
  {
    WorkKeeps(s.m, s.stages, a.i, Next(s, a).stages[a.i]);
    if a.GiveUp? {
      ConsumedReturn(s.log, a.i, s.stages[a.i].arg, [], DEV_GET_NO_PACKET);
    }
  }

  lemma CopyStepKeeps(s: State, a: Action)
    requires Inv(s) && Enabled(s, a) && a.CopyByte?
    ensures Inv(Next(s, a))
  {
    WorkKeeps(s.m, s.stages, a.i, Next(s, a).stages[a.i]);
    var n := |s.stages[a.i].work.out|;
    assert s.mem[..n + 1] == s.mem[..n] + [s.mem[n]];
  }

  lemma AcknowledgeStepKeeps(s: State, a: Action)
    requires Inv(s) && Enabled(s, a) && a.Acknowledge?
    ensures Inv(Next(s, a))
  {
    WorkKeeps(s.m, s.stages, a.i, Next(s, a).stages[a.i]);
    NobodyInside(s.m, s.stages, a.i);
    AcknowledgeFreesSlot(s, a);
  }

  lemma AcknowledgeFreesSlot(s: State, a: Action)
    requires Inv(s) && Enabled(s, a) && a.Acknowledge?
    ensures var t := Next(s, a); Safe(t.line, false) && Slot(t.line, t.mem, t.log.posted, Consumed(t.log.calls))
  {
    var w := s.stages[a.i].work;
    var c := Call(a.i, w.room, w.out, ResultOf(w.size, w.room));
    HostToggleSafe(s.line, false);
    AcknowledgedGot(s, a);
    SlotFreed(s.line, HostToggle(s.line), s.mem, s.log.posted, Consumed(s.log.calls), c);
    ConsumedReturn(s.log, a.i, w.room, w.out, ResultOf(w.size, w.room));
  }

  /** The call has what is in the slot. */
  lemma AcknowledgedGot(s: State, a: Action)
    requires Inv(s) && Enabled(s, a) && a.Acknowledge?
    ensures HostMay(s.line, false)
    ensures var w := s.stages[a.i].work; Got(Call(a.i, w.room, w.out, ResultOf(w.size, w.room)), s.mem)
  {
  }

  lemma SlotFreed(line: Line, line': Line, mem: seq<byte>, posted: seq<seq<byte>>, consumed: seq<Call>, c: Call)
    requires Slot(line, mem, posted, consumed) && !FirmwareMay(line, false) && FirmwareMay(line', false) && Got(c, mem)
    ensures Slot(line', mem, posted, consumed + [c])
  {
    var more := consumed + [c];
    forall k | 0 <= k < |more| && k < |posted|
      ensures Got(more[k], posted[k])
    {
      assert k < |consumed| ==> more[k] == consumed[k];
    }
  }

  lemma LineStepKeeps(s: State, a: Action)
    requires Inv(s) && Enabled(s, a) && (a.Interrupt? || a.Consume?)
    ensures Inv(Next(s, a))
  {
    if a.Interrupt? {
      SampleSafe(s.line, false);
    } else {
      DeliverSafe(s.line, a.k, false);
    }
  }

  lemma DeviceStepKeeps(s: State, a: Action)
    requires Inv(s) && Enabled(s, a) && (a.DeviceWrites? || a.DevicePosts?)
    ensures Inv(Next(s, a))
  {
    assert forall j | 0 <= j < |s.stages| :: !s.stages[j].Inside?;
    if a.DevicePosts? {
      FirmwareToggleSafe(s.line, false);
    }
  }

  lemma StepKeeps(s: State, a: Action)
    requires Inv(s) && Enabled(s, a)
    ensures Inv(Next(s, a))
  {
    if a.Get? || a.Lock? { EntryStepKeeps(s, a); }
    else if a.Found? || a.GiveUp? || a.ReadSize? { DecisionStepKeeps(s, a); }
    else if a.CopyByte? { CopyStepKeeps(s, a); }
    else if a.Acknowledge? { AcknowledgeStepKeeps(s, a); }
    else if a.Interrupt? || a.Consume? { LineStepKeeps(s, a); }
    else { DeviceStepKeeps(s, a); }
  }

  lemma {:induction false} RunKeeps(s: State, run: seq<Action>)
    requires Inv(s) && Legal(s, run)
    ensures Inv(After(s, run))
    decreases |run|
  {
    if run != [] {
      StepKeeps(s, run[0]);
      RunKeeps(Next(s, run[0]), run[1..]);
    }
  }

  // ---------------------------------------------------------------------------------------------
  // Results
  // ---------------------------------------------------------------------------------------------

  /**
  Every packet the device posted goes to exactly one call, in the order of posting, whole or cut to
  the caller's room, and cut exactly if the call reports so; the last one may still be in the slot.
  */
  lemma ExactlyOnce(s: State, run: seq<Action>)
    requires Init(s) && Legal(s, run)
    ensures var log := After(s, run).log;
            var consumed := Consumed(log.calls);
            && |consumed| <= |log.posted| <= |consumed| + 1
            && (forall k | 0 <= k < |consumed| :: Got(consumed[k], log.posted[k]))
  {
    RunKeeps(s, run);
  }

  /** Who got a result under the mutex. */
  function Callers(calls: seq<Call>): seq<nat> {
    if calls == [] then [] else
      Callers(calls[..|calls| - 1]) + (if calls[|calls| - 1].ret == DRV_CMD_ACTIVE then [] else [calls[|calls| - 1].who])
  }

  lemma CallersReturn(log: Log, i: nat, room: nat, out: seq<byte>, ret: nat)
    ensures Callers(Return(log, i, room, out, ret).calls) == Callers(log.calls) + (if ret == DRV_CMD_ACTIVE then [] else [i])
  {
    assert Return(log, i, room, out, ret).calls[..|log.calls|] == log.calls;
  }

  ghost predicate Ordered(s: State) { LockOrder(s.m, s.stages, s.log.takers, Callers(s.log.calls)) }

  lemma GetKeepsOrder(s: State, a: Action)
    requires AllMatch(s.m, s.stages) && Enabled(s, a) && Ordered(s) && a.Get?
    ensures Ordered(Next(s, a))
  {
    EnterKeepsOrder(s.m, s.stages, a.i, a.timeout, a.room, s.log.takers, Callers(s.log.calls));
  }

  lemma LockKeepsOrder(s: State, a: Action)
    requires AllMatch(s.m, s.stages) && Enabled(s, a) && Ordered(s) && a.Lock?
    ensures Ordered(Next(s, a))
  {
    var t := Next(s, a);
    MoveKeepsOrder(s.m, s.stages, a.i, a.r, s.log.takers, Callers(s.log.calls));
    assert t.log.takers == Takers(s.m, a.i, s.log.takers);
    assert Callers(t.log.calls) == Callers(s.log.calls) by {
      if Refused(s.m, s.stages, a.i, a.r) { CallersReturn(s.log, a.i, s.stages[a.i].arg, [], DRV_CMD_ACTIVE); }
    }
  }

  lemma GoingOnKeepsOrder(s: State, a: Action, work: Work)
    requires Inv(s) && Enabled(s, a) && Ordered(s) && (a.Found? || a.ReadSize? || a.CopyByte?)
    requires Next(s, a).stages[a.i] == Inside(work)
    ensures Ordered(Next(s, a))
  {
    WorkKeepsOrder(s.m, s.stages, a.i, work, s.log.takers, Callers(s.log.calls));
  }

  lemma LeavingKeepsOrder(s: State, a: Action, room: nat, out: seq<byte>, ret: nat)
    requires Inv(s) && Enabled(s, a) && Ordered(s) && (a.GiveUp? || a.Acknowledge?) && ret != DRV_CMD_ACTIVE
    requires Next(s, a).stages == s.stages[a.i := Leaving] && Next(s, a).log == Return(s.log, a.i, room, out, ret)
    ensures Ordered(Next(s, a))
  {
    CallersReturn(s.log, a.i, room, out, ret);
    ResultKeepsOrder(s.m, s.stages, a.i, s.log.takers, Callers(s.log.calls));
  }

  lemma StepKeepsOrder(s: State, a: Action)
    requires Inv(s) && Enabled(s, a) && Ordered(s)
    ensures Ordered(Next(s, a))
  {
    match a
    case Get(_, _, _) => GetKeepsOrder(s, a);
    case Lock(_, _) => LockKeepsOrder(s, a);
    case Found(i) => GoingOnKeepsOrder(s, a, Read(s.stages[i].arg));
    case GiveUp(i) => LeavingKeepsOrder(s, a, s.stages[i].arg, [], DEV_GET_NO_PACKET);
    case ReadSize(i) => GoingOnKeepsOrder(s, a, Next(s, a).stages[i].work);
    case CopyByte(i) => GoingOnKeepsOrder(s, a, Next(s, a).stages[i].work);
    case Acknowledge(i) =>
      var w := s.stages[i].work;
      LeavingKeepsOrder(s, a, w.room, w.out, ResultOf(w.size, w.room));
    case _ =>
  }

  lemma {:induction false} RunKeepsOrder(s: State, run: seq<Action>)
    requires Inv(s) && Legal(s, run) && Ordered(s)
    ensures Ordered(After(s, run))
    decreases |run|
  {
    if run != [] {
      StepKeeps(s, run[0]);
      StepKeepsOrder(s, run[0]);
      RunKeepsOrder(Next(s, run[0]), run[1..]);
    }
  }

  /** The calls get their results in the order in which they took the mutex; at most the last taker still waits for its. */
  lemma ResultsInLockOrder(s: State, run: seq<Action>)
    requires Init(s) && Legal(s, run)
    ensures var log := After(s, run).log;
            && Callers(log.calls) <= log.takers && |log.takers| <= |Callers(log.calls)| + 1
  {
    RunKeepsOrder(s, run);
    var t := After(s, run);
    if i: nat :| Open(t.m, t.stages, i) {
      assert t.log.takers == Callers(t.log.calls) + [i];
    }
  }

  /** The slot goes back to the device with every packet taken, cut or not; no other call touches it. */
  lemma AlwaysReleased(s: State, a: Action)
    requires Inv(s) && Enabled(s, a)
    ensures |Consumed(Next(s, a).log.calls)| > |Consumed(s.log.calls)| <==> Next(s, a).line.host != s.line.host
    ensures Next(s, a).line.host != s.line.host ==> !FirmwareMay(s.line, false) && FirmwareMay(Next(s, a).line, false)
  {
    if a.Lock? && Refused(s.m, s.stages, a.i, a.r) {
      ConsumedReturn(s.log, a.i, s.stages[a.i].arg, [], DRV_CMD_ACTIVE);
    } else if a.GiveUp? {
      ConsumedReturn(s.log, a.i, s.stages[a.i].arg, [], DEV_GET_NO_PACKET);
    } else if a.Acknowledge? {
      var w := s.stages[a.i].work;
      ConsumedReturn(s.log, a.i, w.room, w.out, ResultOf(w.size, w.room));
    }
  }

  // ---------------------------------------------------------------------------------------------
  // Which result, and why
  // ---------------------------------------------------------------------------------------------

  lemma SizeInBytes(mem: seq<byte>)
    requires |mem| == MAILBOX_SIZE
    ensures Size(mem) == (mem[16] as nat + 0x100 * mem[17] as nat + 0x1_0000 * mem[18] as nat + 0x100_0000 * mem[19] as nat + 40)
                         % 0x1_0000_0000
  {
    FourBytes(mem[16..20]);
  }

  /** Every result has its cause at the step at which the call gets it. */
  lemma ResultHasCause(s: State, a: Action)
    requires Inv(s) && Enabled(s, a)
    ensures var calls, calls' := s.log.calls, Next(s, a).log.calls;
            || calls' == calls
            || (|calls'| == |calls| + 1 && calls == calls'[..|calls|]
                && var c := calls'[|calls|];
                   && IsStepOf(a, c.who)
                   && (c.ret == NO_ERROR || c.ret == BUFFER_TOO_SHORT || c.ret == DEV_GET_NO_PACKET || c.ret == DRV_CMD_ACTIVE)
                   && (c.ret == NO_ERROR || c.ret == BUFFER_TOO_SHORT ==>
                         s.line.cached != s.line.host && s.line.netx != s.line.host && Next(s, a).line.host == s.line.netx
                         && Got(c, s.mem))
                   && (c.ret == DEV_GET_NO_PACKET ==> s.line.cached == s.line.host)
                   && (c.ret == DRV_CMD_ACTIVE ==> Mutex.InTheWay(s.m, c.who)))
  {
    if a.Lock? && Refused(s.m, s.stages, a.i, a.r) {
      Mutex.RefusalHasCause(s.m, a.i, a.r);
    } else if a.Acknowledge? {
      AcknowledgedGot(s, a);
    }
  }

  /** Thread i takes steps of its own, and nobody else any, until its call has a result. */
  predicate OwnSteps(s: State, i: nat, run: seq<Action>)
    decreases |run|
  {
    run == [] ||
    (i < |s.stages| && !s.stages[i].Out? && !s.stages[i].Leaving? && IsStepOf(run[0], i) && Enabled(s, run[0])
     && OwnSteps(Next(s, run[0]), i, run[1..]))
  }

  /** With the mutex free and a packet in the slot, this is what thread i finds at each point of the call. */
  ghost predicate Unhindered(s: State, i: nat, room: nat, mem: seq<byte>, calls: seq<Call>) {
    && Fits(mem) && s.mem == mem && i < |s.stages| == |s.m.pcs|
    && match s.stages[i]
       case Out => false
       case Entering(n) => n == room && Mutex.Unhindered(s.m, i) && HostMay(s.line, false) && s.log.calls == calls
       case Inside(Read(n)) => n == room && s.m.pcs[i] == Mutex.Granted && s.log.calls == calls
       case Inside(Copy(n, size, out)) =>
         && n == room && size == Size(mem) && |out| <= Min(size, room) && out == mem[..|out|]
         && s.m.pcs[i] == Mutex.Granted && s.log.calls == calls
       case Leaving => s.log.calls == calls + [Call(i, room, mem[..Min(Size(mem), room)], ResultOf(Size(mem), room))]
  }

  /** A bound on the steps that are left. */
  function ToGo(s: State, i: nat): nat
    requires i < |s.stages| == |s.m.pcs|
  {
    match s.stages[i]
    case Entering(_) => MAILBOX_SIZE + 4 + Mutex.ToGo(s.m.pcs[i])
    case Inside(Read(_)) => MAILBOX_SIZE + 3
    case Inside(Copy(_, _, out)) => if |out| <= MAILBOX_SIZE then MAILBOX_SIZE - |out| + 2 else 1
    case _ => 0
  }

  lemma UnhinderedStep(s: State, i: nat, room: nat, mem: seq<byte>, calls: seq<Call>, a: Action)
    requires Unhindered(s, i, room, mem, calls) && !s.stages[i].Leaving? && IsStepOf(a, i) && Enabled(s, a)
    ensures Unhindered(Next(s, a), i, room, mem, calls) && ToGo(Next(s, a), i) < ToGo(s, i)
  {
    if a.Lock? {
      Mutex.UnhinderedStep(s.m, i, a.r);
    } else if a.CopyByte? {
      var n := |s.stages[i].work.out|;
      assert mem[..n + 1] == mem[..n] + [mem[n]];
    }
  }

  lemma {:induction false} UnhinderedRun(s: State, i: nat, room: nat, mem: seq<byte>, calls: seq<Call>, run: seq<Action>)
    requires Unhindered(s, i, room, mem, calls) && OwnSteps(s, i, run)
    ensures Legal(s, run) && Unhindered(After(s, run), i, room, mem, calls)
    decreases |run|
  {
    if run != [] {
      UnhinderedStep(s, i, room, mem, calls, run[0]);
      UnhinderedRun(Next(s, run[0]), i, room, mem, calls, run[1..]);
    }
  }

  /** The mutex is free, and the cached bits say that there is a packet. */
  predicate PacketThere(s: State) { !s.m.flag && s.m.lock == None && s.line.cached != s.line.host }

  /** What is seen in the cached bits is in the slot, and it is no larger than the slot. */
  lemma PacketIsThere(s: State)
    requires Inv(s) && s.line.cached != s.line.host
    ensures Fits(s.mem)
  {
  }

  /**
  With the mutex free, a packet in the slot and nobody interfering, the call gets it, whatever the
  timeout: all of it, or what there is room for and BUFFER_TOO_SHORT. It can end in no other way.
  */
  lemma PacketIsTaken(s: State, i: nat, room: nat, timeout: nat, run: seq<Action>)
    requires Inv(s) && MayEnter(s.m, s.stages, i) && PacketThere(s)
    requires OwnSteps(Next(s, Get(i, room, timeout)), i, run)
    ensures Legal(Next(s, Get(i, room, timeout)), run)
    ensures var t := After(Next(s, Get(i, room, timeout)), run);
            && i < |t.stages| && !t.stages[i].Out? && Fits(s.mem)
            && (t.stages[i].Leaving? ==>
                  t.log.calls == s.log.calls
                    + [if Size(s.mem) <= room then Call(i, room, s.mem[..Size(s.mem)], NO_ERROR)
                       else Call(i, room, s.mem[..room], BUFFER_TOO_SHORT)])
  {
    PacketIsThere(s);
    UnhinderedRun(Next(s, Get(i, room, timeout)), i, room, s.mem, s.log.calls, run);
  }

  /** And it does end. */
  lemma PacketReturns(s: State, i: nat, room: nat, timeout: nat) returns (run: seq<Action>)
    requires Inv(s) && MayEnter(s.m, s.stages, i) && PacketThere(s)
    ensures OwnSteps(Next(s, Get(i, room, timeout)), i, run) && Legal(Next(s, Get(i, room, timeout)), run)
    ensures var t := After(Next(s, Get(i, room, timeout)), run); i < |t.stages| && t.stages[i].Leaving?
  {
    PacketIsThere(s);
    run := UnhinderedReturns(Next(s, Get(i, room, timeout)), i, room, s.mem, s.log.calls);
  }

  function NextOf(s: State, i: nat): Action
    requires i < |s.stages| == |s.m.pcs|
  {
    match s.stages[i]
    case Inside(Read(_)) => ReadSize(i)
    case Inside(Copy(room, size, out)) => if |out| >= Min(size, room) then Acknowledge(i) else CopyByte(i)
    case _ => if s.m.pcs[i] == Mutex.Granted then Found(i) else Lock(i, 1)
  }

  lemma {:induction false} UnhinderedReturns(s: State, i: nat, room: nat, mem: seq<byte>, calls: seq<Call>)
    returns (run: seq<Action>)
    requires Unhindered(s, i, room, mem, calls)
    ensures OwnSteps(s, i, run) && Legal(s, run)
    ensures i < |After(s, run).stages| && After(s, run).stages[i].Leaving?
    decreases ToGo(s, i)
  {
    if s.stages[i].Leaving? {
      run := [];
    } else {
      var a := NextOf(s, i);
      UnhinderedStep(s, i, room, mem, calls, a);
      var rest := UnhinderedReturns(Next(s, a), i, room, mem, calls);
      run := [a] + rest;
      assert run[1..] == rest;
    }
  }

  // ---------------------------------------------------------------------------------------------
  // netana_get_packet
  // ---------------------------------------------------------------------------------------------

  /** The calls of one thread, in order. */
  function CallsOf(calls: seq<Call>, who: nat): seq<Call> {
    if calls == [] then [] else
      CallsOf(calls[..|calls| - 1], who) + (if calls[|calls| - 1].who == who then [calls[|calls| - 1]] else [])
  }

  lemma CallsOfReturn(log: Log, c: Call, who: nat)
    ensures CallsOf(Return(log, c.who, c.room, c.out, c.ret).calls, who)
            == CallsOf(log.calls, who) + (if c.who == who then [c] else [])
  {
    assert Return(log, c.who, c.room, c.out, c.ret).calls[..|log.calls|] == log.calls;
  }

  predicate IsStepOf(a: Action, me: nat) {
    (a.Get? || a.Lock? || a.Found? || a.GiveUp? || a.ReadSize? || a.CopyByte? || a.Acknowledge?) && a.i == me
  }

  lemma OthersLeaveMe(s: State, a: Action, me: nat)
    requires Inv(s) && Enabled(s, a) && !IsStepOf(a, me) && me < |s.stages|
    ensures var t := Next(s, a);
            |t.stages| == |s.stages| && t.stages[me] == s.stages[me] && t.m.pcs[me] == s.m.pcs[me]
    ensures AtWork(s.m, s.stages, me) && s.stages[me].Inside? ==> Next(s, a).mem == s.mem
  {
  }

  /** Only a thread's own steps end its calls. */
  lemma OthersReturn(s: State, a: Action, me: nat)
    requires Inv(s) && Enabled(s, a) && !IsStepOf(a, me)
    ensures CallsOf(Next(s, a).log.calls, me) == CallsOf(s.log.calls, me)
  {
    if a.Lock? && Refused(s.m, s.stages, a.i, a.r) {
      CallsOfReturn(s.log, Call(a.i, s.stages[a.i].arg, [], DRV_CMD_ACTIVE), me);
    } else if a.GiveUp? {
      CallsOfReturn(s.log, Call(a.i, s.stages[a.i].arg, [], DEV_GET_NO_PACKET), me);
    } else if a.Acknowledge? {
      var w := s.stages[a.i].work;
      CallsOfReturn(s.log, Call(a.i, w.room, w.out, ResultOf(w.size, w.room)), me);
    }
  }

  lemma AcknowledgeFacts(s: State, me: nat, room: nat, size: nat, out: seq<byte>)
    requires Inv(s) && AtWork(s.m, s.stages, me) && s.stages[me] == Inside(Copy(room, size, out)) && |out| == Min(size, room)
    ensures Enabled(s, Acknowledge(me))
    ensures var t := Next(s, Acknowledge(me));
            var ret := ResultOf(size, room);
            && Inv(t) && t == s.(line := HostToggle(s.line), stages := s.stages[me := Leaving], log := Return(s.log, me, room, out, ret))
            && FirmwareMay(t.line, false) && CallsOf(t.log.calls, me) == CallsOf(s.log.calls, me) + [Call(me, room, out, ret)]
  {
    StepKeeps(s, Acknowledge(me));
    CallsOfReturn(s.log, Call(me, room, out, ResultOf(size, room)), me);
    HostToggleSafe(s.line, false);
  }

  lemma GiveUpFacts(s: State, me: nat, room: nat)
    requires Inv(s) && AtWork(s.m, s.stages, me) && s.stages[me] == Entering(room) && !HostMay(s.line, false)
    ensures Enabled(s, GiveUp(me))
    ensures var t := Next(s, GiveUp(me));
            && Inv(t) && t == s.(stages := s.stages[me := Leaving], log := Return(s.log, me, room, [], DEV_GET_NO_PACKET))
            && CallsOf(t.log.calls, me) == CallsOf(s.log.calls, me) + [Call(me, room, [], DEV_GET_NO_PACKET)]
  {
    StepKeeps(s, GiveUp(me));
    CallsOfReturn(s.log, Call(me, room, [], DEV_GET_NO_PACKET), me);
  }

  lemma ReadSizeFacts(s: State, me: nat, room: nat)
    requires Inv(s) && AtWork(s.m, s.stages, me) && s.stages[me] == Inside(Read(room))
    ensures Enabled(s, ReadSize(me)) && Fits(s.mem)
    ensures var t := Next(s, ReadSize(me)); Inv(t) && t == s.(stages := s.stages[me := Inside(Copy(room, Size(s.mem), []))])
  {
    StepKeeps(s, ReadSize(me));
  }

  lemma CopyFacts(s: State, me: nat, room: nat, size: nat, out: seq<byte>)
    requires Inv(s) && AtWork(s.m, s.stages, me) && s.stages[me] == Inside(Copy(room, size, out))
    ensures Fits(s.mem) && size == Size(s.mem) && |out| <= Min(size, room) && out == s.mem[..|out|]
    ensures |out| < Min(size, room) ==>
              && Enabled(s, CopyByte(me))
              && var t := Next(s, CopyByte(me));
                 Inv(t) && t == s.(stages := s.stages[me := Inside(Copy(room, size, out + [s.mem[|out|]]))])
  {
    if |out| < Min(size, room) {
      StepKeeps(s, CopyByte(me));
    }
  }

  class Device {
    var m: Mutex.State
    var stages: seq<Stage<nat, Work>>
    var line: Line
    var mem: seq<byte>
    var log: Log

    function Snap(): State reads this { State(m, stages, line, mem, log) }

    ghost predicate Valid() reads this { Inv(Snap()) && |stages| == |m.pcs| }

    method Become(t: State)
      modifies this
      ensures Snap() == t
    {
      m, stages, line, mem, log := t.m, t.stages, t.line, t.mem, t.log;
    }

    /** Any number of steps of everybody else: other threads, the interrupt, the DSR, the device. */
    method Interfere(me: nat)
      requires Valid() && me < |stages|
      modifies this
      ensures Valid() && |stages| == old(|stages|) && stages[me] == old(stages[me]) && m.pcs[me] == old(m.pcs[me])
      ensures CallsOf(log.calls, me) == old(CallsOf(log.calls, me))
      ensures old(AtWork(m, stages, me) && stages[me].Inside?) ==> mem == old(mem)
    {
      var n: nat := *;
      while n > 0
        invariant Valid() && |stages| == old(|stages|) && stages[me] == old(stages[me]) && m.pcs[me] == old(m.pcs[me])
        invariant CallsOf(log.calls, me) == old(CallsOf(log.calls, me))
        invariant old(AtWork(m, stages, me) && stages[me].Inside?) ==> mem == old(mem)
        decreases n
      {
        var a: Action := *;
        if Enabled(Snap(), a) && !IsStepOf(a, me) {
          StepKeeps(Snap(), a);
          OthersLeaveMe(Snap(), a, me);
          OthersReturn(Snap(), a, me);
          Become(Next(Snap(), a));
        }
        n := n - 1;
      }
    }

    /** A call returns exactly one result with what it copied; by the invariant that is the oldest packet nobody took. */
    method GetPacket(me: nat, room: nat, timeout: nat) returns (returned: bool, ret: nat, out: seq<byte>)
      requires Valid() && me < |stages| && stages[me].Out?
      modifies this
      ensures Valid() && |stages| == old(|stages|)
      ensures returned ==> stages[me].Out? && CallsOf(log.calls, me) == old(CallsOf(log.calls, me)) + [Call(me, room, out, ret)]
      ensures returned && ret != NO_ERROR && ret != BUFFER_TOO_SHORT ==> out == []
      ensures returned ==> ret == NO_ERROR || ret == BUFFER_TOO_SHORT || ret == DEV_GET_NO_PACKET || ret == DRV_CMD_ACTIVE
      ensures returned && ret == BUFFER_TOO_SHORT ==> |out| == room
      ensures returned && ret == NO_ERROR ==> |out| <= room
      ensures returned && ret == DRV_CMD_ACTIVE ==> Mutex.InTheWay(m, me)
      ensures !returned ==> !stages[me].Out?
    {
      ret, out := DRV_CMD_ACTIVE, [];
      var granted: bool;
      returned, granted := WaitMutex(me, room, timeout);
      if returned && granted {
        ret, out := GetLocked(me, room, timeout);
        returned := ReleaseMutex(me);
      }
    }

    /** OS_WaitMutex, step by step as in module Mutex; it need not return. */
    method WaitMutex(me: nat, room: nat, timeout: nat) returns (returned: bool, granted: bool)
      requires Valid() && me < |stages| && stages[me].Out?
      modifies this
      ensures Valid() && |stages| == old(|stages|)
      ensures returned && granted ==> stages[me] == Entering(room) && m.pcs[me] == Mutex.Granted
                                      && CallsOf(log.calls, me) == old(CallsOf(log.calls, me))
      ensures returned && !granted ==>
                stages[me].Out? && CallsOf(log.calls, me) == old(CallsOf(log.calls, me)) + [Call(me, room, [], DRV_CMD_ACTIVE)]
      ensures returned && !granted ==> Mutex.InTheWay(m, me)
      ensures !returned ==> stages[me].Entering?
    {
      StepKeeps(Snap(), Get(me, room, timeout));
      Become(Next(Snap(), Get(me, room, timeout)));
      var steps: nat := *;
      while steps > 0
        invariant Valid() && |stages| == old(|stages|) && stages[me] == Entering(room)
        invariant CallsOf(log.calls, me) == old(CallsOf(log.calls, me))
        decreases steps
      {
        Interfere(me);
        if m.pcs[me] == Mutex.Granted {
          return true, true;
        }
        var left: nat := *;
        var a := Lock(me, left);
        if Enabled(Snap(), a) {
          if Refused(m, stages, me, left) {
            CallsOfReturn(log, Call(me, room, [], DRV_CMD_ACTIVE), me);
            Mutex.RefusalHasCause(m, me, left);
            StepKeeps(Snap(), a);
            Become(Next(Snap(), a));
            return true, false;
          }
          StepKeeps(Snap(), a);
          Become(Next(Snap(), a));
        }
        steps := steps - 1;
      }
      returned, granted := false, false;
    }

    /** The body of get_packet: wait for a packet, copy what there is room for, give the slot back. */
    method GetLocked(me: nat, room: nat, timeout: nat) returns (ret: nat, out: seq<byte>)
      requires Valid() && me < |stages| && stages[me] == Entering(room) && m.pcs[me] == Mutex.Granted
      modifies this
      ensures Valid() && |stages| == old(|stages|) && stages[me].Leaving? && m.pcs[me] == Mutex.Granted
      ensures CallsOf(log.calls, me) == old(CallsOf(log.calls, me)) + [Call(me, room, out, ret)]
      ensures ret != NO_ERROR && ret != BUFFER_TOO_SHORT ==> out == []
      ensures ret == NO_ERROR || ret == BUFFER_TOO_SHORT || (ret == DEV_GET_NO_PACKET && line.cached == line.host)
      ensures (ret == BUFFER_TOO_SHORT ==> |out| == room) && (ret == NO_ERROR ==> |out| <= room)
    {
      var found := WaitForPacket(me, room, timeout);
      if !found {
        ReportNoPacket(me, room);
        return DEV_GET_NO_PACKET, [];
      }
      StepKeeps(Snap(), Found(me));
      stages := stages[me := Inside(Read(room))];
      var size: nat;
      size, out := CopyOut(me, room);
      ret := ResultOf(size, room);
      SignalDone(me, room, size, out);
    }

    /** Wait until the cached bits are unequal. */
    method WaitForPacket(me: nat, room: nat, timeout: nat) returns (found: bool)
      requires Valid() && me < |stages| && stages[me] == Entering(room) && m.pcs[me] == Mutex.Granted
      modifies this
      ensures Valid() && |stages| == old(|stages|) && stages[me] == Entering(room) && m.pcs[me] == Mutex.Granted
      ensures found == HostMay(line, false) && CallsOf(log.calls, me) == old(CallsOf(log.calls, me))
    {
      var turns: nat := *;
      Interfere(me);
      while timeout > 0 && turns > 0 && !HostMay(line, false)
        invariant Valid() && |stages| == old(|stages|) && stages[me] == Entering(room) && m.pcs[me] == Mutex.Granted
        invariant CallsOf(log.calls, me) == old(CallsOf(log.calls, me))
        decreases turns
      {
        Interfere(me);
        turns := turns - 1;
      }
      found := HostMay(line, false);
    }

    method ReportNoPacket(me: nat, room: nat)
      requires Valid() && me < |stages| && stages[me] == Entering(room) && m.pcs[me] == Mutex.Granted && !HostMay(line, false)
      modifies this
      ensures Valid() && |stages| == old(|stages|) && m == old(m) && line == old(line) && stages[me].Leaving?
      ensures CallsOf(log.calls, me) == old(CallsOf(log.calls, me)) + [Call(me, room, [], DEV_GET_NO_PACKET)]
    {
      GiveUpFacts(Snap(), me, room);
      ghost var t := Next(Snap(), GiveUp(me));
      stages := stages[me := Leaving];
      log := Return(log, me, room, [], DEV_GET_NO_PACKET);
      assert Snap() == t;
    }

    /** Read the length and copy; everybody else may run between any two bytes, and changes none of them. */
    method CopyOut(me: nat, room: nat) returns (size: nat, out: seq<byte>)
      requires Valid() && me < |stages| && stages[me] == Inside(Read(room)) && m.pcs[me] == Mutex.Granted
      modifies this
      ensures Valid() && |stages| == old(|stages|) && m.pcs[me] == Mutex.Granted
      ensures stages[me] == Inside(Copy(room, size, out)) && mem == old(mem) && Fits(mem)
      ensures size == Size(mem) && out == mem[..Min(size, room)]
      ensures CallsOf(log.calls, me) == old(CallsOf(log.calls, me))
    {
      size := ReadLength(me, room);
      out := [];
      while |out| < Min(size, room)
        invariant Valid() && |stages| == old(|stages|) && m.pcs[me] == Mutex.Granted && mem == old(mem)
        invariant |out| <= Min(size, room) && stages[me] == Inside(Copy(room, size, out))
        invariant CallsOf(log.calls, me) == old(CallsOf(log.calls, me))
      {
        Interfere(me);
        out := CopyOne(me, room, size, out);
      }
      Interfere(me);
      CopyFacts(Snap(), me, room, size, out);
    }

    method ReadLength(me: nat, room: nat) returns (size: nat)
      requires Valid() && me < |stages| && stages[me] == Inside(Read(room)) && m.pcs[me] == Mutex.Granted
      modifies this
      ensures Valid() && |stages| == old(|stages|) && m.pcs[me] == Mutex.Granted
      ensures stages[me] == Inside(Copy(room, size, [])) && mem == old(mem)
      ensures CallsOf(log.calls, me) == old(CallsOf(log.calls, me))
    {
      Interfere(me);
      ReadSizeFacts(Snap(), me, room);
      ghost var t := Next(Snap(), ReadSize(me));
      size := Size(mem);
      stages := stages[me := Inside(Copy(room, size, []))];
      assert Snap() == t;
    }

    method CopyOne(me: nat, room: nat, size: nat, out: seq<byte>) returns (more: seq<byte>)
      requires Valid() && me < |stages| && m.pcs[me] == Mutex.Granted
      requires stages[me] == Inside(Copy(room, size, out)) && |out| < Min(size, room)
      modifies `stages
      ensures Valid() && stages == old(stages)[me := Inside(Copy(room, size, more))] && |more| == |out| + 1
    {
      CopyFacts(Snap(), me, room, size, out);
      ghost var t := Next(Snap(), CopyByte(me));
      more := out + [mem[|out|]];
      stages := stages[me := Inside(Copy(room, size, more))];
      assert Snap() == t;
    }

    /** Toggle the acknowledge bit: the slot is the device's again, also after a cut. */
    method SignalDone(me: nat, room: nat, size: nat, out: seq<byte>)
      requires Valid() && me < |stages| && m.pcs[me] == Mutex.Granted
      requires stages[me] == Inside(Copy(room, size, out)) && |out| == Min(size, room)
      modifies this
      ensures Valid() && |stages| == old(|stages|) && stages[me].Leaving? && m.pcs[me] == Mutex.Granted
      ensures line == HostToggle(old(line)) && FirmwareMay(line, false) && mem == old(mem)
      ensures CallsOf(log.calls, me) == old(CallsOf(log.calls, me)) + [Call(me, room, out, ResultOf(size, room))]
    {
      AcknowledgeFacts(Snap(), me, room, size, out);
      ghost var t := Next(Snap(), Acknowledge(me));
      line := HostToggle(line);
      stages := stages[me := Leaving];
      log := Return(log, me, room, out, ResultOf(size, room));
      assert Snap() == t;
    }

    /** OS_ReleaseMutex, step by step. */
    method ReleaseMutex(me: nat) returns (returned: bool)
      requires Valid() && me < |stages| && stages[me].Leaving?
      modifies this
      ensures Valid() && |stages| == old(|stages|) && CallsOf(log.calls, me) == old(CallsOf(log.calls, me))
      ensures returned ==> stages[me].Out?
      ensures !returned ==> stages[me].Leaving?
    {
      var steps: nat := *;
      while steps > 0
        invariant Valid() && |stages| == old(|stages|) && stages[me].Leaving?
        invariant CallsOf(log.calls, me) == old(CallsOf(log.calls, me))
        decreases steps
      {
        Interfere(me);
        var a := Lock(me, 0);
        if Enabled(Snap(), a) {
          StepKeeps(Snap(), a);
          Become(Next(Snap(), a));
          if stages[me].Out? {
            return true;
          }
        }
        steps := steps - 1;
      }
      returned := false;
    }
  }
}
