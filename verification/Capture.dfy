/**
One capture session: the firmware filling a ring of DMA buffers, the interrupt handler sampling the
handshake cell, the DSR thread draining the ring, the thread that stops the capture and the one
user-space reader the DSR hands every block to.

A step is one access to shared memory.  Steps of different actors interleave freely; in particular
the interrupt handler may run between any two steps of the DSR.
*/
module Capture {
  import opened Words
  import opened Handshake

  const OFF := 0

  /** Number of DMA buffers and size of each. */
  datatype Config = Config(count: nat, size: nat) {
    ghost predicate Valid() { 1 <= count <= 32 }
  }

  /** What the firmware puts into a buffer: the published size and the buffer content. */
  datatype Fill = Fill(size: nat, data: seq<byte>)

  /** What the host made of a filled buffer. */
  datatype Outcome = Rejected(size: nat) | Delivered(block: seq<byte>)

  /** Buffers hold `c.size` bytes, so a size the host accepts is a prefix of the content. */
  function OutcomeOf(c: Config, f: Fill): Outcome {
    if f.size > c.size then Rejected(f.size)
    else Delivered(if f.size <= |f.data| then f.data[..f.size] else f.data)
  }

  /** The two buffer-flag words, the published sizes and the buffers themselves. */
  datatype Ring = Ring(netx: Flags, host: Flags, used: seq<nat>, mem: seq<seq<byte>>)

  datatype FirmwarePc = FwIdle | FwFilled | FwFlipped | FwPublished
  datatype Firmware = Firmware(pc: FirmwarePc, next: nat, state: nat)

  /** One half of the ISR-to-DSR double buffer; `no` numbers the sample it holds. */
  datatype Slot = Slot(valid: bool, flags: Flags, no: nat)
  datatype Irq = Irq(idx: nat, slots: seq<Slot>, pending: bool, wake: bool)

  datatype DsrPc =
    | Sleep | ReadIndex | CheckValid | FlipIndex | ClearValid | Diff | Store | Signal
    | Begin | AckData | Snapshot | Loop | ReadSize | Reject | Announce | Count | AwaitRead | Free
    | StatusCheck | ReadState | AckStatus | StopEvent

  /** The DSR thread: its program counter, `ulNetxFlags`, `ulCurrentBuffer` and its locals. */
  datatype Dsr = Dsr(pc: DsrPc, held: nat, cached: Flags, changed: Flags, unequal: Flags,
                     used: Flags, cur: nat, size: nat, seen: nat)

  /** `cur_dma_buf`, the two counters and `data_read_sig`. */
  datatype Rendezvous = Rendezvous(data: Option<nat>, len: nat, valid: bool, events: nat, readCount: nat, sig: bool)

  datatype ReaderPc = RIdle | RStore | RCheck | RCopy | RClear | RSignal
  datatype Reader = Reader(pc: ReaderPc, event: nat, got: seq<byte>)

  datatype ApiPc = Capturing | StopGranted | StopArmed | StopSent | StopAcked | Closed
  /**
  Channels whose caller has passed its wait and not yet toggled; the stop thread; `hStopComplete`, and as
  history whether it was ever set, and whether it was set when the stop thread reset it.
  */
  datatype Api = Api(granted: Flags, pc: ApiPc, stopEvent: bool, completed: bool, lost: bool)

  /** History, read by no step. `left` counts the buffers of the running pass still to drain. */
  datatype Log = Log(filled: seq<Fill>, passed: seq<Outcome>, consumed: seq<Outcome>, copied: seq<seq<byte>>,
                     samples: seq<Flags>, taken: seq<nat>, left: int, eagain: bool)

  datatype State = State(netx: Flags, host: Flags, ring: Ring, fw: Firmware, irq: Irq, dsr: Dsr,
                         rv: Rendezvous, rd: Reader, api: Api, log: Log)

  // ---------------------------------------------------------------------------------------------
  // Firmware: environment assumptions
  // ---------------------------------------------------------------------------------------------

  datatype Action =
    | FwFill(size: nat, data: seq<byte>) | FwFlip | FwNotify | FwPublish(state: nat) | FwRaise
    | FwToggle(bit: nat)
    | Isr
    | DsrStep
    | Read
    | Grant(bit: nat) | Use(bit: nat) | ToggleFree(bit: nat)
    | StopBegin | StopReset | StopToggle | StopAck | StopClose

  function Wrap(i: nat, n: nat): nat { if i >= n then i - n else i }

  predicate FirmwareEnabled(c: Config, s: State, a: Action) {
    match a
    // fills a buffer only while both flag bits agree, and never after it has reported OFF
    case FwFill(_, data) =>
      s.fw.pc == FwIdle && s.fw.state != OFF && !Unequal(s.ring.netx, s.ring.host, s.fw.next)
      && |data| == c.size && s.fw.next < |s.ring.used| && s.fw.next < |s.ring.mem|
    case FwFlip => s.fw.pc == FwFilled && s.fw.next < |s.ring.used| && s.fw.next < |s.ring.mem|
    case FwNotify => s.fw.pc == FwFlipped
    // publishes a new capture state only once the previous one is acknowledged
    case FwPublish(_) => s.fw.pc == FwIdle && s.fw.state != OFF && !Unequal(s.netx, s.host, NEWSTATUS)
    case FwRaise => s.fw.pc == FwPublished
    // acknowledges commands and raises the mailbox indication only on its own turn
    case FwToggle(bit) => bit != NEWDATA && bit != NEWSTATUS && (IsGuarded(bit) ==> !HostTurn(s.netx, s.host, bit))
    case _ => false
  }

  function FirmwareNext(c: Config, s: State, a: Action): State
    requires FirmwareEnabled(c, s, a)
  {
    match a
    case FwFill(size, data) =>
      s.(ring := s.ring.(used := s.ring.used[s.fw.next := size], mem := s.ring.mem[s.fw.next := data]),
         fw := s.fw.(pc := FwFilled))
    case FwFlip =>
      s.(ring := s.ring.(netx := Toggle(s.ring.netx, s.fw.next)),
         fw := s.fw.(pc := FwFlipped, next := Wrap(s.fw.next + 1, c.count)),
         log := s.log.(filled := s.log.filled + [Fill(s.ring.used[s.fw.next], s.ring.mem[s.fw.next])]))
    case FwNotify =>
      var s' := s.(fw := s.fw.(pc := FwIdle));
      if Unequal(s.netx, s.host, NEWDATA) then s' else FirmwareFlag(s', NEWDATA)
    case FwPublish(state) => s.(fw := s.fw.(pc := FwPublished, state := state))
    case FwRaise => FirmwareFlag(s.(fw := s.fw.(pc := FwIdle)), NEWSTATUS)
    case FwToggle(bit) => FirmwareFlag(s, bit)
  }

  /** The netX half changes, which raises the interrupt. */
  function FirmwareFlag(s: State, bit: nat): State {
    s.(netx := Toggle(s.netx, bit), irq := s.irq.(pending := true))
  }

  // ---------------------------------------------------------------------------------------------
  // Interrupt handler and DSR thread
  // ---------------------------------------------------------------------------------------------

  function IsrNext(s: State): State
    requires s.irq.idx < |s.irq.slots|
  {
    s.(irq := Irq(s.irq.idx, s.irq.slots[s.irq.idx := Slot(true, s.netx, |s.log.samples|)], false, true),
       log := s.log.(samples := s.log.samples + [s.netx]))
  }

  /** The block the reader copied last. */
  function LastCopied(l: Log): seq<byte> { if l.copied == [] then [] else l.copied[|l.copied| - 1] }

  predicate InDsrHandler(pc: DsrPc) {
    pc == Sleep || pc == ReadIndex || pc == CheckValid || pc == FlipIndex || pc == ClearValid || pc == Diff
    || pc == Store || pc == Signal
  }

  predicate InStatus(pc: DsrPc) { pc == StatusCheck || pc == ReadState || pc == AckStatus || pc == StopEvent }

  predicate HandlerEnabled(s: State) {
    InDsrHandler(s.dsr.pc) && (s.dsr.pc == Sleep ==> s.irq.wake)
    && |s.irq.slots| == 2 && s.dsr.held < 2 && s.irq.idx < 2
  }

  /** Waking up and `netana_tkit_dsr_handler`. */
  function HandlerNext(s: State): State
    requires HandlerEnabled(s)
  {
    var d := s.dsr;
    match d.pc
    case Sleep => s.(irq := s.irq.(wake := false), dsr := d.(pc := ReadIndex))
    case ReadIndex => s.(dsr := d.(held := s.irq.idx, pc := CheckValid))
    case CheckValid => s.(dsr := d.(pc := if s.irq.slots[d.held].valid then FlipIndex else Sleep))
    case FlipIndex => s.(irq := s.irq.(idx := 1 - s.irq.idx), dsr := d.(pc := ClearValid))
    case ClearValid =>
      s.(irq := s.irq.(slots := s.irq.slots[d.held := s.irq.slots[d.held].(valid := false)]), dsr := d.(pc := Diff))
    case Diff => s.(dsr := d.(changed := Xor(d.cached, s.irq.slots[d.held].flags), pc := Store))
    case Store =>
      s.(dsr := d.(cached := s.irq.slots[d.held].flags, pc := Signal),
         log := s.log.(taken := s.log.taken + [s.irq.slots[d.held].no]))
    case Signal => s.(dsr := d.(pc := if NEWDATA in d.changed || NEWSTATUS in d.changed then Begin else Sleep))
  }

  predicate DrainEnabled(s: State) {
    !InDsrHandler(s.dsr.pc) && !InStatus(s.dsr.pc)
    && (s.dsr.pc == AwaitRead ==> s.rv.sig)
    && s.dsr.cur < |s.ring.used| && s.dsr.cur < |s.ring.mem|
    && (s.dsr.pc == Announce ==> s.dsr.size <= |s.ring.mem[s.dsr.cur]|)
  }

  /** The NEWDATA part of `netana_tkit_process`, with `netana_notify_data` as its data callback. */
  function DrainNext(c: Config, s: State): State
    requires DrainEnabled(s)
  {
    var d := s.dsr;
    match d.pc
    case Begin =>
      var unequal := Xor(d.cached, s.host);
      s.(dsr := d.(unequal := unequal, pc := if NEWDATA in unequal then AckData else StatusCheck))
    case AckData => s.(host := Toggle(s.host, NEWDATA), dsr := d.(pc := Snapshot))
    case Snapshot =>
      s.(dsr := d.(used := Xor(s.ring.host, s.ring.netx), pc := Loop),
         log := s.log.(left := |s.log.filled| - |s.log.consumed|))
    case Loop => s.(dsr := d.(pc := if d.cur in d.used then ReadSize else StatusCheck))
    case ReadSize =>
      var size := s.ring.used[d.cur];
      s.(dsr := d.(size := size, pc := if size > c.size then Reject else Announce))
    case Reject =>
      // the DSR cannot wait for its own thread: it signals the error only if the cached bit allows it now
      s.(host := if HostTurn(d.cached, s.host, DRV_ERROR) then Toggle(s.host, DRV_ERROR) else s.host,
         dsr := d.(pc := Free),
         log := s.log.(passed := s.log.passed + [Rejected(d.size)]))
    case Announce =>
      s.(rv := s.rv.(data := Some(d.cur), len := d.size, valid := true), dsr := d.(pc := Count),
         log := s.log.(passed := s.log.passed + [Delivered(s.ring.mem[d.cur][..d.size])]))
    case Count => s.(rv := s.rv.(events := (s.rv.events + 1) % WORD), dsr := d.(pc := AwaitRead))
    case AwaitRead => s.(rv := s.rv.(sig := false), dsr := d.(pc := Free))
    case Free =>
      s.(ring := s.ring.(host := Toggle(s.ring.host, d.cur)),
         dsr := d.(used := d.used - {d.cur}, cur := Wrap(d.cur + 1, c.count), pc := Loop),
         log := s.log.(left := s.log.left - 1,
                       consumed := s.log.consumed
                         + [if d.size > c.size then Rejected(d.size) else Delivered(LastCopied(s.log))]))
  }

  /** The NEWSTATUS part of `netana_tkit_process`. */
  function StatusNext(s: State): State
    requires InStatus(s.dsr.pc)
  {
    var d := s.dsr;
    match d.pc
    case StatusCheck => s.(dsr := d.(pc := if NEWSTATUS in d.unequal then ReadState else Sleep))
    case ReadState => s.(dsr := d.(seen := s.fw.state, pc := AckStatus))
    case AckStatus =>
      s.(host := Toggle(s.host, NEWSTATUS), dsr := d.(pc := if d.seen == OFF then StopEvent else Sleep))
    case StopEvent => s.(api := s.api.(stopEvent := true, completed := true), dsr := d.(pc := Sleep))
  }

  // ---------------------------------------------------------------------------------------------
  // User-space reader and API threads
  // ---------------------------------------------------------------------------------------------

  /** One reader with a buffer of at least the block length; it copies byte by byte. */
  function ReadNext(s: State): State {
    var r := s.rd;
    match r.pc
    case RIdle => s.(rd := r.(event := s.rv.events, pc := if s.rv.readCount == s.rv.events then RIdle else RStore))
    case RStore => s.(rv := s.rv.(readCount := r.event), rd := r.(pc := RCheck))
    case RCheck =>
      if s.rv.data == None || !s.rv.valid
      then s.(rd := r.(pc := RIdle), log := s.log.(eagain := true))
      else s.(rd := r.(pc := RCopy, got := []))
    case RCopy =>
      if |r.got| < s.rv.len && s.rv.data.Some? && s.rv.data.value < |s.ring.mem|
         && |r.got| < |s.ring.mem[s.rv.data.value]|
      then s.(rd := r.(got := r.got + [s.ring.mem[s.rv.data.value][|r.got|]]))
      else s.(rd := r.(pc := RClear), log := s.log.(copied := s.log.copied + [r.got]))
    case RClear => s.(rv := s.rv.(data := None), rd := r.(pc := RSignal))
    case RSignal => s.(rv := s.rv.(sig := true), rd := r.(pc := RIdle))
  }

  /** Channels driven by API callers; NEWDATA, NEWSTATUS and DRV_ERROR are the DSR's own. */
  predicate IsCallerBit(bit: nat) {
    IsGuarded(bit) && bit != NEWDATA && bit != NEWSTATUS && bit != DRV_ERROR && bit != STARTSTOP
  }

  predicate HostEnabled(s: State, a: Action) {
    match a
    // the caller's wait saw its state in the cached flags; one caller per channel
    case Grant(bit) => IsCallerBit(bit) && bit !in s.api.granted && HostTurn(s.dsr.cached, s.host, bit)
    case Use(bit) => IsCallerBit(bit) && bit in s.api.granted
    case ToggleFree(bit) => !IsGuarded(bit)
    case StopBegin =>
      s.api.pc == Capturing && s.fw.state != OFF && STARTSTOP !in s.api.granted && HostTurn(s.dsr.cached, s.host, STARTSTOP)
    case StopReset => s.api.pc == StopGranted
    case StopToggle => s.api.pc == StopArmed
    case StopAck => s.api.pc == StopSent && HostTurn(s.dsr.cached, s.host, STARTSTOP)
    case StopClose => s.api.pc == StopAcked && s.api.stopEvent
    case _ => false
  }

  function HostNext(s: State, a: Action): State
    requires HostEnabled(s, a)
  {
    var t := s.api;
    match a
    case Grant(bit) => s.(api := t.(granted := t.granted + {bit}))
    case Use(bit) => s.(host := Toggle(s.host, bit), api := t.(granted := t.granted - {bit}))
    case ToggleFree(bit) => s.(host := Toggle(s.host, bit))
    case StopBegin => s.(api := t.(granted := t.granted + {STARTSTOP}, pc := StopGranted))
    case StopReset => s.(api := t.(stopEvent := false, lost := t.lost || t.stopEvent, pc := StopArmed))
    case StopToggle => s.(host := Toggle(s.host, STARTSTOP), api := t.(granted := t.granted - {STARTSTOP}, pc := StopSent))
    case StopAck => s.(api := t.(pc := StopAcked))
    case StopClose => s.(api := t.(stopEvent := false, pc := Closed))
  }

  // ---------------------------------------------------------------------------------------------
  // Runs
  // ---------------------------------------------------------------------------------------------

  predicate Enabled(c: Config, s: State, a: Action) {
    match a
    case Isr => s.irq.idx < |s.irq.slots|
    case DsrStep => HandlerEnabled(s) || DrainEnabled(s) || InStatus(s.dsr.pc)
    case Read => true
    case _ => FirmwareEnabled(c, s, a) || HostEnabled(s, a)
  }

  function Next(c: Config, s: State, a: Action): State
    requires Enabled(c, s, a)
  {
    match a
    case Isr => IsrNext(s)
    case DsrStep =>
      if HandlerEnabled(s) then HandlerNext(s) else if DrainEnabled(s) then DrainNext(c, s) else StatusNext(s)
    case Read => ReadNext(s)
    case _ => if FirmwareEnabled(c, s, a) then FirmwareNext(c, s, a) else HostNext(s, a)
  }

  /** The state start_capture leaves behind: both flag words zero, cached flags up to date. */
  ghost predicate Init(c: Config, s: State) {
    && c.Valid()
    && !Unequal(s.netx, s.host, NEWDATA) && !Unequal(s.netx, s.host, NEWSTATUS)
    && s.ring.netx == {} && s.ring.host == {} && |s.ring.used| == c.count && |s.ring.mem| == c.count
    && (forall k | 0 <= k < c.count :: |s.ring.mem[k]| == c.size)
    && s.fw.pc == FwIdle && s.fw.next == 0 && s.fw.state != OFF
    && s.irq.idx == 0 && |s.irq.slots| == 2 && !s.irq.slots[0].valid && !s.irq.slots[1].valid
    && !s.irq.wake && !s.irq.pending
    && s.dsr.pc == Sleep && s.dsr.held == 0 && s.dsr.cached == s.netx && s.dsr.cur == 0
    && s.rv.data == None && s.rv.events == s.rv.readCount == 0 && !s.rv.sig
    && s.rd.pc == RIdle
    && s.api == Api({}, Capturing, false, false, false)
    && s.log == Log([], [], [], [], [s.netx], [0], 0, false)
  }

  ghost predicate Legal(c: Config, s: State, run: seq<Action>)
    decreases |run|
  {
    run == [] || (Enabled(c, s, run[0]) && Legal(c, Next(c, s, run[0]), run[1..]))
  }

  ghost function Final(c: Config, s: State, run: seq<Action>): State
    requires Legal(c, s, run)
    decreases |run|
  {
    if run == [] then s else Final(c, Next(c, s, run[0]), run[1..])
  }

  ghost predicate Reaches(c: Config, s: State, t: State) {
    exists run :: Legal(c, s, run) && Final(c, s, run) == t
  }

  ghost predicate Reachable(c: Config, t: State) {
    exists s :: Init(c, s) && Reaches(c, s, t)
  }
}
