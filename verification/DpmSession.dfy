/**
GPIO calls, opening and closing a device, and what holds over every series of calls.
*/
module DpmSession {
  import opened Words
  import opened DpmLayout
  import opened DpmConfig

  const MODE_RISING_EDGE := 1
  const MODE_FALLING_EDGE := 2
  const MODE_OUTPUT := 3
  const MODE_PWM := 4
  const MODE_SYNC := 5

  const VOLTAGE_24V := 0
  const VOLTAGE_3V := 1

  const MAX_GPIOS := 4

  /** The range the code accepts for both PWM periods. */
  const MIN_PERIOD := 10
  const MAX_PERIOD := 100_000_000

  // ---------------------------------------------------------------------------------------------
  // GPIO blocks
  // ---------------------------------------------------------------------------------------------

  /** The words of a GPIO block: mode, voltage and three words of data. */
  function Word(block: seq<byte>, w: nat): nat
    requires |block| == GPIO_SIZE && w < 5
  {
    FromBytes(block[4 * w..4 * w + 4])
  }

  function PutWord(block: seq<byte>, w: nat, x: nat): (r: seq<byte>)
    requires |block| == GPIO_SIZE && w < 5
    ensures |r| == GPIO_SIZE
  {
    Overlay(block, 4 * w, ToBytes(x, 4))
  }

  lemma WordPut(block: seq<byte>, w: nat, x: nat, u: nat)
    requires |block| == GPIO_SIZE && w < 5 && u < 5 && x < WORD
    ensures Word(PutWord(block, w, x), u) == if u == w then x else Word(block, u)
  {
    if u == w {
      assert PutWord(block, w, x)[4 * w..4 * w + 4] == ToBytes(x, 4);
      assert Power256(4) == WORD;
      BytesRoundTrip(x, 4);
    } else {
      OverlayElsewhere(block, 4 * w, ToBytes(x, 4), 4 * u, 4 * u + 4);
    }
  }

  /** NETANA_GPIO_MODE_T: the mode and the first two words of its data. */
  datatype GpioMode = GpioMode(mode: nat, a: nat, b: nat) {
    predicate Valid() { mode < WORD && a < WORD && b < WORD }
  }

  predicate IsPeriod(x: nat) { MIN_PERIOD <= x <= MAX_PERIOD }

  predicate IsPwm(block: seq<byte>)
    requires |block| == GPIO_SIZE
  {
    Word(block, 0) == MODE_PWM
  }

  predicate PwmElsewhere(z: Sizes, v: Blocks, i: nat)
    requires Shaped(z, v)
  {
    exists j: nat :: j < z.gpios && j != i && IsPwm(v[j])
  }

  function SetGpioModeResult(z: Sizes, v: Blocks, running: bool, i: nat, m: GpioMode): nat
    requires Shaped(z, v)
  {
    if running then CAPTURE_ACTIVE
    else if i >= z.gpios then INVALID_PARAMETER
    else if m.mode != MODE_PWM then NO_ERROR
    else if !IsPeriod(m.a) || !IsPeriod(m.b) then INVALID_PARAMETER
    else if PwmElsewhere(z, v, i) then FUNCTION_FAILED
    else NO_ERROR
  }

  /** The block of a GPIO after an accepted mode. */
  function WithMode(block: seq<byte>, m: GpioMode): (r: seq<byte>)
    requires |block| == GPIO_SIZE
    ensures |r| == GPIO_SIZE
  {
    var b := PutWord(block, 0, m.mode);
    if m.mode == MODE_RISING_EDGE || m.mode == MODE_FALLING_EDGE || m.mode == MODE_PWM then
      PutWord(PutWord(b, 2, m.a), 3, m.b)
    else if m.mode == MODE_OUTPUT then PutWord(b, 2, 0)
    else if m.mode == MODE_SYNC then PutWord(b, 2, m.a)
    else b
  }

  function SetGpioOutputResult(z: Sizes, v: Blocks, i: nat, level: nat): nat
    requires Shaped(z, v)
  {
    if i >= z.gpios || (level != 0 && level != 1) then INVALID_PARAMETER
    else if Word(v[i], 0) == MODE_OUTPUT then NO_ERROR
    else FUNCTION_FAILED
  }

  /**
  The GPIO capabilities in the system information block, and whether the device is of class NANL.
  Masks are the sets of their bit positions.
  */
  datatype Support = Support(nanl: bool, mask3V: set<nat>, mask24V: set<nat>)

  function SupportedMask(gpios: nat): set<nat> {
    if gpios == 0 then {} else SupportedMask(gpios - 1) + {gpios - 1}
  }

  /** A mask is at most the supported one, as a number, if it has no bit beyond. */
  function SetVoltageResult(z: Sizes, u: Support, mask: set<nat>, sel: nat): nat {
    if !(mask <= SupportedMask(z.gpios)) then INVALID_PARAMETER
    else if u.nanl && mask != {0, 1, 2, 3} then INVALID_PARAMETER
    else if sel == VOLTAGE_3V && mask <= u.mask3V then NO_ERROR
    else if sel == VOLTAGE_24V && mask <= u.mask24V then NO_ERROR
    else INVALID_PARAMETER
  }

  /** The first `n` GPIOs have their voltage. */
  function WithVoltages(z: Sizes, v: Blocks, mask: set<nat>, sel: nat, n: nat): (t: Blocks)
    requires Shaped(z, v) && n <= z.gpios <= MAX_GPIOS
    ensures Shaped(z, t) && |t| == |v|
  {
    if n == 0 then v else
      var t := WithVoltages(z, v, mask, sel, n - 1);
      if n - 1 in mask then GpioBlockShaped(z, t, n - 1, PutWord(t[n - 1], 1, sel)); t[n - 1 := PutWord(t[n - 1], 1, sel)]
      else t
  }

  lemma GpioBlockShaped(z: Sizes, v: Blocks, i: nat, block: seq<byte>)
    requires Shaped(z, v) && i < z.gpios && |block| == GPIO_SIZE
    ensures Shaped(z, v[i := block])
  {
    var t := v[i := block];
    forall p: nat | p < z.ports ensures PortShaped(z, t, p) {
      PortBlocks(z, v, p);
    }
  }

  // ---------------------------------------------------------------------------------------------
  // Opening
  // ---------------------------------------------------------------------------------------------

  /** The filter that opening sets: what the device had when it was added. */
  function BootFilter(z: Sizes, boot: Blocks, port: nat, k: nat): (f: Filter)
    requires PortShaped(z, boot, port) && k < 2
    ensures Usable(z, f)
  {
    Filter(z.filterSize, Some(boot[Mask(z, port, k)]), Some(boot[Value(z, port, k)]))
  }

  /** One turn of the loop over the ports: `netana_set_filter`, whose result is not looked at. */
  function RestorePort(z: Sizes, v: Blocks, boot: Blocks, running: bool, p: nat): (t: Blocks)
    requires Shaped(z, v) && Shaped(z, boot) && p < z.ports
    ensures Shaped(z, t)
  {
    PortBlocks(z, boot, p);
    var a, b := BootFilter(z, boot, p, 0), BootFilter(z, boot, p, 1);
    if SetFilterResult(z, running, p, a, b) == NO_ERROR then
      SetFilterShaped(z, v, p, a, b, 0);
      SetFilter(z, v, p, a, b, 0)
    else v
  }

  /** `n` turns of the loop. */
  function RestoreFilters(z: Sizes, v: Blocks, boot: Blocks, running: bool, n: nat): (t: Blocks)
    requires Shaped(z, v) && Shaped(z, boot) && n <= z.ports
    ensures Shaped(z, t)
  {
    if n == 0 then v else RestorePort(z, RestoreFilters(z, v, boot, running, n - 1), boot, running, n - 1)
  }

  /** The first `n` GPIO blocks have been copied back. */
  function WithBootGpios(z: Sizes, v: Blocks, boot: Blocks, n: nat): (t: Blocks)
    requires Shaped(z, v) && Shaped(z, boot) && n <= z.gpios
    ensures Shaped(z, t)
  {
    if n == 0 then v else
      var t := WithBootGpios(z, v, boot, n - 1);
      GpioBlockShaped(z, t, n - 1, boot[n - 1]);
      t[n - 1 := boot[n - 1]]
  }

  function Restored(z: Sizes, v: Blocks, boot: Blocks, running: bool): (t: Blocks)
    requires Shaped(z, v) && Shaped(z, boot)
    ensures Shaped(z, t)
  {
    WithBootGpios(z, RestoreFilters(z, v, boot, running, z.ports), boot, z.gpios)
  }

  lemma {:induction false} BootGpios(z: Sizes, v: Blocks, boot: Blocks, n: nat)
    requires Shaped(z, v) && Shaped(z, boot) && n <= z.gpios
    ensures var t := WithBootGpios(z, v, boot, n);
            forall i | 0 <= i < |v| :: t[i] == if i < n then boot[i] else v[i]
  {
    if n > 0 {
      BootGpios(z, v, boot, n - 1);
    }
  }

  /** The filter configuration of a port. */
  datatype PortFilters = PortFilters(relation: seq<byte>, maskA: seq<byte>, valueA: seq<byte>, maskB: seq<byte>, valueB: seq<byte>)

  function FiltersOf(z: Sizes, v: Blocks, p: nat): Option<PortFilters> {
    if !PortShaped(z, v, p) then None else
      Some(PortFilters(v[FilterBase(z, p)], v[Mask(z, p, 0)], v[Value(z, p, 0)], v[Mask(z, p, 1)], v[Value(z, p, 1)]))
  }

  /** The masks and values of the boot configuration, under relation 0. */
  predicate PortRestored(z: Sizes, t: Blocks, boot: Blocks, p: nat) {
    FiltersOf(z, boot, p).Some? && FiltersOf(z, t, p) == Some(FiltersOf(z, boot, p).value.(relation := ToBytes(0, 4)))
  }

  /** The first `n` ports have their boot filters, under relation 0. */
  predicate PortsRestored(z: Sizes, t: Blocks, boot: Blocks, n: nat) {
    forall p: nat | p < n :: PortRestored(z, t, boot, p)
  }

  lemma BootFilterContent(z: Sizes, boot: Blocks, p: nat, k: nat)
    requires PortShaped(z, boot, p) && k < 2
    ensures MaskOf(z, BootFilter(z, boot, p, k)) == boot[Mask(z, p, k)]
    ensures ValueOf(z, BootFilter(z, boot, p, k)) == boot[Value(z, p, k)]
  {
  }

  predicate SameOutside(v: Blocks, t: Blocks, lo: nat, hi: nat) {
    |v| == |t| && forall i | 0 <= i < |v| && !(lo <= i < hi) :: t[i] == v[i]
  }

  lemma PortIsRestored(z: Sizes, v: Blocks, boot: Blocks, p: nat)
    requires Shaped(z, v) && Shaped(z, boot) && p < z.ports
    ensures var t := RestorePort(z, v, boot, false, p);
            PortRestored(z, t, boot, p) && SameOutside(v, t, FilterBase(z, p), FilterBase(z, p + 1))
  {
    PortBlocks(z, v, p);
    PortBlocks(z, boot, p);
    BootFilterContent(z, boot, p, 0);
    BootFilterContent(z, boot, p, 1);
    FilterIsSet(z, v, p, BootFilter(z, boot, p, 0), BootFilter(z, boot, p, 1), 0);
  }

  /** What restoring puts into a filter block. */
  function BootBlock(z: Sizes, boot: Blocks, i: nat): seq<byte>
    requires z.gpios <= i < |boot|
  {
    if (i - z.gpios) % PER_PORT == 0 then ToBytes(0, 4) else boot[i]
  }

  /** The filter blocks of the first `n` ports are as restored, everything else as it was. */
  ghost predicate FiltersRestored(z: Sizes, v: Blocks, t: Blocks, boot: Blocks, n: nat) {
    && |t| == |v| == |boot|
    && forall i | 0 <= i < |v| :: t[i] == if z.gpios <= i < FilterBase(z, n) then BootBlock(z, boot, i) else v[i]
  }

  lemma OffsetInPort(z: Sizes, p: nat, k: nat)
    requires k < PER_PORT
    ensures (FilterBase(z, p) + k - z.gpios) % PER_PORT == k
  {
  }

  /** The blocks of a port. */
  lemma InPort(z: Sizes, p: nat, k: nat)
    requires k < PER_PORT
    ensures var i := FilterBase(z, p) + k;
            i == FilterBase(z, p) || i == Mask(z, p, 0) || i == Value(z, p, 0) || i == Mask(z, p, 1) || i == Value(z, p, 1)
    ensures FilterBase(z, p) + k == FilterBase(z, p) <==> k == 0
  {
  }

  /** Restoring port p is what is missing to the first p + 1 ports. */
  lemma NextRestored(z: Sizes, v: Blocks, t: Blocks, boot: Blocks, p: nat)
    requires Shaped(z, t) && Shaped(z, boot) && p < z.ports && FiltersRestored(z, v, t, boot, p)
    ensures FiltersRestored(z, v, RestorePort(z, t, boot, false, p), boot, p + 1)
  {
    PortIsRestored(z, t, boot, p);
    BlocksOfPort(z, v, t, RestorePort(z, t, boot, false, p), boot, p);
  }

  lemma BlocksOfPort(z: Sizes, v: Blocks, t: Blocks, r: Blocks, boot: Blocks, p: nat)
    requires PortRestored(z, r, boot, p) && SameOutside(t, r, FilterBase(z, p), FilterBase(z, p + 1))
    requires FiltersRestored(z, v, t, boot, p) && FilterBase(z, p + 1) <= |t|
    ensures FiltersRestored(z, v, r, boot, p + 1)
  {
    var base := FilterBase(z, p);
    forall i | 0 <= i < |v|
      ensures r[i] == if z.gpios <= i < FilterBase(z, p + 1) then BootBlock(z, boot, i) else v[i]
    {
      if base <= i < base + PER_PORT {
        BlockOfPort(z, r, boot, p, i - base);
      } else {
        assert r[i] == t[i];
      }
    }
  }

  lemma BlockOfPort(z: Sizes, r: Blocks, boot: Blocks, p: nat, k: nat)
    requires PortRestored(z, r, boot, p) && k < PER_PORT
    ensures FilterBase(z, p) + k < |r| && FilterBase(z, p) + k < |boot|
    ensures r[FilterBase(z, p) + k] == BootBlock(z, boot, FilterBase(z, p) + k)
  {
    OffsetInPort(z, p, k);
    InPort(z, p, k);
  }

  lemma {:induction false} FiltersAreRestored(z: Sizes, v: Blocks, boot: Blocks, n: nat) returns (t: Blocks)
    requires Shaped(z, v) && Shaped(z, boot) && n <= z.ports
    ensures Shaped(z, t) && FiltersRestored(z, v, t, boot, n) && t == RestoreFilters(z, v, boot, false, n)
  {
    if n == 0 {
      t := v;
      NoneRestored(z, v, boot);
    } else {
      var before := FiltersAreRestored(z, v, boot, n - 1);
      t := OneMoreRestored(z, v, before, boot, n - 1, n);
    }
  }

  lemma OneMoreRestored(z: Sizes, v: Blocks, t: Blocks, boot: Blocks, m: nat, n: nat) returns (u: Blocks)
    requires Shaped(z, v) && Shaped(z, t) && Shaped(z, boot) && n == m + 1 <= z.ports && FiltersRestored(z, v, t, boot, m)
    requires t == RestoreFilters(z, v, boot, false, m)
    ensures Shaped(z, u) && FiltersRestored(z, v, u, boot, n) && u == RestoreFilters(z, v, boot, false, n)
  {
    u := RestorePort(z, t, boot, false, m);
    NextRestored(z, v, t, boot, m);
    RestoreStep(z, v, t, boot, false, m);
  }

  lemma RestoreStep(z: Sizes, v: Blocks, t: Blocks, boot: Blocks, running: bool, m: nat)
    requires Shaped(z, v) && Shaped(z, boot) && m < z.ports && t == RestoreFilters(z, v, boot, running, m)
    ensures RestoreFilters(z, v, boot, running, m + 1) == RestorePort(z, t, boot, running, m)
  {
  }

  lemma NoneRestored(z: Sizes, v: Blocks, boot: Blocks)
    requires |v| == |boot|
    ensures FiltersRestored(z, v, v, boot, 0)
  {
  }

  lemma {:induction false} NoFilterWhileRunning(z: Sizes, v: Blocks, boot: Blocks, n: nat)
    requires Shaped(z, v) && Shaped(z, boot) && n <= z.ports
    ensures RestoreFilters(z, v, boot, true, n) == v
  {
    if n > 0 {
      NoFilterWhileRunning(z, v, boot, n - 1);
    }
  }

  /** After `n` turns of the loop. */
  ghost predicate Reset(z: Sizes, v: Blocks, t: Blocks, boot: Blocks, running: bool, n: nat) {
    if running then t == v else FiltersRestored(z, v, t, boot, n)
  }

  lemma NoneReset(z: Sizes, v: Blocks, boot: Blocks, running: bool)
    requires |v| == |boot|
    ensures Reset(z, v, v, boot, running, 0)
  {
    NoneRestored(z, v, boot);
  }

  lemma NextReset(z: Sizes, v: Blocks, t: Blocks, boot: Blocks, running: bool, p: nat)
    requires Shaped(z, t) && Shaped(z, boot) && p < z.ports && Reset(z, v, t, boot, running, p)
    ensures Reset(z, v, RestorePort(z, t, boot, running, p), boot, running, p + 1)
  {
    if !running {
      NextRestored(z, v, t, boot, p);
    }
  }

  lemma AllReset(z: Sizes, v: Blocks, t: Blocks, boot: Blocks, running: bool)
    requires Shaped(z, v) && Shaped(z, t) && Shaped(z, boot) && Reset(z, v, t, boot, running, z.ports)
    ensures t == RestoreFilters(z, v, boot, running, z.ports)
  {
    if running {
      NoFilterWhileRunning(z, v, boot, z.ports);
    } else {
      var u := FiltersAreRestored(z, v, boot, z.ports);
      assert t == u;
    }
  }

  /** Opening with capture off restores every filter, under relation 0, and every GPIO, and changes nothing else. */
  lemma OpenRestores(z: Sizes, v: Blocks, boot: Blocks)
    requires Shaped(z, v) && Shaped(z, boot)
    ensures var t := Restored(z, v, boot, false);
            && (forall i | 0 <= i < z.gpios :: t[i] == boot[i])
            && PortsRestored(z, t, boot, z.ports)
            && (forall i | FilterBase(z, z.ports) <= i < |v| :: t[i] == v[i])
  {
    var t := Restored(z, v, boot, false);
    var u := FiltersAreRestored(z, v, boot, z.ports);
    BootGpios(z, u, boot, z.gpios);
    forall p: nat | p < z.ports
      ensures PortRestored(z, t, boot, p)
    {
      PortHasBootBlocks(z, t, boot, p);
    }
  }

  lemma PortHasBootBlocks(z: Sizes, t: Blocks, boot: Blocks, p: nat)
    requires Shaped(z, t) && Shaped(z, boot) && p < z.ports
    requires forall i | z.gpios <= i < FilterBase(z, z.ports) :: t[i] == BootBlock(z, boot, i)
    ensures PortRestored(z, t, boot, p)
  {
    PortBlocks(z, t, p);
    PortBlocks(z, boot, p);
    OffsetInPort(z, p, 0);
    OffsetInPort(z, p, 1);
    OffsetInPort(z, p, 2);
    OffsetInPort(z, p, 3);
    OffsetInPort(z, p, 4);
  }

  /** While capture runs, opening restores the GPIOs all the same, and leaves every filter as it is. */
  lemma OpenWhileRunning(z: Sizes, v: Blocks, boot: Blocks)
    requires Shaped(z, v) && Shaped(z, boot)
    ensures var t := Restored(z, v, boot, true);
            forall i | 0 <= i < |v| :: t[i] == if i < z.gpios then boot[i] else v[i]
  {
    NoFilterWhileRunning(z, v, boot, z.ports);
    BootGpios(z, v, boot, z.gpios);
  }

  // ---------------------------------------------------------------------------------------------
  // Series of calls
  // ---------------------------------------------------------------------------------------------

  datatype Session = Session(v: Blocks, openCount: nat)

  datatype Call =
    | SetMode(running: bool, gpio: nat, mode: GpioMode)
    | SetOutput(gpio: nat, level: nat)
    | SetVoltage(support: Support, mask: set<nat>, sel: nat)
    | SetPortFilter(running: bool, port: nat, a: Filter, b: Filter, relation: nat)
    | Open(allowed: bool, running: bool)
    | Close

  predicate Sane(z: Sizes, c: Call) {
    && z.gpios <= MAX_GPIOS
    && (c.SetMode? ==> c.mode.Valid())
    && (c.SetPortFilter? ==> Honest(c.a) && Honest(c.b))
  }

  function OpenResult(s: Session, allowed: bool): nat {
    if !allowed then ACCESS_DENIED else if s.openCount > 0 then DEVICE_STILL_OPEN else NO_ERROR
  }

  /** A call that does not return NO_ERROR changes nothing. */
  function Do(z: Sizes, boot: Blocks, s: Session, c: Call): (t: Session)
    requires Shaped(z, s.v) && Shaped(z, boot) && Sane(z, c)
    ensures Shaped(z, t.v)
  {
    match c
    case SetMode(running, i, m) =>
      if SetGpioModeResult(z, s.v, running, i, m) != NO_ERROR then s else
        GpioBlockShaped(z, s.v, i, WithMode(s.v[i], m));
        s.(v := s.v[i := WithMode(s.v[i], m)])
    case SetOutput(i, level) =>
      if SetGpioOutputResult(z, s.v, i, level) != NO_ERROR then s else
        GpioBlockShaped(z, s.v, i, PutWord(s.v[i], 2, level));
        s.(v := s.v[i := PutWord(s.v[i], 2, level)])
    case SetVoltage(u, mask, sel) =>
      if SetVoltageResult(z, u, mask, sel) != NO_ERROR then s else s.(v := WithVoltages(z, s.v, mask, sel, z.gpios))
    case SetPortFilter(running, port, a, b, relation) =>
      if SetFilterResult(z, running, port, a, b) != NO_ERROR then s else
        SetFilterShaped(z, s.v, port, a, b, relation);
        s.(v := SetFilter(z, s.v, port, a, b, relation))
    case Open(allowed, running) =>
      if OpenResult(s, allowed) != NO_ERROR then s else Session(Restored(z, s.v, boot, running), s.openCount + 1)
    case Close => if s.openCount > 0 then s.(openCount := s.openCount - 1) else s
  }

  /** What a call to set the filters of a port does. */
  lemma DoSetPortFilter(z: Sizes, boot: Blocks, s: Session, running: bool, port: nat, a: Filter, b: Filter, relation: nat)
    requires Shaped(z, s.v) && Shaped(z, boot) && Sane(z, SetPortFilter(running, port, a, b, relation))
    ensures var t := Do(z, boot, s, SetPortFilter(running, port, a, b, relation));
            if SetFilterResult(z, running, port, a, b) == NO_ERROR
            then PortShaped(z, s.v, port) && Usable(z, a) && Usable(z, b) && t == s.(v := SetFilter(z, s.v, port, a, b, relation))
            else t == s
  {
  }

  // ---------------------------------------------------------------------------------------------
  // What is read back after each call
  // ---------------------------------------------------------------------------------------------

  /** Only block i differs. */
  predicate OnlyBlock(v: Blocks, t: Blocks, i: nat) {
    |t| == |v| && forall k | 0 <= k < |v| && k != i :: t[k] == v[k]
  }

  /** GPIO i has mode m; its other words are what they were, except for those the mode comes with. */
  predicate ModeSet(z: Sizes, v: Blocks, t: Blocks, i: nat, m: GpioMode)
    requires Shaped(z, v) && Shaped(z, t)
  {
    && i < z.gpios && OnlyBlock(v, t, i)
    && Word(t[i], 0) == m.mode && Word(t[i], 1) == Word(v[i], 1) && Word(t[i], 4) == Word(v[i], 4)
    && Word(t[i], 2) == (if m.mode == 1 || m.mode == 2 || m.mode == 4 || m.mode == 5 then m.a
                         else if m.mode == 3 then 0 else Word(v[i], 2))
    && Word(t[i], 3) == (if m.mode == 1 || m.mode == 2 || m.mode == 4 then m.b else Word(v[i], 3))
  }

  /** Output i has this level, and nothing else changed. */
  predicate LevelSet(z: Sizes, v: Blocks, t: Blocks, i: nat, level: nat)
    requires Shaped(z, v) && Shaped(z, t)
  {
    && i < z.gpios && OnlyBlock(v, t, i) && Word(t[i], 2) == level
    && forall w: nat | w < 5 && w != 2 :: Word(t[i], w) == Word(v[i], w)
  }

  /** The GPIOs of the mask, and no others, have this voltage, and nothing else changed. */
  predicate VoltagesSet(z: Sizes, v: Blocks, t: Blocks, mask: set<nat>, sel: nat)
    requires Shaped(z, v) && Shaped(z, t)
  {
    && (forall i | 0 <= i < z.gpios :: VoltageSet(v[i], t[i], i in mask, sel))
    && (forall i | z.gpios <= i < |v| :: t[i] == v[i])
  }

  predicate VoltageSet(before: seq<byte>, after: seq<byte>, selected: bool, sel: nat)
    requires |before| == |after| == GPIO_SIZE
  {
    && Word(after, 1) == (if selected then sel else Word(before, 1))
    && forall w: nat | w < 5 && w != 1 :: Word(after, w) == Word(before, w)
  }

  /** A GPIO mode is accepted exactly under these conditions, and is read back with its parameters. */
  lemma ModeReadsBack(z: Sizes, boot: Blocks, s: Session, running: bool, i: nat, m: GpioMode)
    requires Shaped(z, s.v) && Shaped(z, boot) && Sane(z, SetMode(running, i, m))
    ensures var ret := SetGpioModeResult(z, s.v, running, i, m);
            && (ret == 0 <==>
                  !running && i < z.gpios
                  && (m.mode == 4 ==> 10 <= m.a <= 100_000_000 && 10 <= m.b <= 100_000_000
                                      && forall j: nat | j < z.gpios && j != i :: Word(s.v[j], 0) != 4))
            && (ret == 0x8022_000b <==> running)
            && (ret == 0x8020_0004 ==> !running && exists j: nat | j < z.gpios && j != i :: Word(s.v[j], 0) == 4)
    ensures var t := Do(z, boot, s, SetMode(running, i, m));
            && t.openCount == s.openCount
            && if SetGpioModeResult(z, s.v, running, i, m) == 0 then ModeSet(z, s.v, t.v, i, m) else t == s
  {
    if SetGpioModeResult(z, s.v, running, i, m) == NO_ERROR {
      WordsOfMode(s.v[i], m);
    }
  }

  lemma WordsOfMode(block: seq<byte>, m: GpioMode)
    requires |block| == GPIO_SIZE && m.Valid()
    ensures var r := WithMode(block, m);
            && Word(r, 0) == m.mode && Word(r, 1) == Word(block, 1) && Word(r, 4) == Word(block, 4)
            && Word(r, 2) == (if m.mode == 1 || m.mode == 2 || m.mode == 4 || m.mode == 5 then m.a
                              else if m.mode == 3 then 0 else Word(block, 2))
            && Word(r, 3) == (if m.mode == 1 || m.mode == 2 || m.mode == 4 then m.b else Word(block, 3))
  {
    var b := PutWord(block, 0, m.mode);
    WordsPut(block, 0, m.mode);
    if m.mode == MODE_RISING_EDGE || m.mode == MODE_FALLING_EDGE || m.mode == MODE_PWM {
      WordsPut(b, 2, m.a);
      WordsPut(PutWord(b, 2, m.a), 3, m.b);
    } else if m.mode == MODE_OUTPUT {
      WordsPut(b, 2, 0);
    } else if m.mode == MODE_SYNC {
      WordsPut(b, 2, m.a);
    }
  }

  lemma WordsPut(block: seq<byte>, w: nat, x: nat)
    requires |block| == GPIO_SIZE && w < 5 && x < WORD
    ensures forall u: nat | u < 5 :: Word(PutWord(block, w, x), u) == if u == w then x else Word(block, u)
  {
    forall u: nat | u < 5 ensures Word(PutWord(block, w, x), u) == if u == w then x else Word(block, u) {
      WordPut(block, w, x, u);
    }
  }

  /** A level is accepted exactly for a GPIO in output mode, and is read back. */
  lemma LevelReadsBack(z: Sizes, boot: Blocks, s: Session, i: nat, level: nat)
    requires Shaped(z, s.v) && Shaped(z, boot) && Sane(z, SetOutput(i, level))
    ensures var ret := SetGpioOutputResult(z, s.v, i, level);
            && (ret == 0 <==> i < z.gpios && (level == 0 || level == 1) && Word(s.v[i], 0) == 3)
            && (ret == 0x8020_0001 <==> i >= z.gpios || level > 1)
    ensures var t := Do(z, boot, s, SetOutput(i, level));
            && t.openCount == s.openCount
            && if SetGpioOutputResult(z, s.v, i, level) == 0 then LevelSet(z, s.v, t.v, i, level) else t == s
  {
    if SetGpioOutputResult(z, s.v, i, level) == NO_ERROR {
      WordsPut(s.v[i], 2, level);
    }
  }

  lemma {:induction false} VoltageBlocks(z: Sizes, v: Blocks, mask: set<nat>, sel: nat, n: nat)
    requires Shaped(z, v) && n <= z.gpios <= MAX_GPIOS
    ensures var t := WithVoltages(z, v, mask, sel, n);
            forall i | 0 <= i < |v| :: t[i] == if i < n && i in mask then PutWord(v[i], 1, sel) else v[i]
  {
    if n > 0 {
      VoltageBlocks(z, v, mask, sel, n - 1);
    }
  }

  lemma VoltagesAreSet(z: Sizes, v: Blocks, mask: set<nat>, sel: nat)
    requires Shaped(z, v) && z.gpios <= MAX_GPIOS && sel < WORD
    ensures VoltagesSet(z, v, WithVoltages(z, v, mask, sel, z.gpios), mask, sel)
  {
    var t := WithVoltages(z, v, mask, sel, z.gpios);
    VoltageBlocks(z, v, mask, sel, z.gpios);
    forall i | 0 <= i < z.gpios
      ensures VoltageSet(v[i], t[i], i in mask, sel)
    {
      WordsPut(v[i], 1, sel);
    }
  }

  lemma {:induction false} SupportedIs(n: nat)
    ensures forall k: nat :: k in SupportedMask(n) <==> k < n
  {
    if n > 0 {
      SupportedIs(n - 1);
    }
  }

  /** A voltage is accepted exactly under these conditions, and is read back from the selected GPIOs alone. */
  lemma VoltageReadsBack(z: Sizes, boot: Blocks, s: Session, u: Support, mask: set<nat>, sel: nat)
    requires Shaped(z, s.v) && Shaped(z, boot) && Sane(z, SetVoltage(u, mask, sel))
    ensures SetVoltageResult(z, u, mask, sel) == 0 <==>
              && (forall k | k in mask :: k < z.gpios) && (u.nanl ==> mask == {0, 1, 2, 3})
              && ((sel == 1 && mask <= u.mask3V) || (sel == 0 && mask <= u.mask24V))
    ensures SetVoltageResult(z, u, mask, sel) != 0 ==> SetVoltageResult(z, u, mask, sel) == 0x8020_0001
    ensures var t := Do(z, boot, s, SetVoltage(u, mask, sel));
            && t.openCount == s.openCount
            && if SetVoltageResult(z, u, mask, sel) == 0 then VoltagesSet(z, s.v, t.v, mask, sel) else t == s
  {
    SupportedIs(z.gpios);
    if SetVoltageResult(z, u, mask, sel) == NO_ERROR {
      VoltagesAreSet(z, s.v, mask, sel);
    }
  }

  /** Filters are accepted exactly under these conditions. */
  lemma FilterAccepted(z: Sizes, running: bool, port: nat, a: Filter, b: Filter)
    ensures SetFilterResult(z, running, port, a, b) == 0 <==>
              && !running && port < z.ports
              && (a.Filter? && a.size > 0 ==> a.mask.Some? && a.value.Some? && a.size <= z.filterSize)
              && (b.Filter? && b.size > 0 ==> b.mask.Some? && b.value.Some? && b.size <= z.filterSize)
    ensures SetFilterResult(z, running, port, a, b) == 0x8022_000b <==> running
    ensures SetFilterResult(z, running, port, a, b) == 0x8020_0002 ==> port >= z.ports
  {
  }

  /** A device is opened exactly if it is allowed and not open, and can be opened again once it is closed. */
  lemma OpenAndClose(z: Sizes, boot: Blocks, s: Session, allowed: bool, running: bool)
    requires Shaped(z, s.v) && Shaped(z, boot) && Sane(z, Open(allowed, running))
    ensures OpenResult(s, allowed) == (if !allowed then 0x8020_000b else if s.openCount > 0 then 0x8022_0004 else 0)
    ensures var t := Do(z, boot, s, Open(allowed, running));
            && (OpenResult(s, allowed) != 0 ==> t == s)
            && (OpenResult(s, allowed) == 0 ==> OpenResult(t, true) == 0x8022_0004 && OpenResult(Do(z, boot, t, Close), true) == 0)
            && Do(z, boot, t, Close).v == t.v
  {
  }

  function DoAll(z: Sizes, boot: Blocks, s: Session, calls: seq<Call>): (t: Session)
    requires Shaped(z, s.v) && Shaped(z, boot) && forall c | c in calls :: Sane(z, c)
    ensures Shaped(z, t.v)
  {
    if calls == [] then s else Do(z, boot, DoAll(z, boot, s, calls[..|calls| - 1]), calls[|calls| - 1])
  }

  /** At most one GPIO generates a PWM signal, and its periods are in range. */
  predicate PwmOk(z: Sizes, v: Blocks)
    requires Shaped(z, v)
  {
    && (forall i, j | 0 <= i < z.gpios && 0 <= j < z.gpios && IsPwm(v[i]) && IsPwm(v[j]) :: i == j)
    && (forall i | 0 <= i < z.gpios && IsPwm(v[i]) :: IsPeriod(Word(v[i], 2)) && IsPeriod(Word(v[i], 3)))
  }

  /** The GPIOs agree in mode and periods. */
  predicate SameSignals(z: Sizes, v: Blocks, t: Blocks)
    requires Shaped(z, v) && Shaped(z, t)
  {
    forall i | 0 <= i < z.gpios ::
      Word(t[i], 0) == Word(v[i], 0) && (IsPwm(v[i]) ==> Word(t[i], 2) == Word(v[i], 2) && Word(t[i], 3) == Word(v[i], 3))
  }

  lemma SameSignalsKeepPwm(z: Sizes, v: Blocks, t: Blocks)
    requires Shaped(z, v) && Shaped(z, t) && SameSignals(z, v, t) && PwmOk(z, v)
    ensures PwmOk(z, t)
  {
    assert forall i | 0 <= i < z.gpios :: IsPwm(t[i]) == IsPwm(v[i]);
  }

  lemma ModeKeepsPwm(z: Sizes, v: Blocks, i: nat, m: GpioMode)
    requires Shaped(z, v) && PwmOk(z, v) && m.Valid() && SetGpioModeResult(z, v, false, i, m) == NO_ERROR
    ensures Shaped(z, v[i := WithMode(v[i], m)]) && PwmOk(z, v[i := WithMode(v[i], m)])
  {
    WordsOfMode(v[i], m);
    GpioBlockShaped(z, v, i, WithMode(v[i], m));
    var t := v[i := WithMode(v[i], m)];
    forall j, k | 0 <= j < z.gpios && 0 <= k < z.gpios && IsPwm(t[j]) && IsPwm(t[k])
      ensures j == k
    {
      if j != i { assert IsPwm(v[j]); }
      if k != i { assert IsPwm(v[k]); }
    }
  }

  lemma OutputKeepsPwm(z: Sizes, v: Blocks, i: nat, level: nat)
    requires Shaped(z, v) && PwmOk(z, v) && SetGpioOutputResult(z, v, i, level) == NO_ERROR
    ensures Shaped(z, v[i := PutWord(v[i], 2, level)]) && PwmOk(z, v[i := PutWord(v[i], 2, level)])
  {
    var t := v[i := PutWord(v[i], 2, level)];
    GpioBlockShaped(z, v, i, PutWord(v[i], 2, level));
    WordPut(v[i], 2, level, 0);
    assert SameSignals(z, v, t);
    SameSignalsKeepPwm(z, v, t);
  }

  lemma {:induction false} VoltagesKeepSignals(z: Sizes, v: Blocks, mask: set<nat>, sel: nat, n: nat)
    requires Shaped(z, v) && n <= z.gpios <= MAX_GPIOS && sel < WORD
    ensures SameSignals(z, v, WithVoltages(z, v, mask, sel, n))
  {
    if n > 0 {
      VoltagesKeepSignals(z, v, mask, sel, n - 1);
      var t := WithVoltages(z, v, mask, sel, n - 1);
      WordPut(t[n - 1], 1, sel, 0);
      WordPut(t[n - 1], 1, sel, 2);
      WordPut(t[n - 1], 1, sel, 3);
    }
  }

  /** Nothing but the GPIO calls touches a GPIO block. */
  lemma FilterKeepsGpios(z: Sizes, v: Blocks, port: nat, a: Filter, b: Filter, relation: nat)
    requires Shaped(z, v) && port < z.ports && Usable(z, a) && Usable(z, b)
    ensures PortShaped(z, v, port)
    ensures forall i | 0 <= i < z.gpios :: SetFilter(z, v, port, a, b, relation)[i] == v[i]
  {
    PortBlocks(z, v, port);
    FilterIsSet(z, v, port, a, b, relation);
  }

  lemma DoKeepsPwm(z: Sizes, boot: Blocks, s: Session, c: Call)
    requires Shaped(z, s.v) && Shaped(z, boot) && Sane(z, c) && PwmOk(z, s.v) && PwmOk(z, boot)
    ensures PwmOk(z, Do(z, boot, s, c).v)
  {
    var t := Do(z, boot, s, c);
    match c
    case SetMode(running, i, m) =>
      if SetGpioModeResult(z, s.v, running, i, m) == NO_ERROR { ModeKeepsPwm(z, s.v, i, m); }
    case SetOutput(i, level) =>
      if SetGpioOutputResult(z, s.v, i, level) == NO_ERROR { OutputKeepsPwm(z, s.v, i, level); }
    case SetVoltage(u, mask, sel) =>
      if SetVoltageResult(z, u, mask, sel) == NO_ERROR {
        VoltagesKeepSignals(z, s.v, mask, sel, z.gpios);
        SameSignalsKeepPwm(z, s.v, t.v);
      }
    case SetPortFilter(running, port, a, b, relation) =>
      if SetFilterResult(z, running, port, a, b) == NO_ERROR {
        FilterKeepsGpios(z, s.v, port, a, b, relation);
        SameSignalsKeepPwm(z, s.v, t.v);
      }
    case Open(allowed, running) =>
      if OpenResult(s, allowed) == NO_ERROR {
        if running { OpenWhileRunning(z, s.v, boot); } else { OpenRestores(z, s.v, boot); }
        SameSignalsKeepPwm(z, boot, t.v);
      }
    case Close =>
  }

  /** Over every series of calls at most one GPIO is in PWM mode, with both periods in 10..100000000. */
  lemma {:induction false} PwmInvariant(z: Sizes, boot: Blocks, calls: seq<Call>)
    requires Shaped(z, boot) && PwmOk(z, boot) && forall c | c in calls :: Sane(z, c)
    ensures PwmOk(z, DoAll(z, boot, Session(boot, 0), calls).v)
  {
    if calls != [] {
      PwmInvariant(z, boot, calls[..|calls| - 1]);
      DoKeepsPwm(z, boot, DoAll(z, boot, Session(boot, 0), calls[..|calls| - 1]), calls[|calls| - 1]);
    }
  }

  lemma {:induction false} OpenedOnce(z: Sizes, boot: Blocks, calls: seq<Call>)
    requires Shaped(z, boot) && forall c | c in calls :: Sane(z, c)
    ensures DoAll(z, boot, Session(boot, 0), calls).openCount <= 1
  {
    if calls != [] {
      OpenedOnce(z, boot, calls[..|calls| - 1]);
    }
  }

  /** Whatever earlier sessions did, one that opens with capture off starts from the boot configuration. */
  lemma EverySessionStartsFresh(z: Sizes, boot: Blocks, calls: seq<Call>)
    requires Shaped(z, boot) && z.gpios <= MAX_GPIOS && (forall c | c in calls :: Sane(z, c))
    ensures var before := DoAll(z, boot, Session(boot, 0), calls);
            var s := Do(z, boot, before, Open(true, false));
            && before.openCount <= 1
            && (before.openCount == 0 ==>
                  && s.openCount == 1
                  && (forall i | 0 <= i < z.gpios :: s.v[i] == boot[i])
                  && PortsRestored(z, s.v, boot, z.ports))
            && (before.openCount == 1 ==> s == before)
  {
    OpenedOnce(z, boot, calls);
    OpenRestores(z, DoAll(z, boot, Session(boot, 0), calls).v, boot);
  }
}
