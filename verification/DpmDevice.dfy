/**
The device instance over the dual-ported memory itself: the calls that set filters and GPIOs, and
opening and closing, write bytes in place.
*/
module DpmDevice {
  import opened Words
  import opened DpmLayout
  import opened DpmConfig
  import opened DpmSession

  lemma PlacedIsShaped(z: Sizes, regions: seq<Region>, mem: seq<byte>)
    requires Placed(z, regions) && Fits(regions, |mem|)
    ensures Shaped(z, View(mem, regions))
  {
    var v := View(mem, regions);
    forall p: nat | p < z.ports ensures PortShaped(z, v, p) {
      assert PortPlaced(z, regions, p);
    }
  }

  /** One more byte of the data. */
  lemma OverlayMore(s: seq<byte>, at: nat, data: seq<byte>, k: nat)
    requires at + |data| <= |s| && k < |data|
    ensures Overlay(s, at, data[..k + 1]) == Overlay(s, at, data[..k])[at + k := data[k]]
  {
    assert data[..k + 1] == data[..k] + [data[k]];
  }

  class Device {
    const mem: array<byte>
    const z: Sizes
    const regions: seq<Region>
    /** `atDefaultFilter` and `atDefaultGPIOs`: the block contents when the device was added. */
    var boot: Blocks
    var openCount: nat

    predicate Valid()
      reads this
    {
      Placed(z, regions) && Fits(regions, mem.Length) && Shaped(z, boot) && z.gpios <= MAX_GPIOS
    }

    function Current(): (v: Blocks)
      requires Valid()
      reads this, mem
      ensures Shaped(z, v)
    {
      PlacedIsShaped(z, regions, mem[..]);
      View(mem[..], regions)
    }

    function State(): Session
      requires Valid()
      reads this, mem
    {
      Session(Current(), openCount)
    }

    /** Everything before and behind the blocks. */
    function Outside(): (seq<byte>, seq<byte>)
      requires Valid()
      reads this, mem
    {
      FitsIff(regions, mem.Length);
      (mem[..BASE_SIZE], mem[End(regions)..])
    }

    constructor (dpm: array<byte>, sizes: Sizes, layout: seq<Region>)
      requires Placed(sizes, layout) && Fits(layout, dpm.Length) && sizes.gpios <= MAX_GPIOS
      ensures Valid() && mem == dpm && z == sizes && regions == layout && openCount == 0
      ensures boot == Current()
    {
      mem, z, regions, openCount := dpm, sizes, layout, 0;
      PlacedIsShaped(sizes, layout, dpm[..]);
      boot := View(dpm[..], layout);
    }

    /** Write into one block. */
    method Write(i: nat, at: nat, data: seq<byte>)
      requires Valid() && i < |regions| && at + |data| <= regions[i].len
      modifies mem
      ensures Valid() && Outside() == old(Outside())
      ensures Current() == old(Current())[i := Overlay(old(Current())[i], at, data)]
    {
      WriteStaysInBlock(mem[..], regions, i, at, data);
      Memcpy(regions[i].start + at, data);
    }

    /** OS_Memcpy into the memory, byte by byte. */
    method Memcpy(start: nat, data: seq<byte>)
      requires start + |data| <= mem.Length
      modifies mem
      ensures mem[..] == Overlay(old(mem[..]), start, data)
    {
      var k := 0;
      while k < |data|
        invariant k <= |data|
        invariant mem[..] == Overlay(old(mem[..]), start, data[..k])
      {
        OverlayMore(old(mem[..]), start, data, k);
        mem[start + k] := data[k];
        k := k + 1;
      }
      assert data[..k] == data;
    }

    /** OS_Memset of a whole block. */
    method Clear(i: nat)
      requires Valid() && i < |regions|
      modifies mem
      ensures Valid() && Outside() == old(Outside())
      ensures Current() == old(Current())[i := Zeros(regions[i].len)]
    {
      Write(i, 0, Zeros(regions[i].len));
      assert Overlay(old(Current())[i], 0, Zeros(regions[i].len)) == Zeros(regions[i].len);
    }

    method CheckFilter(f: Filter) returns (ret: nat)
      ensures ret == Check(f, z.filterSize)
    {
      if f.Filter? && f.size > 0 {
        if f.mask.None? || f.value.None? {
          return INVALID_PARAMETER;
        }
        if f.size > z.filterSize {
          return INVALID_BUFFERSIZE;
        }
      }
      ret := NO_ERROR;
    }

    method ClearPort(port: nat, relation: nat)
      requires Valid() && port < z.ports
      modifies mem
      ensures Valid() && Outside() == old(Outside())
      ensures PortShaped(z, old(Current()), port) && Current() == ClearFilters(z, old(Current()), port, relation)
    {
      PortBlocks(z, Current(), port);
      WriteRelation(port, relation);
      ClearFilter(port, 0);
      ClearFilter(port, 1);
    }

    method WriteRelation(port: nat, relation: nat)
      requires Valid() && port < z.ports
      modifies mem
      ensures Valid() && Outside() == old(Outside()) && FilterBase(z, port) < |regions|
      ensures Current() == old(Current())[FilterBase(z, port) := ToBytes(relation, 4)]
    {
      assert PortPlaced(z, regions, port);
      Write(FilterBase(z, port), 0, ToBytes(relation, 4));
      assert Overlay(old(Current())[FilterBase(z, port)], 0, ToBytes(relation, 4)) == ToBytes(relation, 4);
    }

    method ClearFilter(port: nat, k: nat)
      requires Valid() && port < z.ports && k < 2
      modifies mem
      ensures Valid() && Outside() == old(Outside()) && Value(z, port, k) < |regions|
      ensures Current() == old(Current())[Mask(z, port, k) := Zeros(z.filterSize)][Value(z, port, k) := Zeros(z.filterSize)]
    {
      assert PortPlaced(z, regions, port);
      Clear(Mask(z, port, k));
      Clear(Value(z, port, k));
    }

    method Copy(port: nat, k: nat, f: Filter)
      requires Valid() && port < z.ports && k < 2 && Usable(z, f)
      modifies mem
      ensures Valid() && Outside() == old(Outside())
      ensures PortShaped(z, old(Current()), port) && Current() == CopyFilter(z, old(Current()), port, k, f)
    {
      PortBlocks(z, Current(), port);
      assert PortPlaced(z, regions, port);
      if f.Filter? && f.size > 0 {
        Write(Mask(z, port, k), 0, f.mask.value[..f.size]);
        Write(Value(z, port, k), 0, f.value.value[..f.size]);
      }
    }

    method WriteFilters(port: nat, a: Filter, b: Filter, relation: nat)
      requires Valid() && port < z.ports && Usable(z, a) && Usable(z, b)
      modifies mem
      ensures Valid() && Outside() == old(Outside()) && PortShaped(z, old(Current()), port)
      ensures Current() == DpmConfig.SetFilter(z, old(Current()), port, a, b, relation)
    {
      PortBlocks(z, Current(), port);
      ClearPort(port, relation);
      Copy(port, 0, a);
      Copy(port, 1, b);
    }

    /** `netana_set_filter`. */
    method SetFilter(running: bool, port: nat, a: Filter, b: Filter, relation: nat) returns (ret: nat)
      requires Valid() && Honest(a) && Honest(b)
      modifies mem
      ensures Valid() && Outside() == old(Outside())
      ensures ret == SetFilterResult(z, running, port, a, b)
      ensures State() == Do(z, boot, old(State()), SetPortFilter(running, port, a, b, relation))
      ensures ret != NO_ERROR ==> mem[..] == old(mem[..])
    {
      DoSetPortFilter(z, boot, State(), running, port, a, b, relation);
      ret := CheckFilters(running, a, b);
      if ret != NO_ERROR {
        return;
      }
      if port < z.ports {
        WriteFilters(port, a, b, relation);
      } else {
        ret := INVALID_PORT;
      }
    }

    method CheckFilters(running: bool, a: Filter, b: Filter) returns (ret: nat)
      ensures ret == if running then CAPTURE_ACTIVE
                     else if Check(a, z.filterSize) != NO_ERROR then Check(a, z.filterSize) else Check(b, z.filterSize)
    {
      if running {
        return CAPTURE_ACTIVE;
      }
      ret := CheckFilter(a);
      if ret != NO_ERROR {
        return;
      }
      ret := CheckFilter(b);
    }

    method WriteWord(i: nat, w: nat, x: nat)
      requires Valid() && i < z.gpios && w < 5
      modifies mem
      ensures Valid() && Outside() == old(Outside())
      ensures Current() == old(Current())[i := PutWord(old(Current())[i], w, x)]
    {
      Write(i, 4 * w, ToBytes(x, 4));
    }

    method ReadWord(i: nat, w: nat) returns (x: nat)
      requires Valid() && i < z.gpios && w < 5
      ensures x == Word(Current()[i], w)
    {
      var block := mem[regions[i].start..regions[i].start + regions[i].len];
      assert block == Current()[i];
      x := Word(block, w);
    }

    /** `netana_set_gpio_mode`. */
    method SetGpioMode(running: bool, i: nat, m: GpioMode) returns (ret: nat)
      requires Valid() && m.Valid()
      modifies mem
      ensures Valid() && Outside() == old(Outside())
      ensures ret == SetGpioModeResult(z, old(Current()), running, i, m)
      ensures State() == Do(z, boot, old(State()), SetMode(running, i, m))
      ensures ret == NO_ERROR ==> ModeSet(z, old(Current()), Current(), i, m)
    {
      ModeReadsBack(z, boot, State(), running, i, m);
      if running {
        return CAPTURE_ACTIVE;
      }
      if i >= z.gpios {
        return INVALID_PARAMETER;
      }
      if m.mode == MODE_PWM {
        if !(m.a <= MAX_PERIOD && m.a >= MIN_PERIOD && m.b <= MAX_PERIOD && m.b >= MIN_PERIOD) {
          return INVALID_PARAMETER;
        }
        var active := FindPwm(i);
        if active {
          return FUNCTION_FAILED;
        }
      }
      WriteMode(i, m);
      ret := NO_ERROR;
    }

    /** The switch over the modes. */
    method WriteMode(i: nat, m: GpioMode)
      requires Valid() && i < z.gpios
      modifies mem
      ensures Valid() && Outside() == old(Outside())
      ensures Current() == old(Current())[i := WithMode(old(Current())[i], m)]
    {
      WriteWord(i, 0, m.mode);
      if m.mode == MODE_RISING_EDGE || m.mode == MODE_FALLING_EDGE || m.mode == MODE_PWM {
        WriteWord(i, 2, m.a);
        WriteWord(i, 3, m.b);
      } else if m.mode == MODE_OUTPUT {
        WriteWord(i, 2, 0);
      } else if m.mode == MODE_SYNC {
        WriteWord(i, 2, m.a);
      }
    }

    /** Is a GPIO other than i in PWM mode? */
    method FindPwm(i: nat) returns (active: bool)
      requires Valid()
      ensures active == PwmElsewhere(z, Current(), i)
    {
      active := false;
      var j: nat := 0;
      while j < z.gpios
        invariant j <= z.gpios && !active
        invariant forall k: nat | k < j && k != i :: !IsPwm(Current()[k])
      {
        var mode := ReadWord(j, 0);
        if mode == MODE_PWM && i != j {
          assert IsPwm(Current()[j]);
          active := true;
          break;
        }
        j := j + 1;
      }
    }

    /** `netana_set_gpio_output`. */
    method SetGpioOutput(i: nat, level: nat) returns (ret: nat)
      requires Valid()
      modifies mem
      ensures Valid() && Outside() == old(Outside())
      ensures ret == SetGpioOutputResult(z, old(Current()), i, level)
      ensures State() == Do(z, boot, old(State()), SetOutput(i, level))
      ensures ret == NO_ERROR ==> LevelSet(z, old(Current()), Current(), i, level)
    {
      LevelReadsBack(z, boot, State(), i, level);
      if i >= z.gpios || (level != 0 && level != 1) {
        return INVALID_PARAMETER;
      }
      var mode := ReadWord(i, 0);
      if mode == MODE_OUTPUT {
        WriteWord(i, 2, level);
        ret := NO_ERROR;
      } else {
        ret := FUNCTION_FAILED;
      }
    }

    /** `netana_set_gpio_voltage`. */
    method SetGpioVoltage(u: Support, mask: set<nat>, sel: nat) returns (ret: nat)
      requires Valid()
      modifies mem
      ensures Valid() && Outside() == old(Outside())
      ensures ret == SetVoltageResult(z, u, mask, sel)
      ensures State() == Do(z, boot, old(State()), SetVoltage(u, mask, sel))
      ensures ret == NO_ERROR ==> VoltagesSet(z, old(Current()), Current(), mask, sel)
    {
      VoltageReadsBack(z, boot, State(), u, mask, sel);
      ret := CheckVoltage(u, mask, sel);
      if ret == NO_ERROR {
        WriteVoltages(mask, sel);
      }
    }

    method WriteVoltages(mask: set<nat>, sel: nat)
      requires Valid()
      modifies mem
      ensures Valid() && Outside() == old(Outside())
      ensures Current() == WithVoltages(z, old(Current()), mask, sel, z.gpios)
    {
      var gpio: nat := 0;
      while gpio < z.gpios
        invariant gpio <= z.gpios && Valid() && Outside() == old(Outside())
        invariant Current() == WithVoltages(z, old(Current()), mask, sel, gpio)
      {
        if gpio in mask {
          WriteWord(gpio, 1, sel);
        }
        gpio := gpio + 1;
      }
    }

    method CheckVoltage(u: Support, mask: set<nat>, sel: nat) returns (ret: nat)
      requires z.gpios <= MAX_GPIOS
      ensures ret == SetVoltageResult(z, u, mask, sel)
    {
      var supported: set<nat> := {};
      var gpio: nat := 0;
      while gpio < z.gpios
        invariant gpio <= z.gpios && supported == SupportedMask(gpio)
      {
        supported := supported + {gpio};
        gpio := gpio + 1;
      }
      if !(mask <= supported) {
        return INVALID_PARAMETER;
      }
      if u.nanl && mask != {0, 1, 2, 3} {
        return INVALID_PARAMETER;
      }
      ret := INVALID_PARAMETER;
      if sel == VOLTAGE_3V {
        if mask <= u.mask3V {
          ret := NO_ERROR;
        }
      } else if sel == VOLTAGE_24V {
        if mask <= u.mask24V {
          ret := NO_ERROR;
        }
      }
    }

    /** `netana_open_device` on the device found; `allowed` is what the device class filter says. */
    method OpenDevice(allowed: bool, running: bool) returns (ret: nat)
      requires Valid()
      modifies mem, `openCount
      ensures Valid() && Outside() == old(Outside())
      ensures ret == OpenResult(old(State()), allowed)
      ensures State() == Do(z, boot, old(State()), Open(allowed, running))
    {
      if !allowed {
        return ACCESS_DENIED;
      }
      if openCount > 0 {
        return DEVICE_STILL_OPEN;
      }
      openCount := openCount + 1;
      ResetFilters(running);
      ResetGpios();
      ret := NO_ERROR;
    }

    method ResetFilters(running: bool)
      requires Valid()
      modifies mem
      ensures Valid() && Outside() == old(Outside())
      ensures Current() == RestoreFilters(z, old(Current()), boot, running, z.ports)
    {
      ghost var v := Current();
      var no: nat := 0;
      NoneReset(z, v, boot, running);
      while no < z.ports
        invariant no <= z.ports && Valid() && Outside() == old(Outside())
        invariant Reset(z, v, Current(), boot, running, no)
      {
        NextReset(z, v, Current(), boot, running, no);
        ResetPort(no, running);
        no := no + 1;
      }
      AllReset(z, v, Current(), boot, running);
    }

    method ResetPort(no: nat, running: bool)
      requires Valid() && no < z.ports
      modifies mem
      ensures Valid() && Outside() == old(Outside())
      ensures Current() == RestorePort(z, old(Current()), boot, running, no)
    {
      PortBlocks(z, boot, no);
      var ret := SetFilter(running, no, BootFilter(z, boot, no, 0), BootFilter(z, boot, no, 1), 0);
    }

    method ResetGpios()
      requires Valid()
      modifies mem
      ensures Valid() && Outside() == old(Outside())
      ensures Current() == WithBootGpios(z, old(Current()), boot, z.gpios)
    {
      var no: nat := 0;
      while no < z.gpios
        invariant no <= z.gpios && Valid() && Outside() == old(Outside())
        invariant Current() == WithBootGpios(z, old(Current()), boot, no)
      {
        Write(no, 0, boot[no]);
        assert Overlay(WithBootGpios(z, old(Current()), boot, no)[no], 0, boot[no]) == boot[no];
        no := no + 1;
      }
    }

    /** `netana_close_device`. */
    method CloseDevice() returns (ret: nat)
      requires Valid()
      modifies `openCount
      ensures Valid() && mem[..] == old(mem[..]) && State() == Do(z, boot, old(State()), Close)
      ensures ret == if old(openCount) > 0 then NO_ERROR else DEVICE_NOT_OPEN
    {
      ret := DEVICE_NOT_OPEN;
      if openCount > 0 {
        openCount := openCount - 1;
        ret := NO_ERROR;
      }
    }

    /** `netana_get_filter`. */
    method ReadFilter(port: nat, a: Request, b: Request) returns (reply: Reply)
      requires Valid()
      ensures reply == GetFilter(z, Current(), port, a, b)
    {
      if port >= z.ports {
        return Reply(INVALID_PORT, 0, [], [], [], []);
      }
      PortBlocks(z, Current(), port);
      var relation := Read(FilterBase(z, port), FILTER_BASE_SIZE);
      assert relation == Current()[FilterBase(z, port)];
      var okA, maskA, valueA := ReadOne(port, 0, a);
      if !okA {
        return Reply(INVALID_PARAMETER, FromBytes(relation), [], [], [], []);
      }
      var okB, maskB, valueB := ReadOne(port, 1, b);
      if !okB {
        return Reply(INVALID_PARAMETER, FromBytes(relation), maskA, valueA, [], []);
      }
      reply := Reply(NO_ERROR, FromBytes(relation), maskA, valueA, maskB, valueB);
    }

    method ReadOne(port: nat, k: nat, q: Request) returns (ok: bool, mask: seq<byte>, value: seq<byte>)
      requires Valid() && port < z.ports && k < 2
      ensures ok == !Refused(q)
      ensures ok ==> mask == Part(Current(), Mask(z, port, k), q, z.filterSize)
      ensures ok ==> value == Part(Current(), Value(z, port, k), q, z.filterSize)
    {
      mask, value := [], [];
      if q.Request? && q.size > 0 {
        if !q.mask || !q.value {
          return false, [], [];
        }
        FilterRegions(port, k);
        mask := Read(Mask(z, port, k), Min(q.size, z.filterSize));
        value := Read(Value(z, port, k), Min(q.size, z.filterSize));
      }
      ok := true;
    }

    lemma FilterRegions(port: nat, k: nat)
      requires Valid() && port < z.ports && k < 2
      ensures Mask(z, port, k) < |regions| && Value(z, port, k) < |regions|
      ensures regions[Mask(z, port, k)].len == regions[Value(z, port, k)].len == z.filterSize
    {
      assert PortPlaced(z, regions, port);
    }

    method Read(i: nat, n: nat) returns (data: seq<byte>)
      requires Valid() && i < |regions| && n <= regions[i].len
      ensures data == Current()[i][..n]
    {
      data := mem[regions[i].start..regions[i].start + n];
    }
  }
}
