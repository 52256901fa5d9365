/** opio's pin-level access to the RDA8810 GPIO block: a pin number picks a
    port group and a bit, the group picks a register in a 4-entry address
    table, and every access is a mem_get or a mem_set of that one bit. */
module Opio {
  import opened Bits
  import opened Results
  import opened Registers

  datatype Option<T> = None | Some(value: T)

  const GPIO_PER_PORT: nat := 32

  /** IOMUX registers in the port order A, B, D, C. */
  const IOMUX_ADDRESSES: seq<Addr> := [0x11a0900c, 0x11a09010, 0x11a09014, 0x11a09008]

  /** Base of each port's IO registers, in the same order A, B, D, C. */
  const IOBASE_ADDRESSES: seq<Addr> := [0x20930000, 0x20931000, 0x20932000, 0x11a08000]

  /** Direction register (bit set: input) and data register offsets. */
  const IO_DIR: nat := 0
  const IO_DATA: nat := 0xc

  /** `gpio // GPIO_PER_PORT` (floor division, which Dafny's `/` is for a positive divisor). */
  function PortGroup(gpio: int): int { gpio / GPIO_PER_PORT }

  /** `gpio % GPIO_PER_PORT`, never negative for a positive divisor. */
  function PortOffset(gpio: int): nat { gpio % GPIO_PER_PORT }

  /** `1 << port_offset`. */
  function PinMask(gpio: int): nat { Pow2(PortOffset(gpio)) }

  /** A pin number is its port group times 32 plus its offset, and its mask is
      a single bit of a 32-bit word. */
  lemma PinDecomposition(gpio: int)
    ensures gpio == PortGroup(gpio) * GPIO_PER_PORT + PortOffset(gpio) && PortOffset(gpio) < GPIO_PER_PORT
    ensures PinMask(gpio) < WORD_LIMIT
    ensures forall k: nat :: Bit(PinMask(gpio), k) <==> k == PortOffset(gpio)
  {
    MaskFits(PortOffset(gpio));
    forall k: nat ensures Bit(PinMask(gpio), k) <==> k == PortOffset(gpio) {
      BitOfPow2(PortOffset(gpio), k);
    }
  }

  /** Python tuple indexing: a negative index counts from the end, anything
      else outside the tuple raises IndexError. */
  function PyIndex(t: seq<Addr>, i: int): (r: Result<Addr>)
    ensures r.Ok? <==> -|t| <= i < |t|
    ensures r.Ok? ==> r.value in t
  {
    if 0 <= i < |t| then Ok(t[i])
    else if -|t| <= i < 0 then Ok(t[|t| + i])
    else Err(IndexError)
  }

  /** `cpu.IOMUX_ADDRESSES[port_group]`. */
  function IomuxAddress(gpio: int): Result<Addr> {
    PyIndex(IOMUX_ADDRESSES, PortGroup(gpio))
  }

  /** `IOBASE_ADDRESSES[port_group] + address_offset`. */
  function IoAddress(gpio: int, addressOffset: nat): Result<Addr> {
    var base :- PyIndex(IOBASE_ADDRESSES, PortGroup(gpio));
    Ok(base + addressOffset)
  }

  /** The table slot a port group selects: the group itself, or counted from
      the end for a negative group. */
  function Slot(gpio: int): int {
    if PortGroup(gpio) < 0 then PortGroup(gpio) + 4 else PortGroup(gpio)
  }

  /** Every register address opio forms lies in the first 32 bytes of its page. */
  lemma UsedRegistersFit(i: int)
    requires 0 <= i < 4
    ensures WindowFits(IOMUX_ADDRESSES[i])
    ensures WindowFits(IOBASE_ADDRESSES[i] + IO_DIR) && WindowFits(IOBASE_ADDRESSES[i] + IO_DATA)
  {
    if i == 0 {
      FitsAt(IOMUX_ADDRESSES[i], 0x11a09, 0xc);
      FitsAt(IOBASE_ADDRESSES[i] + IO_DIR, 0x20930, 0); FitsAt(IOBASE_ADDRESSES[i] + IO_DATA, 0x20930, 0xc);
    } else if i == 1 {
      FitsAt(IOMUX_ADDRESSES[i], 0x11a09, 0x10);
      FitsAt(IOBASE_ADDRESSES[i] + IO_DIR, 0x20931, 0); FitsAt(IOBASE_ADDRESSES[i] + IO_DATA, 0x20931, 0xc);
    } else if i == 2 {
      FitsAt(IOMUX_ADDRESSES[i], 0x11a09, 0x14);
      FitsAt(IOBASE_ADDRESSES[i] + IO_DIR, 0x20932, 0); FitsAt(IOBASE_ADDRESSES[i] + IO_DATA, 0x20932, 0xc);
    } else {
      FitsAt(IOMUX_ADDRESSES[i], 0x11a09, 0x8);
      FitsAt(IOBASE_ADDRESSES[i] + IO_DIR, 0x11a08, 0); FitsAt(IOBASE_ADDRESSES[i] + IO_DATA, 0x11a08, 0xc);
    }
  }

  /** The address tables are indexed without error exactly for pins -128..127
      (negative groups count from the end), every pin that check_gpio_valid
      accepts has a group in 0..3, and the 4-byte access always fits the mapping. */
  lemma RegistersResolve(gpio: int, addressOffset: nat)
    ensures IomuxAddress(gpio).Ok? <==> -128 <= gpio < 128
    ensures IoAddress(gpio, addressOffset).Ok? <==> -128 <= gpio < 128
    ensures 0 <= gpio <= 127 ==> 0 <= PortGroup(gpio) <= 3
    ensures -128 <= gpio < 128 ==>
              IomuxAddress(gpio).value == IOMUX_ADDRESSES[Slot(gpio)] &&
              IoAddress(gpio, addressOffset).value == IOBASE_ADDRESSES[Slot(gpio)] + addressOffset &&
              WindowFits(IomuxAddress(gpio).value) &&
              WindowFits(IoAddress(gpio, IO_DIR).value) && WindowFits(IoAddress(gpio, IO_DATA).value)
  {
    if -128 <= gpio < 128 {
      UsedRegistersFit(Slot(gpio));
    }
  }

  /** Masking a loaded word with `1 << offset` isolates bit `offset`. */
  lemma PinBitOfWord(m: Mem, address: Addr, gpio: int)
    ensures LoadWord(m, address).Ok? ==>
              And(LoadWord(m, address).value, PinMask(gpio))
              == if Bit(LoadWord(m, address).value, PortOffset(gpio)) then PinMask(gpio) else 0
  {
    if LoadWord(m, address).Ok? {
      AndPow2(LoadWord(m, address).value, PortOffset(gpio));
    }
  }

  /** mem_get of the pin's IOMUX bit: the bit's own value (1 << offset) when
      the pin is in GPIO mode, 0 in its special function. */
  function GetIomux(m: Mem, gpio: int): (r: Result<nat>)
    ensures r.Ok? <==> -128 <= gpio < 128
    ensures r.Ok? ==> IomuxAddress(gpio).Ok? && LoadWord(m, IomuxAddress(gpio).value).Ok? &&
                      r.value == if Bit(LoadWord(m, IomuxAddress(gpio).value).value, PortOffset(gpio))
                                 then PinMask(gpio) else 0
  {
    RegistersResolve(gpio, 0);
    var address :- IomuxAddress(gpio);
    PinBitOfWord(m, address, gpio);
    MemGet(m, address, PinMask(gpio))
  }

  /** low_level_read: the pin's bit of the register at the offset, as 0 or 1. */
  function LowLevelRead(m: Mem, gpio: int, addressOffset: nat): (r: Result<nat>)
    ensures -128 <= gpio < 128 && (addressOffset == IO_DIR || addressOffset == IO_DATA) ==> r.Ok?
    ensures r.Ok? ==> IoAddress(gpio, addressOffset).Ok? && LoadWord(m, IoAddress(gpio, addressOffset).value).Ok? &&
                      r.value == if Bit(LoadWord(m, IoAddress(gpio, addressOffset).value).value, PortOffset(gpio))
                                 then 1 else 0
  {
    RegistersResolve(gpio, addressOffset);
    var address :- IoAddress(gpio, addressOffset);
    PinBitOfWord(m, address, gpio);
    var bits :- MemGet(m, address, PinMask(gpio));
    Ok(if bits != 0 then 1 else 0)
  }

  /** The memory after `mem_set(IOMUX_ADDRESSES[group], 1 << offset, gpio_mode)`. */
  function IomuxEffect(m: Mem, gpio: int, gpioMode: bool): Result<Mem> {
    var address :- IomuxAddress(gpio);
    MemSetEffect(m, address, PinMask(gpio), gpioMode)
  }

  /** The memory after low_level_write; `data` is tested for truth as Python does. */
  function LowLevelWriteEffect(m: Mem, gpio: int, addressOffset: nat, data: int): Result<Mem> {
    var address :- IoAddress(gpio, addressOffset);
    MemSetEffect(m, address, PinMask(gpio), data != 0)
  }

  /** The direction bit low_level_set_mode writes: 0 for 'out', 1 for any
      other string except 'alt', which is refused. */
  function DirectionValue(mode: string): (r: Result<int>)
    ensures r.Ok? <==> mode != "alt"
    ensures r.Ok? ==> (r.value == 0 <==> mode == "out") && (r.value == 1 <==> mode != "out")
  {
    if mode == "alt" then Err(IllegalMode)
    else Ok(if mode == "out" then 0 else 1)
  }

  /** The memory after low_level_set_mode. */
  function SetModeEffect(m: Mem, gpio: int, mode: string): Result<Mem> {
    var direction :- DirectionValue(mode);
    LowLevelWriteEffect(m, gpio, IO_DIR, direction)
  }

  /** The step GPIO_DIRECT.set and .get begin with: a pin found in its
      special function is switched to GPIO mode and given the direction. */
  function PrepareEffect(m: Mem, gpio: int, mode: string): Result<Mem> {
    var iomux :- GetIomux(m, gpio);
    if iomux == 0 then
      var switched :- IomuxEffect(m, gpio, true);
      SetModeEffect(switched, gpio, mode)
    else Ok(m)
  }

  /** The memory after GPIO_DIRECT.set(value). */
  function DirectSetEffect(m: Mem, gpio: int, value: int): Result<Mem> {
    var prepared :- PrepareEffect(m, gpio, "out");
    LowLevelWriteEffect(prepared, gpio, IO_DATA, value)
  }

  /** What GPIO_DIRECT.get_mode_value reports for a pin: '?' stands for no value. */
  datatype PinValue = Unknown | Level(level: nat)
  datatype ModeReading = ModeReading(mode: string, value: PinValue)

  /** GPIO_DIRECT.get_mode_value: 'alt' while the pin is in its special
      function, else 'in' or 'out' from the direction bit, marked with '*'
      when the pin has no export, together with the data bit. */
  function DirectModeValue(m: Mem, exports: set<int>, gpio: int): (r: Result<ModeReading>)
    ensures r.Ok? <==> -128 <= gpio < 128
    ensures r.Ok? ==> (r.value.value == Unknown <==> GetIomux(m, gpio).value == 0)
  {
    var iomux :- GetIomux(m, gpio);
    if iomux == 0 then Ok(ModeReading("alt", Unknown))
    else
      // both reads succeed once the IOMUX read has: the pin is in -128..127
      var d := LowLevelRead(m, gpio, IO_DIR).value;
      var direction := if d != 0 then "in" else "out";
      var mode := if gpio in exports then direction else direction + "*";
      var v := LowLevelRead(m, gpio, IO_DATA).value;
      Ok(ModeReading(mode, Level(v)))
  }

  /** check_gpio_valid: a pin number is required and must lie in 0..127. */
  function CheckGpioValid(gpio: Option<int>): (r: Outcome)
    ensures r.Done? <==> gpio.Some? && 0 <= gpio.value <= 127
    ensures r.Done? ==> gpio.Some? && 0 <= PortGroup(gpio.value) < |IOMUX_ADDRESSES| && PortGroup(gpio.value) < |IOBASE_ADDRESSES|
    ensures r.Fail? ==> r.error == InvalidGpio
  {
    if gpio.None? || gpio.value < 0 || gpio.value > 127 then Fail(InvalidGpio) else Done
  }

  /** A pin number that check_gpio_valid accepts has a port group in 0..3, so
      it indexes both address tables, and its registers fit the mapping. */
  lemma AcceptedPinsResolve(gpio: Option<int>)
    requires CheckGpioValid(gpio).Done?
    ensures 0 <= PortGroup(gpio.value) <= 3
    ensures IomuxAddress(gpio.value) == Ok(IOMUX_ADDRESSES[PortGroup(gpio.value)])
    ensures IoAddress(gpio.value, IO_DIR) == Ok(IOBASE_ADDRESSES[PortGroup(gpio.value)] + IO_DIR)
    ensures IoAddress(gpio.value, IO_DATA) == Ok(IOBASE_ADDRESSES[PortGroup(gpio.value)] + IO_DATA)
    ensures WindowFits(IomuxAddress(gpio.value).value)
    ensures WindowFits(IoAddress(gpio.value, IO_DIR).value) && WindowFits(IoAddress(gpio.value, IO_DATA).value)
  {
    RegistersResolve(gpio.value, IO_DIR);
    RegistersResolve(gpio.value, IO_DATA);
  }

  /** The value argument of the write command: 1 for '1', 'on', 'ON', 0 for
      '0', 'off', 'OFF'. */
  function ParseWriteValue(extra: string): (r: Result<int>)
    ensures r == Ok(1) <==> extra == "1" || extra == "on" || extra == "ON"
    ensures r == Ok(0) <==> extra == "0" || extra == "off" || extra == "OFF"
    ensures r.Ok? || r == Err(BadValue)
  {
    if extra == "1" || extra == "on" || extra == "ON" then Ok(1)
    else if extra == "0" || extra == "off" || extra == "OFF" then Ok(0)
    else Err(BadValue)
  }

  /** Two register accesses that do not share a byte. */
  predicate Disjoint(a: Addr, b: Addr) {
    a + 4 <= b || b + 4 <= a
  }

  /** The IOMUX registers, the direction registers and the data registers are
      twelve different words, no two of which overlap. */
  lemma RegistersDisjoint(i: int, j: int, o1: nat, o2: nat)
    requires 0 <= i < 4 && 0 <= j < 4
    requires (o1 == IO_DIR || o1 == IO_DATA) && (o2 == IO_DIR || o2 == IO_DATA)
    ensures i != j ==> Disjoint(IOMUX_ADDRESSES[i], IOMUX_ADDRESSES[j])
    ensures (i != j || o1 != o2) ==> Disjoint(IOBASE_ADDRESSES[i] + o1, IOBASE_ADDRESSES[j] + o2)
    ensures Disjoint(IOMUX_ADDRESSES[i], IOBASE_ADDRESSES[j] + o2)
  {
  }

  /** Two different pins of the same port have different bits. */
  lemma SamePortDifferentBit(g1: int, g2: int)
    requires g1 != g2 && PortGroup(g1) == PortGroup(g2)
    ensures And(PinMask(g1), PinMask(g2)) == 0
  {
    PinDecomposition(g1);
    PinDecomposition(g2);
    DistinctBits(PortOffset(g1), PortOffset(g2));
  }

  /** Write/read round trip: after low_level_write the same pin and register
      read back 1 exactly when the written value is truthy. */
  lemma {:induction false} WriteThenRead(m: Mem, gpio: int, addressOffset: nat, data: int)
    requires -128 <= gpio < 128 && (addressOffset == IO_DIR || addressOffset == IO_DATA)
    ensures LowLevelWriteEffect(m, gpio, addressOffset, data).Ok?
    ensures LowLevelRead(LowLevelWriteEffect(m, gpio, addressOffset, data).value, gpio, addressOffset)
         == Ok(if data != 0 then 1 else 0)
  {
    RegistersResolve(gpio, addressOffset);
    PinDecomposition(gpio);
    var address := IoAddress(gpio, addressOffset).value;
    MemSetSucceeds(m, address, PinMask(gpio), data != 0);
    MemGetAfterMemSet(m, address, PinMask(gpio), data != 0);
  }

  /** low_level_read depends on memory only through mem_get of the pin's register. */
  lemma ReadsAgree(m1: Mem, m2: Mem, gpio: int, addressOffset: nat)
    requires IoAddress(gpio, addressOffset).Ok?
    requires MemGet(m1, IoAddress(gpio, addressOffset).value, PinMask(gpio))
          == MemGet(m2, IoAddress(gpio, addressOffset).value, PinMask(gpio))
    ensures LowLevelRead(m1, gpio, addressOffset) == LowLevelRead(m2, gpio, addressOffset)
  {
  }

  /** Two pins' registers are the same word when the pins share a port and
      the register offset, and do not overlap otherwise. */
  lemma IoRegistersApart(g1: int, o1: nat, g2: int, o2: nat)
    requires 0 <= g1 <= 127 && 0 <= g2 <= 127
    requires (o1 == IO_DIR || o1 == IO_DATA) && (o2 == IO_DIR || o2 == IO_DATA)
    ensures IoAddress(g1, o1).Ok? && IoAddress(g2, o2).Ok?
    ensures if PortGroup(g1) == PortGroup(g2) && o1 == o2 then IoAddress(g1, o1) == IoAddress(g2, o2)
            else Disjoint(IoAddress(g1, o1).value, IoAddress(g2, o2).value)
  {
    RegistersResolve(g1, o1);
    RegistersResolve(g2, o2);
    RegistersDisjoint(PortGroup(g1), PortGroup(g2), o1, o2);
  }

  /** A write to one pin's bit leaves the reading of every other pin, and of
      the same pin's other register, unchanged. */
  lemma {:induction false} WriteKeepsOtherReads(m: Mem, g1: int, o1: nat, data: int, g2: int, o2: nat)
    requires 0 <= g1 <= 127 && 0 <= g2 <= 127
    requires (o1 == IO_DIR || o1 == IO_DATA) && (o2 == IO_DIR || o2 == IO_DATA)
    requires g1 != g2 || o1 != o2
    ensures LowLevelWriteEffect(m, g1, o1, data).Ok?
    ensures LowLevelRead(LowLevelWriteEffect(m, g1, o1, data).value, g2, o2) == LowLevelRead(m, g2, o2)
  {
    WriteThenRead(m, g1, o1, data);
    IoRegistersApart(g1, o1, g2, o2);
    if PortGroup(g1) == PortGroup(g2) && o1 == o2 {
      SamePortDifferentBit(g1, g2);
    }
    MemSetPreservesOthers(m, IoAddress(g1, o1).value, PinMask(g1), data != 0, IoAddress(g2, o2).value, PinMask(g2));
    ReadsAgree(LowLevelWriteEffect(m, g1, o1, data).value, m, g2, o2);
  }

  /** set_iomux then get_iomux: the pin's IOMUX bit reads back as set for GPIO
      mode and as clear for the special function. */
  lemma {:induction false} IomuxThenRead(m: Mem, gpio: int, gpioMode: bool)
    requires -128 <= gpio < 128
    ensures IomuxEffect(m, gpio, gpioMode).Ok?
    ensures GetIomux(IomuxEffect(m, gpio, gpioMode).value, gpio) == Ok(if gpioMode then PinMask(gpio) else 0)
  {
    RegistersResolve(gpio, 0);
    PinDecomposition(gpio);
    var address := IomuxAddress(gpio).value;
    MemSetSucceeds(m, address, PinMask(gpio), gpioMode);
    MemGetAfterMemSet(m, address, PinMask(gpio), gpioMode);
  }

  /** Switching one pin's IOMUX bit leaves every other pin's IOMUX reading unchanged. */
  lemma {:induction false} IomuxKeepsOtherPins(m: Mem, g1: int, gpioMode: bool, g2: int)
    requires 0 <= g1 <= 127 && 0 <= g2 <= 127 && g1 != g2
    ensures IomuxEffect(m, g1, gpioMode).Ok?
    ensures GetIomux(IomuxEffect(m, g1, gpioMode).value, g2) == GetIomux(m, g2)
  {
    IomuxThenRead(m, g1, gpioMode);
    RegistersResolve(g1, 0);
    RegistersResolve(g2, 0);
    RegistersDisjoint(PortGroup(g1), PortGroup(g2), IO_DIR, IO_DIR);
    if PortGroup(g1) == PortGroup(g2) {
      SamePortDifferentBit(g1, g2);
    }
    MemSetPreservesOthers(m, IomuxAddress(g1).value, PinMask(g1), gpioMode, IomuxAddress(g2).value, PinMask(g2));
  }

  /** Switching a pin's IOMUX bit leaves every pin's direction and data readings unchanged. */
  lemma {:induction false} IomuxKeepsReads(m: Mem, g1: int, gpioMode: bool, g2: int, o2: nat)
    requires -128 <= g1 <= 127 && -128 <= g2 <= 127 && (o2 == IO_DIR || o2 == IO_DATA)
    ensures IomuxEffect(m, g1, gpioMode).Ok?
    ensures LowLevelRead(IomuxEffect(m, g1, gpioMode).value, g2, o2) == LowLevelRead(m, g2, o2)
  {
    IomuxThenRead(m, g1, gpioMode);
    RegistersResolve(g1, o2);
    RegistersResolve(g2, o2);
    RegistersDisjoint(Slot(g1), Slot(g2), o2, o2);
    MemSetPreservesOthers(m, IomuxAddress(g1).value, PinMask(g1), gpioMode, IoAddress(g2, o2).value, PinMask(g2));
    ReadsAgree(IomuxEffect(m, g1, gpioMode).value, m, g2, o2);
  }

  /** A low_level_write leaves every pin's IOMUX reading unchanged. */
  lemma {:induction false} WriteKeepsIomux(m: Mem, g1: int, o1: nat, data: int, g2: int)
    requires -128 <= g1 <= 127 && -128 <= g2 <= 127 && (o1 == IO_DIR || o1 == IO_DATA)
    ensures LowLevelWriteEffect(m, g1, o1, data).Ok?
    ensures GetIomux(LowLevelWriteEffect(m, g1, o1, data).value, g2) == GetIomux(m, g2)
  {
    WriteThenRead(m, g1, o1, data);
    RegistersResolve(g1, o1);
    RegistersResolve(g2, o1);
    RegistersDisjoint(Slot(g2), Slot(g1), o1, o1);
    PinDecomposition(g1);
    MemSetPreservesOthers(m, IoAddress(g1, o1).value, PinMask(g1), data != 0, IomuxAddress(g2).value, PinMask(g2));
  }

  /** low_level_set_mode refuses 'alt'; otherwise the direction bit reads back
      0 for 'out' and 1 for anything else, and the IOMUX bit keeps its value. */
  lemma {:induction false} SetModeThenRead(m: Mem, gpio: int, mode: string)
    requires 0 <= gpio <= 127
    ensures SetModeEffect(m, gpio, mode).Ok? <==> mode != "alt"
    ensures mode == "alt" ==> SetModeEffect(m, gpio, mode) == Err(IllegalMode)
    ensures mode != "alt" ==>
              LowLevelRead(SetModeEffect(m, gpio, mode).value, gpio, IO_DIR) == Ok(if mode == "out" then 0 else 1) &&
              LowLevelRead(SetModeEffect(m, gpio, mode).value, gpio, IO_DATA) == LowLevelRead(m, gpio, IO_DATA) &&
              GetIomux(SetModeEffect(m, gpio, mode).value, gpio) == GetIomux(m, gpio)
  {
    if mode != "alt" {
      var direction := DirectionValue(mode).value;
      WriteThenRead(m, gpio, IO_DIR, direction);
      WriteKeepsOtherReads(m, gpio, IO_DIR, direction, gpio, IO_DATA);
      WriteKeepsIomux(m, gpio, IO_DIR, direction, gpio);
    }
  }

  /** set_iomux(False) puts the pin in its special function, which
      get_mode_value reports as ('alt', '?'). */
  lemma {:induction false} AltAfterIomuxOff(m: Mem, exports: set<int>, gpio: int)
    requires -128 <= gpio < 128
    ensures IomuxEffect(m, gpio, false).Ok?
    ensures DirectModeValue(IomuxEffect(m, gpio, false).value, exports, gpio) == Ok(ModeReading("alt", Unknown))
  {
    IomuxThenRead(m, gpio, false);
  }

  /** With the pin in GPIO mode, set_mode('out') is reported as 'out' and any
      other mode but 'alt' as 'in', with '*' appended exactly when the pin has
      no export; the reported value is the unchanged data bit. */
  lemma {:induction false} ModeAfterSetMode(m: Mem, exports: set<int>, gpio: int, mode: string)
    requires 0 <= gpio <= 127 && mode != "alt"
    requires GetIomux(m, gpio).Ok? && GetIomux(m, gpio).value != 0
    ensures SetModeEffect(m, gpio, mode).Ok?
    ensures DirectModeValue(SetModeEffect(m, gpio, mode).value, exports, gpio)
         == var direction := if mode == "out" then "out" else "in";
            Ok(ModeReading(if gpio in exports then direction else direction + "*",
                           Level(LowLevelRead(m, gpio, IO_DATA).value)))
  {
    SetModeThenRead(m, gpio, mode);
    var m1 := SetModeEffect(m, gpio, mode).value;
    var d := if mode == "out" then 0 else 1;
    assert GetIomux(m1, gpio) == GetIomux(m, gpio);
    assert LowLevelRead(m1, gpio, IO_DIR) == Ok(d);
    assert LowLevelRead(m1, gpio, IO_DATA) == LowLevelRead(m, gpio, IO_DATA);
  }

  /** The export set decides only the '*' marker: the same pin reads the same
      mode with '*' after remove_export that it reads without it after create_export. */
  lemma {:induction false} ExportMarker(m: Mem, exports: set<int>, gpio: int)
    requires -128 <= gpio < 128
    requires GetIomux(m, gpio).Ok? && GetIomux(m, gpio).value != 0
    ensures DirectModeValue(m, exports + {gpio}, gpio).Ok? && DirectModeValue(m, exports - {gpio}, gpio).Ok?
    ensures DirectModeValue(m, exports + {gpio}, gpio).value.mode + "*"
         == DirectModeValue(m, exports - {gpio}, gpio).value.mode
    ensures DirectModeValue(m, exports + {gpio}, gpio).value.value
         == DirectModeValue(m, exports - {gpio}, gpio).value.value != Unknown
  {
  }

  /** The preamble of GPIO_DIRECT.set and .get: afterwards the pin is in GPIO
      mode; a pin that was in its special function gets the direction, any
      other pin is left as it was; the data bit is never touched. */
  lemma {:induction false} PrepareThenRead(m: Mem, gpio: int, mode: string)
    requires 0 <= gpio <= 127 && (mode == "in" || mode == "out")
    ensures PrepareEffect(m, gpio, mode).Ok?
    ensures GetIomux(PrepareEffect(m, gpio, mode).value, gpio) == Ok(PinMask(gpio))
    ensures LowLevelRead(PrepareEffect(m, gpio, mode).value, gpio, IO_DATA) == LowLevelRead(m, gpio, IO_DATA)
    ensures GetIomux(m, gpio) == Ok(0) ==>
              LowLevelRead(PrepareEffect(m, gpio, mode).value, gpio, IO_DIR) == Ok(if mode == "out" then 0 else 1)
    ensures GetIomux(m, gpio) != Ok(0) ==> PrepareEffect(m, gpio, mode) == Ok(m)
  {
    if GetIomux(m, gpio) == Ok(0) {
      IomuxThenRead(m, gpio, true);
      IomuxKeepsReads(m, gpio, true, gpio, IO_DATA);
      SetModeThenRead(IomuxEffect(m, gpio, true).value, gpio, mode);
    }
  }

  /** For a pin in its special function, the preamble is set_iomux(1)
      followed by set_mode, and both succeed. */
  lemma PrepareSwitches(m: Mem, gpio: int, mode: string)
    requires GetIomux(m, gpio) == Ok(0) && (mode == "in" || mode == "out")
    ensures IomuxEffect(m, gpio, true).Ok?
    ensures SetModeEffect(IomuxEffect(m, gpio, true).value, gpio, mode).Ok?
    ensures PrepareEffect(m, gpio, mode) == SetModeEffect(IomuxEffect(m, gpio, true).value, gpio, mode)
  {
    IomuxThenRead(m, gpio, true);
    WriteThenRead(IomuxEffect(m, gpio, true).value, gpio, IO_DIR, if mode == "out" then 0 else 1);
  }

  /** GPIO_DIRECT.set: the data bit reads back the truth of the value, the pin
      is in GPIO mode, and its direction is 'out' if it had to be switched
      from its special function and unchanged otherwise. */
  lemma {:induction false} DirectSetThenRead(m: Mem, gpio: int, value: int)
    requires 0 <= gpio <= 127
    ensures DirectSetEffect(m, gpio, value).Ok?
    ensures LowLevelRead(DirectSetEffect(m, gpio, value).value, gpio, IO_DATA) == Ok(if value != 0 then 1 else 0)
    ensures GetIomux(DirectSetEffect(m, gpio, value).value, gpio) == Ok(PinMask(gpio))
    ensures LowLevelRead(DirectSetEffect(m, gpio, value).value, gpio, IO_DIR)
         == if GetIomux(m, gpio) == Ok(0) then Ok(0) else LowLevelRead(m, gpio, IO_DIR)
  {
    PrepareThenRead(m, gpio, "out");
    var prepared := PrepareEffect(m, gpio, "out").value;
    WriteThenRead(prepared, gpio, IO_DATA, value);
    WriteKeepsOtherReads(prepared, gpio, IO_DATA, value, gpio, IO_DIR);
    WriteKeepsIomux(prepared, gpio, IO_DATA, value, gpio);
  }

  /** The machine opio drives: physical memory behind /dev/mem, the pins
      exported under /sys/class/gpio, and what was last written to each
      exported pin's `direction` and `value` files. */
  class Hardware {
    var mem: Mem
    var exports: set<int>
    var direction: map<int, string>
    var level: map<int, int>

    constructor (m: Mem, exported: set<int>)
      ensures mem == m && exports == exported && direction == map[] && level == map[]
    {
      mem := m;
      exports := exported;
      direction := map[];
      level := map[];
    }

    /** mem_set: read the word, set or clear the masked bits, write it back. */
    method MemSet(address: Addr, bitmask: nat, value: bool) returns (outcome: Outcome)
      modifies this`mem
      ensures Follows(MemSetEffect(old(mem), address, bitmask, value), old(mem), mem, outcome)
    {
      var data := LoadWord(mem, address);
      if data.Err? {
        return Fail(data.error);
      }
      var bytes := Pack(SetBits(data.value, bitmask, value));
      if bytes.Err? {
        return Fail(bytes.error);
      }
      mem := StoreBytes(mem, address, bytes.value);
      outcome := Done;
    }

    /** create_export: afterwards the pin has an export. */
    method CreateExport(gpio: int)
      modifies this`exports
      ensures exports == old(exports) + {gpio}
    {
      if gpio !in exports {
        exports := exports + {gpio};
      }
    }

    /** remove_export: afterwards the pin has none. */
    method RemoveExport(gpio: int)
      modifies this`exports
      ensures exports == old(exports) - {gpio}
    {
      if gpio in exports {
        exports := exports - {gpio};
      }
    }

    /** GPIO.set_iomux: write the pin's IOMUX bit; leaving GPIO mode also
      removes the export. */
    method SetIomux(gpio: int, gpioMode: bool) returns (outcome: Outcome)
      modifies this`mem, this`exports
      ensures Follows(IomuxEffect(old(mem), gpio, gpioMode), old(mem), mem, outcome)
      ensures exports == if outcome.Done? && !gpioMode then old(exports) - {gpio} else old(exports)
    {
      var address := IomuxAddress(gpio);
      if address.Err? {
        return Fail(address.error);
      }
      outcome := MemSet(address.value, PinMask(gpio), gpioMode);
      if outcome.Done? && !gpioMode {
        RemoveExport(gpio);
      }
    }

    /** low_level_write: write the pin's bit of the register at the offset. */
    method LowLevelWrite(gpio: int, addressOffset: nat, data: int) returns (outcome: Outcome)
      modifies this`mem
      ensures Follows(LowLevelWriteEffect(old(mem), gpio, addressOffset, data), old(mem), mem, outcome)
    {
      var address := IoAddress(gpio, addressOffset);
      if address.Err? {
        return Fail(address.error);
      }
      outcome := MemSet(address.value, PinMask(gpio), data != 0);
    }

    /** low_level_set_mode: 'alt' is refused, 'out' clears the direction bit,
      anything else sets it. */
    method LowLevelSetMode(gpio: int, mode: string) returns (outcome: Outcome)
      modifies this`mem
      ensures Follows(SetModeEffect(old(mem), gpio, mode), old(mem), mem, outcome)
    {
      if mode == "alt" {
        return Fail(IllegalMode);
      }
      outcome := LowLevelWrite(gpio, IO_DIR, if mode == "out" then 0 else 1);
    }

    /** GPIO(gpio): put the pin in GPIO mode and make sure it has an export. */
    method OpenGpio(gpio: int) returns (outcome: Outcome)
      modifies this`mem, this`exports
      ensures Follows(IomuxEffect(old(mem), gpio, true), old(mem), mem, outcome)
      ensures exports == if outcome.Done? then old(exports) + {gpio} else old(exports)
    {
      outcome := SetIomux(gpio, true);
      if outcome.Done? {
        CreateExport(gpio);
      }
    }

    /** The preamble of GPIO_DIRECT.set and .get: a pin found in its special
      function is switched to GPIO mode and given the direction. */
    method Prepare(gpio: int, mode: string) returns (outcome: Outcome)
      requires mode == "in" || mode == "out"
      modifies this`mem, this`exports
      ensures Follows(PrepareEffect(old(mem), gpio, mode), old(mem), mem, outcome)
      ensures exports == old(exports)
    {
      var iomux := GetIomux(mem, gpio);
      if iomux.Err? {
        return Fail(iomux.error);
      }
      if iomux.value == 0 {
        PrepareSwitches(mem, gpio, mode);
        outcome := SetIomux(gpio, true);
        if outcome.Done? {
          outcome := LowLevelSetMode(gpio, mode);
        }
      } else {
        outcome := Done;
      }
    }

    /** GPIO_DIRECT.set: after the preamble, write the data bit. */
    method DirectSet(gpio: int, value: int) returns (outcome: Outcome)
      modifies this`mem, this`exports
      ensures Follows(DirectSetEffect(old(mem), gpio, value), old(mem), mem, outcome)
      ensures exports == old(exports)
    {
      outcome := Prepare(gpio, "out");
      if outcome.Done? {
        WriteThenRead(mem, gpio, IO_DATA, value);
        outcome := LowLevelWrite(gpio, IO_DATA, value);
      }
    }

    /** GPIO_DIRECT.get: after the preamble, read the data bit. */
    method DirectGet(gpio: int) returns (r: Result<nat>)
      modifies this`mem, this`exports
      ensures PrepareEffect(old(mem), gpio, "in").Ok? ==>
                mem == PrepareEffect(old(mem), gpio, "in").value && r == LowLevelRead(mem, gpio, IO_DATA)
      ensures PrepareEffect(old(mem), gpio, "in").Err? ==>
                mem == old(mem) && r == Err(PrepareEffect(old(mem), gpio, "in").error)
      ensures exports == old(exports)
    {
      var outcome := Prepare(gpio, "in");
      if outcome.Fail? {
        return Err(outcome.error);
      }
      r := LowLevelRead(mem, gpio, IO_DATA);
    }

    /** GPIO.set_mode: the mode string goes to the pin's `direction` file. */
    method SysfsSetMode(gpio: int, mode: string)
      modifies this`direction
      ensures direction == old(direction)[gpio := mode]
    {
      direction := direction[gpio := mode];
    }

    /** GPIO.set: direction 'out', then the value goes to the pin's `value` file. */
    method SysfsSet(gpio: int, value: int)
      modifies this`direction, this`level
      ensures direction == old(direction)[gpio := "out"] && level == old(level)[gpio := value]
    {
      SysfsSetMode(gpio, "out");
      level := level[gpio := value];
    }

    /** The write command: check the pin, open it through the export system,
      parse the value, set it. A bad value is found only after the pin has
      been put in GPIO mode and exported. */
    method DoWrite(gpio: Option<int>, extra: string) returns (outcome: Outcome)
      modifies this`mem, this`exports, this`direction, this`level
      ensures CheckGpioValid(gpio).Fail? ==>
                outcome == Fail(InvalidGpio) && mem == old(mem) && exports == old(exports) &&
                direction == old(direction) && level == old(level)
      ensures CheckGpioValid(gpio).Done? ==>
                IomuxEffect(old(mem), gpio.value, true).Ok? &&
                mem == IomuxEffect(old(mem), gpio.value, true).value && exports == old(exports) + {gpio.value}
      ensures CheckGpioValid(gpio).Done? && ParseWriteValue(extra).Ok? ==>
                outcome == Done && direction == old(direction)[gpio.value := "out"] &&
                level == old(level)[gpio.value := ParseWriteValue(extra).value]
      ensures CheckGpioValid(gpio).Done? && ParseWriteValue(extra).Err? ==>
                outcome == Fail(BadValue) && direction == old(direction) && level == old(level)
    {
      outcome := CheckGpioValid(gpio);
      if outcome.Fail? {
        return;
      }
      var g := gpio.value;
      IomuxThenRead(mem, g, true);
      outcome := OpenGpio(g);
      assert outcome == Done;
      var v := ParseWriteValue(extra);
      if v.Err? {
        return Fail(BadValue);
      }
      SysfsSet(g, v.value);
    }
  }
}
