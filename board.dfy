/** The OrangePi i96 pin tables: the 40-pin connector (board_i96.PINS) and the
    on-board pins (board_i96.other), how their RDA port labels relate to the
    pin numbers, and the lookup the exports listing does in them. */
module Board {
  import opened Results
  import opened Opio

  /** A connector row: i96 name, RDA port label, pin number (-1: none),
      special function, Linux device name. */
  datatype PinRow = PinRow(name: string, rda: string, gpio: int, alt: string, device: string)

  /** An on-board row: name, RDA port label, pin number, remark. */
  datatype OtherRow = OtherRow(name: string, rda: string, gpio: int, remark: string)

  const PINS: seq<PinRow> := [
    PinRow("GND", "", -1, "", ""),
    PinRow("GND", "", -1, "", ""),
    PinRow("UART2.CTS", "B8", 40, "CTS", "ttyS1.cts"),
    PinRow("PWR_BTN_N", "", -1, "", ""),
    PinRow("UART2.TX", "C8", 104, "TX", "ttyS1.tx"),
    PinRow("RST_BTN_N", "", -1, "1.4v", ""),
    PinRow("UART2.RX", "C7", 103, "RX", "ttyS1.rx"),
    PinRow("SPI2.CLK", "A2", 2, "CLK", "spi2.clk"),
    PinRow("UART2.RTS", "B9", 41, "RTS", "ttyS1.rts"),
    PinRow("SPI2.DI", "A4", 4, "DI", "spi2.di"),
    PinRow("UART1.TX", "A14", 14, "TX", "ttyS0.tx"),
    PinRow("SPI2.CS", "A6", 6, "CS", "spi2.cs"),
    PinRow("UART1.RX", "C6", 102, "RX", "ttyS0.rx"),
    PinRow("SPI2.DO", "A3", 3, "DO", "spi2.do"),
    PinRow("I2C2.SCL", "A0", 0, "SCL", "i2c-1.scl"),
    PinRow("I2S.LRCK", "A10", 10, "LRCK", "pcm.fp"),
    PinRow("I2C2.SDA", "A1", 1, "SDA", "i2c-1.sda"),
    PinRow("I2S.BCK", "A9", 9, "BCK", "pcm.clk"),
    PinRow("I2C3.SCL", "B6", 38, "SCL", "i2c-2.scl"),
    PinRow("I2S.DO", "A13", 13, "DO", "pcm.do"),
    PinRow("I2C3.SDA", "B7", 39, "SDA", "i2c-2.sda"),
    PinRow("I2S.DI", "A11", 11, "DI", "pcm.di"),
    PinRow("GPIO.A", "A15", 15, "CTS", "ttyS0.cts"),
    PinRow("GPIO.B", "A20", 20, "LCD", "lcd"),
    PinRow("GPIO.C", "B24", 56, "ROM", "n/a"),
    PinRow("GPIO.D", "D2", 66, "CTS", "ttyS2.cts"),
    PinRow("GPIO.E", "D3", 67, "RTS", "ttyS2.rts"),
    PinRow("GPIO.F", "A22", 22, "LCD", "lcd"),
    PinRow("GPIO.G", "A30", 30, "LCD", "lcd"),
    PinRow("GPIO.H", "A29", 29, "LCD", "lcd"),
    PinRow("GPIO.I", "A28", 28, "LCD", "lcd"),
    PinRow("GPIO.J", "A27", 27, "LCD", "lcd"),
    PinRow("GPIO.K", "A26", 26, "LCD", "lcd"),
    PinRow("GPIO.L", "A25", 25, "LCD", "lcd"),
    PinRow("V_PAD", "", -1, "1.8v", ""),
    PinRow("SYS_DCIN", "", -1, "n/c", ""),
    PinRow("VDD_IN", "", -1, "5V", ""),
    PinRow("SYS_DCIN", "", -1, "n/c", ""),
    PinRow("GND", "", -1, "", ""),
    PinRow("GND", "", -1, "", "")
  ]

  const OTHER: seq<OtherRow> := [
    OtherRow("LED2", "C30", 126, ""),
    OtherRow("LED3", "C29", 125, ""),
    OtherRow("LED5", "C5", 101, ""),
    OtherRow("J2", "C2", 98, "boot sd"),
    OtherRow("OTGPWR", "A17", 17, "")
  ]

  /** The position of a port letter in the address tables, which list the
      ports in the order A, B, D, C. */
  function PortIndex(c: char): Option<nat> {
    if c == 'A' then Some(0)
    else if c == 'B' then Some(1)
    else if c == 'D' then Some(2)
    else if c == 'C' then Some(3)
    else None
  }

  function Digit(c: char): Option<nat> {
    if '0' <= c <= '9' then Some(c as int - '0' as int) else None
  }

  /** The bit number of an RDA label: one or two decimal digits below 32. */
  function BitNumber(s: string): Option<nat> {
    if |s| == 1 then Digit(s[0])
    else if |s| == 2 && Digit(s[0]).Some? && Digit(s[1]).Some? && 10 * Digit(s[0]).value + Digit(s[1]).value < 32 then
      Some(10 * Digit(s[0]).value + Digit(s[1]).value)
    else None
  }

  /** The pin number an RDA label names: port index times 32 plus the bit. */
  function RdaGpio(rda: string): (r: Option<int>)
    ensures r.Some? ==> 0 <= r.value < 128
  {
    if |rda| == 0 then None
    else
      match (PortIndex(rda[0]), BitNumber(rda[1..]))
      case (Some(port), Some(bit)) => if bit < GPIO_PER_PORT then Some(port * GPIO_PER_PORT + bit) else None
      case _ => None
  }

  /** A label's pin number splits back into the label's port and bit, so the
      pin is served by the IOMUX and IO registers of the labelled port. */
  lemma RdaGpioDecomposes(rda: string)
    requires RdaGpio(rda).Some?
    ensures PortIndex(rda[0]) == Some(PortGroup(RdaGpio(rda).value))
    ensures BitNumber(rda[1..]) == Some(PortOffset(RdaGpio(rda).value))
    ensures IomuxAddress(RdaGpio(rda).value) == Ok(IOMUX_ADDRESSES[PortIndex(rda[0]).value])
  {
    var g := RdaGpio(rda).value;
    var port := PortIndex(rda[0]).value;
    var bit := BitNumber(rda[1..]).value;
    assert g == port * 32 + bit;
    assert g / 32 == port && g % 32 == bit;
  }

  /** A connector row has a pin number exactly when it has an RDA label, and
      the number is the one the label names. */
  predicate RowConsistent(row: PinRow) {
    (row.rda == "" <==> row.gpio == -1) && (row.rda != "" ==> RdaGpio(row.rda) == Some(row.gpio))
  }

  lemma PinsConsistent0()
    ensures forall i :: 0 <= i < 10 ==> RowConsistent(PINS[i])
  {
  }

  lemma PinsConsistent1()
    ensures forall i :: 10 <= i < 20 ==> RowConsistent(PINS[i])
  {
  }

  lemma PinsConsistent2()
    ensures forall i :: 20 <= i < 30 ==> RowConsistent(PINS[i])
  {
  }

  lemma PinsConsistent3()
    ensures forall i :: 30 <= i < |PINS| ==> RowConsistent(PINS[i])
  {
  }

  lemma OtherConsistent()
    ensures forall j :: 0 <= j < |OTHER| ==> RdaGpio(OTHER[j].rda) == Some(OTHER[j].gpio)
  {
  }

  /** Every row of both tables agrees with its RDA label; so every pin number
      in them is -1 or accepted by check_gpio_valid. */
  lemma TablesConsistent()
    ensures forall i :: 0 <= i < |PINS| ==> RowConsistent(PINS[i])
    ensures forall i :: 0 <= i < |PINS| && PINS[i].gpio != -1 ==> CheckGpioValid(Some(PINS[i].gpio)).Done?
    ensures forall j :: 0 <= j < |OTHER| ==> RdaGpio(OTHER[j].rda) == Some(OTHER[j].gpio)
    ensures forall j :: 0 <= j < |OTHER| ==> CheckGpioValid(Some(OTHER[j].gpio)).Done?
  {
    PinsConsistent0();
    PinsConsistent1();
    PinsConsistent2();
    PinsConsistent3();
    OtherConsistent();
  }

  /** The pin-number column of each table. */
  function PinGpios(): (r: seq<int>)
    ensures |r| == |PINS| && forall i :: 0 <= i < |PINS| ==> r[i] == PINS[i].gpio
  {
    seq(|PINS|, i requires 0 <= i < |PINS| => PINS[i].gpio)
  }

  function OtherGpios(): (r: seq<int>)
    ensures |r| == |OTHER| && forall j :: 0 <= j < |OTHER| ==> r[j] == OTHER[j].gpio
  {
    seq(|OTHER|, j requires 0 <= j < |OTHER| => OTHER[j].gpio)
  }

  /** Where each pin number of the tables sits: connector pins by row index,
      on-board pins by 100 plus their row index, any other number -1. It is
      the witness that no number appears in two rows. */
  function RowOf(gpio: int): int {
    if gpio < 20 then
      if gpio == 0 then 14 else if gpio == 1 then 16 else if gpio == 2 then 7 else if gpio == 3 then 13
      else if gpio == 4 then 9 else if gpio == 6 then 11 else if gpio == 9 then 17 else if gpio == 10 then 15
      else if gpio == 11 then 21 else if gpio == 13 then 19 else if gpio == 14 then 10 else if gpio == 15 then 22
      else if gpio == 17 then 104
      else -1
    else if gpio < 50 then
      if gpio == 20 then 23 else if gpio == 22 then 27 else if gpio == 25 then 33 else if gpio == 26 then 32
      else if gpio == 27 then 31 else if gpio == 28 then 30 else if gpio == 29 then 29 else if gpio == 30 then 28
      else if gpio == 38 then 18 else if gpio == 39 then 20 else if gpio == 40 then 2 else if gpio == 41 then 8
      else -1
    else
      if gpio == 56 then 24 else if gpio == 66 then 25 else if gpio == 67 then 26 else if gpio == 98 then 103
      else if gpio == 101 then 102 else if gpio == 102 then 12 else if gpio == 103 then 6 else if gpio == 104 then 4
      else if gpio == 125 then 101 else if gpio == 126 then 100
      else -1
  }

  lemma RowOfPins0()
    ensures forall i :: 0 <= i < 20 && PINS[i].gpio != -1 ==> RowOf(PINS[i].gpio) == i
  {
  }

  lemma RowOfPins1()
    ensures forall i :: 20 <= i < 27 && PINS[i].gpio != -1 ==> RowOf(PINS[i].gpio) == i
  {
  }

  lemma RowOfPins2()
    ensures forall i :: 27 <= i < |PINS| && PINS[i].gpio != -1 ==> RowOf(PINS[i].gpio) == i
  {
  }

  lemma RowOfOther()
    ensures forall j :: 0 <= j < |OTHER| ==> RowOf(OTHER[j].gpio) == 100 + j
  {
  }

  /** No pin number appears twice: not in two connector rows, not in two
      on-board rows, and not in one of each. */
  lemma GpiosUnique()
    ensures forall i, k :: 0 <= i < k < |PINS| && PINS[i].gpio != -1 ==> PINS[i].gpio != PINS[k].gpio
    ensures forall j, l :: 0 <= j < l < |OTHER| ==> OTHER[j].gpio != OTHER[l].gpio
    ensures forall i, j :: 0 <= i < |PINS| && 0 <= j < |OTHER| ==> PINS[i].gpio != OTHER[j].gpio
  {
    RowOfPins0();
    RowOfPins1();
    RowOfPins2();
    RowOfOther();
  }

  /** The two kinds of value do_exports compares a table entry with: a pin
      number, or a GPIO object (which equals no integer). */
  datatype PyValue = PyInt(n: int) | PyGpio(gpio: int)

  /** Python's `==` between a table's integer entry and a value: a GPIO object
      does not define equality, so it is never equal to an integer. */
  predicate PyEquals(entry: int, v: PyValue) {
    v.PyInt? && v.n == entry
  }

  /** The index of the first entry equal to key, as the `for ... break` loops
      of do_exports find it. */
  function FirstMatch(entries: seq<int>, key: PyValue): (r: Option<nat>)
    ensures r.Some? ==> r.value < |entries| && PyEquals(entries[r.value], key) &&
                        forall k :: 0 <= k < r.value ==> !PyEquals(entries[k], key)
    ensures r.None? ==> forall k :: 0 <= k < |entries| ==> !PyEquals(entries[k], key)
  {
    if |entries| == 0 then None
    else if PyEquals(entries[0], key) then Some(0)
    else match FirstMatch(entries[1..], key)
      case None => None
      case Some(k) => Some(k + 1)
  }

  /** The location column of an exported pin in the exports listing. */
  datatype Location = Unlocated | Physical(pin: nat) | Named(name: string)

  /** The location do_exports shows for an exported pin: its connector pin
      (row index plus one) when a connector row holds it, replaced by the
      on-board row's name when an on-board row matches otherKey; otherKey is
      what the second loop compares the rows with. */
  function Locate(gpio: int, otherKey: PyValue): Location {
    var onConnector := FirstMatch(PinGpios(), PyInt(gpio));
    var onBoard := FirstMatch(OtherGpios(), otherKey);
    if onBoard.Some? then Named(OTHER[onBoard.value].name)
    else if onConnector.Some? then Physical(onConnector.value + 1)
    else Unlocated
  }

  /** As written, do_exports compares the on-board rows with the GPIO object
      rather than its number: no on-board pin is ever shown by name. */
  lemma AsWrittenNeverNamed(gpio: int)
    ensures !Locate(gpio, PyGpio(gpio)).Named?
  {
  }

  /** The exported LED2 pin (126) is shown without a location as written, and
      as LED2 once the number is compared. */
  lemma Led2Location()
    ensures Locate(126, PyGpio(126)) == Unlocated
    ensures Locate(126, PyInt(126)) == Named("LED2")
  {
    GpiosUnique();
    assert FirstMatch(OtherGpios(), PyInt(126)) == Some(0);
  }

  /** Comparing pin numbers, every pin of both tables is located at its own
      row: the connector pin i + 1, or the on-board row's name. */
  lemma LocateFindsEveryRow()
    ensures forall i :: 0 <= i < |PINS| && PINS[i].gpio != -1 ==> Locate(PINS[i].gpio, PyInt(PINS[i].gpio)) == Physical(i + 1)
    ensures forall j :: 0 <= j < |OTHER| ==> Locate(OTHER[j].gpio, PyInt(OTHER[j].gpio)) == Named(OTHER[j].name)
  {
    GpiosUnique();
    forall i | 0 <= i < |PINS| && PINS[i].gpio != -1
      ensures Locate(PINS[i].gpio, PyInt(PINS[i].gpio)) == Physical(i + 1)
    {
      var g := PINS[i].gpio;
      UniqueMatch(PinGpios(), i, g);
      NoMatch(OtherGpios(), g);
    }
    forall j | 0 <= j < |OTHER|
      ensures Locate(OTHER[j].gpio, PyInt(OTHER[j].gpio)) == Named(OTHER[j].name)
    {
      UniqueMatch(OtherGpios(), j, OTHER[j].gpio);
    }
  }

  /** An entry that no earlier entry equals is the first match. */
  lemma UniqueMatch(entries: seq<int>, i: nat, gpio: int)
    requires i < |entries| && entries[i] == gpio
    requires forall k :: 0 <= k < i ==> entries[k] != gpio
    ensures FirstMatch(entries, PyInt(gpio)) == Some(i)
  {
  }

  lemma NoMatch(entries: seq<int>, gpio: int)
    requires forall k :: 0 <= k < |entries| ==> entries[k] != gpio
    ensures FirstMatch(entries, PyInt(gpio)) == None
  {
  }

  /** One `for ... break` loop of do_exports: the index of the first entry
      equal to the pin number. */
  method FindFirst(entries: seq<int>, gpio: int) returns (found: Option<nat>)
    ensures found == FirstMatch(entries, PyInt(gpio))
  {
    found := None;
    var i := 0;
    while i < |entries|
      invariant 0 <= i <= |entries|
      invariant forall k :: 0 <= k < i ==> entries[k] != gpio
    {
      if entries[i] == gpio {
        found := Some(i);
        UniqueMatch(entries, i, gpio);
        return;
      }
      i := i + 1;
    }
    NoMatch(entries, gpio);
  }

  /** The location lookup of do_exports with the pin number compared in both
      loops: the connector rows first, then the on-board rows, whose match
      replaces the connector pin. */
  method ExportLocation(gpio: int) returns (location: Location)
    ensures location == Locate(gpio, PyInt(gpio))
  {
    location := Unlocated;
    var onConnector := FindFirst(PinGpios(), gpio);
    if onConnector.Some? {
      location := Physical(onConnector.value + 1);
    }
    var onBoard := FindFirst(OtherGpios(), gpio);
    if onBoard.Some? {
      location := Named(OTHER[onBoard.value].name);
    }
  }
}
