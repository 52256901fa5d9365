# cpm_shoot: GPIO register access and target ranking

This project models two parts of the cpm_shoot repository and proves properties about them.

**opio.py** (`second_party/opio.py`) is a re-implementation of the WiringPi `gpio` tool for the OrangePi i96 board, which uses the RDA8810 chip. A pin number is split into a port group (`gpio // 32`) and a bit offset (`gpio % 32`). The port group indexes two 4-entry tables, in the order A, B, D, C:

- the IOMUX registers, where bit set means GPIO mode and bit clear means the pin's special function;
- the IO register blocks, with the direction register at offset 0 (bit set means input) and the data register at offset 0xc.

Every access maps the first 32 bytes of the page that holds the register through `/dev/mem`. It reads the little-endian 32-bit word at the in-page offset. For a write it sets or clears the pin's bit and stores the word back. On top of this sit:

- the `GPIO` and `GPIO_DIRECT` pin objects;
- the sysfs exports;
- the write command;
- the two board tables: the 40-pin connector and the on-board pins.

**exp.py** (`second_party/exp.py`) ranks the first five detected points by their distance to a reference marker at (300, 300).

## Modules

- `bits.dfy` (module `Bits`): Python's `&`, `|` and `& ~` on non-negative integers, defined bit by bit.
- `results.dfy` (module `Results`): the `Result` and `Outcome` types, and the errors the modelled operations raise or exit with.
- `registers.dfy` (module `Registers`) models `mem_get` and `mem_set`:
  - physical memory is a function from address to byte;
  - the page split and the 32-byte mapping, including Python's slice clipping;
  - `struct.pack` and `struct.unpack` of `"<L"`;
  - the read-modify-write of a mask.
- `opio.dfy` (module `Opio`):
  - the pin-number arithmetic and the address tables, with Python's negative tuple indexing;
  - `get_iomux` and `low_level_read` as functions of memory;
  - `set_iomux`, `low_level_write` and `low_level_set_mode`, each as the memory it leaves behind;
  - the mode report of `GPIO_DIRECT.get_mode_value`, `check_gpio_valid` and the value parsing of `do_write`.

  Class `Hardware` holds memory, the export set and what was written to each export's `direction` and `value` files. Its methods are the state-changing operations. MemSet, SetIomux, LowLevelWrite, LowLevelSetMode, Prepare and DirectSet are proved against pure effect functions of memory (MemSetEffect, IomuxEffect, LowLevelWriteEffect, SetModeEffect, PrepareEffect, DirectSetEffect). CreateExport, RemoveExport, SysfsSetMode and SysfsSet state the new export set or file map directly.
- `board.dfy` (module `Board`) covers `board_i96.PINS` and `board_i96.other`:
  - the RDA port labels and their agreement with the pin numbers;
  - the uniqueness of the pin numbers;
  - the location lookup of `do_exports`.
- `ranking.dfy` (module `Ranking`) covers `sorting`. The distance is kept squared. The sort is a stable insertion sort by that key.

## Model

| member | source | states |
|---|---|---|
| Registers.PageSplit | second_party/opio.py:142-143 | `a & ~0xFFF` plus `a & 0xFFF` is `a`; the offset is below 4096; the base has no bit in common with 0xFFF |
| Registers.MappedBytes | second_party/opio.py:155-157 | the slice `mem[off:off+4]` of the 32-byte mapping has 4 bytes exactly when `off + 4 <= 32`, and byte i is physical memory at address + i |
| Registers.Unpack | second_party/opio.py:157 | `unpack("<L")` succeeds exactly on four bytes |
| Registers.Pack | second_party/opio.py:164 | `pack("<L")` succeeds exactly for values below 2^32 and gives four bytes |
| Registers.UnpackPack | second_party/opio.py:157-164 | unpacking what was packed gives the word back |
| Registers.PackUnpack | second_party/opio.py:157-164 | packing what was unpacked gives the four bytes back |
| Registers.SetBits | second_party/opio.py:159-162 | defines the new register value, `data \| bitmask` for a truthy value and `data & ~bitmask` otherwise; its properties are in SetBitsBit, SetBitsBound and SetBitsIdempotent |
| Registers.SetBitsBit | second_party/opio.py:159-162 | after `data \|= mask` or `data &= ~mask`, every bit under the mask equals the value and every other bit keeps its old state |
| Registers.SetBitsBound | second_party/opio.py:159-164 | a 32-bit word with a 32-bit mask stays below 2^32, so the pack cannot fail |
| Registers.SetBitsIdempotent | second_party/opio.py:159-162 | applying the same set or clear twice equals applying it once |
| Registers.MemGet | second_party/opio.py:169-174 | mem_get succeeds exactly when the word fits the mapping, and returns the word anded with the mask |
| Registers.MemSetEffect | second_party/opio.py:152-164 | defines the memory mem_set leaves behind: load the word, apply SetBits, pack and store it, failing where the load or the pack fails; its properties are in MemSetSucceeds, MemSetStores, MemGetAfterMemSet, MemSetPreservesOthers and MemSetIdempotent |
| Registers.MemSetSucceeds | second_party/opio.py:152-164 | mem_set with a 32-bit mask fails exactly when the word does not fit the mapping |
| Registers.LoadAfterStore | second_party/opio.py:164 | the stored word reads back, and no byte outside the four written changes |
| Registers.LoadAfterStoreElsewhere | second_party/opio.py:164 | a word that does not overlap the store reads as before |
| Registers.MemSetStores | second_party/opio.py:157-164 | mem_set leaves the old word with exactly the masked bits set or cleared |
| Registers.MemGetAfterMemSet | second_party/opio.py:152-174 | mem_get with the same mask after mem_set returns the whole mask for a truthy value and 0 otherwise |
| Registers.MemSetPreservesOthers | second_party/opio.py:152-164 | mem_set leaves unchanged the mem_get of every bit outside its mask and of every non-overlapping word |
| Registers.MemSetIdempotent | second_party/opio.py:152-164 | repeating a mem_set changes no byte of memory |
| Opio.PinDecomposition | second_party/opio.py:219-221 | `gpio == port_group * 32 + port_offset` with `0 <= port_offset < 32`, and `1 << port_offset` is a single bit of a 32-bit word |
| Opio.PyIndex | second_party/opio.py:221 | tuple indexing succeeds exactly for `-len <= i < len` and yields an element of the tuple |
| Opio.UsedRegistersFit | second_party/opio.py:287-294 | every IOMUX register, and every IO base plus the direction or data offset, lies in the first 32 bytes of its page |
| Opio.RegistersResolve | second_party/opio.py:296-299 | the address tables index without error exactly for pins -128..127; pins 0..127 have port group 0..3; the registers formed fit the mapping |
| Opio.AcceptedPinsResolve | second_party/opio.py:411-414 | every pin check_gpio_valid accepts has port group 0..3, resolves to the table entries of its group, and its registers fit the mapping |
| Opio.GetIomux | second_party/opio.py:225-231 | get_iomux succeeds exactly for pins -128..127, and returns `1 << offset` when the pin's IOMUX bit is set, 0 otherwise |
| Opio.LowLevelRead | second_party/opio.py:296-302 | low_level_read of a direction or data register succeeds for pins -128..127, and returns 1 when the pin's bit is set, 0 otherwise |
| Opio.IomuxEffect | second_party/opio.py:215-221 | defines the memory set_iomux leaves behind: mem_set of the pin's IOMUX bit; its properties are in IomuxThenRead, IomuxKeepsOtherPins and IomuxKeepsReads |
| Opio.LowLevelWriteEffect | second_party/opio.py:304-308 | defines the memory low_level_write leaves behind: mem_set of the pin's bit at the register offset, with the value tested for truth; its properties are in WriteThenRead, WriteKeepsOtherReads and WriteKeepsIomux |
| Opio.DirectionValue | second_party/opio.py:310-314 | 'alt' is refused; otherwise the direction written is 0 exactly for 'out' and 1 for any other string |
| Opio.SetModeEffect | second_party/opio.py:310-314 | defines the memory low_level_set_mode leaves behind: the refusal of 'alt', else low_level_write of the direction bit; its properties are in SetModeThenRead |
| Opio.PrepareEffect | second_party/opio.py:242-244 | defines the preamble of GPIO_DIRECT.set and .get: a pin found in its special function is switched by set_iomux(1) and set_mode, any other pin's memory is kept; its properties are in PrepareThenRead and PrepareSwitches |
| Opio.DirectSetEffect | second_party/opio.py:240-245 | defines the memory GPIO_DIRECT.set leaves behind: the preamble with 'out', then low_level_write of the data bit; its properties are in DirectSetThenRead |
| Opio.DirectModeValue | second_party/opio.py:252-260 | GPIO_DIRECT.get_mode_value succeeds exactly for pins -128..127, and reports '?' exactly when the pin's IOMUX bit is clear; the mode strings are stated by AltAfterIomuxOff, ModeAfterSetMode and ExportMarker |
| Opio.CheckGpioValid | second_party/opio.py:411-414 | a pin is accepted exactly when it is present and in 0..127, and a rejection is InvalidGpio; an accepted pin has a port group that indexes both address tables (more in AcceptedPinsResolve) |
| Opio.ParseWriteValue | second_party/opio.py:429-435 | the write value is 1 exactly for '1', 'on', 'ON', 0 exactly for '0', 'off', 'OFF', and anything else is rejected |
| Opio.RegistersDisjoint | second_party/opio.py:130-136 | the four IOMUX registers and the eight direction and data registers are twelve words, no two of which overlap |
| Opio.SamePortDifferentBit | second_party/opio.py:297-300 | two different pins of the same port have masks with no bit in common |
| Opio.WriteThenRead | second_party/opio.py:296-308 | after low_level_write, low_level_read of the same pin and register returns 1 exactly when the value written is truthy |
| Opio.ReadsAgree | second_party/opio.py:296-302 | low_level_read depends on memory only through the mem_get of the pin's own register and bit |
| Opio.IoRegistersApart | second_party/opio.py:296-299 | two pins' registers are the same word when the pins share a port and the offset, and do not overlap otherwise |
| Opio.WriteKeepsOtherReads | second_party/opio.py:304-308 | a low_level_write to a pin in 0..127 leaves the reading of every other pin in 0..127, and of the same pin's other register, unchanged; a negative pin is not covered, since Python's negative indexing makes it share a register and bit with a pin in 0..127 (pin -1 with pin 127) |
| Opio.IomuxThenRead | second_party/opio.py:215-231 | after set_iomux, get_iomux returns the pin's bit for GPIO mode and 0 for the special function |
| Opio.IomuxKeepsOtherPins | second_party/opio.py:215-221 | set_iomux of a pin in 0..127 leaves the get_iomux of every other pin in 0..127 unchanged; a negative pin is not covered, since Python's negative indexing makes it share a register and bit with a pin in 0..127 (pin -1 with pin 127) |
| Opio.IomuxKeepsReads | second_party/opio.py:215-221 | for pins in -128..127, every pin the address tables accept, set_iomux leaves every pin's direction and data readings unchanged |
| Opio.WriteKeepsIomux | second_party/opio.py:304-308 | for pins in -128..127, every pin the address tables accept, low_level_write leaves every pin's get_iomux unchanged |
| Opio.SetModeThenRead | second_party/opio.py:310-314 | low_level_set_mode fails exactly for 'alt'; otherwise the direction bit reads 0 for 'out' and 1 for anything else, and the data and IOMUX bits are unchanged |
| Opio.AltAfterIomuxOff | second_party/opio.py:252-255 | after set_iomux(False), get_mode_value reports ('alt', '?') |
| Opio.ModeAfterSetMode | second_party/opio.py:252-263 | in GPIO mode, after set_mode the report is 'out' for 'out' and 'in' otherwise, with '*' exactly when the pin has no export, and the unchanged data bit |
| Opio.ExportMarker | second_party/opio.py:256-260 | for a pin in GPIO mode the export set decides only the '*' marker: the mode without the export is the mode with it plus '*', and the value is the same |
| Opio.PrepareThenRead | second_party/opio.py:240-250 | after the preamble of GPIO_DIRECT.set and .get the pin is in GPIO mode and its data bit is unchanged; a pin that was in its special function gets the direction, and any other pin keeps its memory |
| Opio.PrepareSwitches | second_party/opio.py:242-244 | for a pin in its special function the preamble is set_iomux(1) followed by set_mode, and both succeed |
| Opio.DirectSetThenRead | second_party/opio.py:240-245 | after GPIO_DIRECT.set the data bit is the truth of the value, the pin is in GPIO mode, and the direction is 'out' if the pin was switched and unchanged otherwise |
| Opio.Hardware.MemSet | second_party/opio.py:152-164 | the memory afterwards is the mem_set effect, or is unchanged with the error |
| Opio.Hardware.CreateExport | second_party/opio.py:268-277 | afterwards the export set is the old one plus the pin |
| Opio.Hardware.RemoveExport | second_party/opio.py:279-283 | afterwards the export set is the old one minus the pin |
| Opio.Hardware.SetIomux | second_party/opio.py:215-224 | the memory is the set_iomux effect; a successful switch to the special function also removes the export |
| Opio.Hardware.LowLevelWrite | second_party/opio.py:304-308 | the memory afterwards is the low_level_write effect |
| Opio.Hardware.LowLevelSetMode | second_party/opio.py:310-314 | the memory afterwards is the low_level_set_mode effect; 'alt' fails and changes nothing |
| Opio.Hardware.OpenGpio | second_party/opio.py:190-193 | the `GPIO` constructor puts the pin in GPIO mode and, when that succeeds, adds its export |
| Opio.Hardware.Prepare | second_party/opio.py:242-249 | the memory afterwards is the preamble effect, and the exports are unchanged |
| Opio.Hardware.DirectSet | second_party/opio.py:240-245 | the memory afterwards is the GPIO_DIRECT.set effect, and the exports are unchanged |
| Opio.Hardware.DirectGet | second_party/opio.py:246-250 | after the preamble GPIO_DIRECT.get returns low_level_read of the data bit of the new memory; a failing preamble changes nothing |
| Opio.Hardware.SysfsSetMode | second_party/opio.py:208-210 | the pin's direction file holds the mode string |
| Opio.Hardware.SysfsSet | second_party/opio.py:202-206 | the pin's direction file holds 'out' and its value file the value |
| Opio.Hardware.DoWrite | second_party/opio.py:424-436 | an invalid pin changes nothing; a valid pin is put in GPIO mode and exported; then a good value is written with direction 'out', and a bad value fails with nothing written |
| Board.RdaGpio | second_party/opio.py:136-140 | a well-formed RDA label names a pin number below 128 |
| Board.RdaGpioDecomposes | second_party/opio.py:219-221 | a label's pin number has the label's port as its port group and the label's number as its offset, and selects the IOMUX register of that port |
| Board.TablesConsistent | second_party/opio.py:72-123 | every connector row has a pin number exactly when it has an RDA label, and every pin number of both tables equals the one its label names and is accepted by check_gpio_valid |
| Board.GpiosUnique | second_party/opio.py:72-123 | no pin number appears in two rows of the connector table, two on-board rows, or one of each |
| Board.FirstMatch | second_party/opio.py:389-396 | the index found is the first entry equal to the key; none means no entry is equal |
| Board.Locate | second_party/opio.py:388-396 | defines the location do_exports shows: the on-board row's name if the second loop matches, else the connector pin, else nothing; its properties are in AsWrittenNeverNamed, Led2Location and LocateFindsEveryRow, and ExportLocation's loops are proved to compute it |
| Board.AsWrittenNeverNamed | second_party/opio.py:393-396 | comparing the on-board rows with the GPIO object, no pin is ever located by an on-board name |
| Board.Led2Location | second_party/opio.py:393-396 | once do_exports runs, exported pin 126 (LED2) is listed without a location as written, and as LED2 when the pin number is compared |
| Board.LocateFindsEveryRow | second_party/opio.py:389-396 | comparing pin numbers, every connector pin is located at connector pin i + 1 and every on-board pin by its row name |
| Board.FindFirst | second_party/opio.py:389-392 | the `for ... break` loop returns the first matching index |
| Board.ExportLocation | second_party/opio.py:388-396 | the two lookup loops of do_exports give the location of the reference definition |
| Ranking.SortByDistance | second_party/exp.py:11 | defines the stable sort by distance as an insertion sort; its properties are in SortPermutes, SortSorted, SortStable and SortOfSorted |
| Ranking.Ranking | second_party/exp.py:8-11 | defines the result of sorting: the (point, own distance) pairs of the points, sorted by distance; Sorting is proved to compute it and SampleRanking evaluates it on the sample |
| Ranking.InsertPermutes | second_party/exp.py:11 | inserting adds exactly the inserted entry |
| Ranking.SortPermutes | second_party/exp.py:11 | the sort is a permutation of its input |
| Ranking.SortSorted | second_party/exp.py:11 | the sort orders entries by ascending distance |
| Ranking.SortStable | second_party/exp.py:11 | entries at equal distance keep their input order |
| Ranking.SortOfSorted | second_party/exp.py:11 | an already ordered list is left as it is |
| Ranking.Sorting | second_party/exp.py:4-12 | fewer than five points give IndexError, exactly; otherwise the result is the ranking of the first five alone: five entries, sorted by distance, a permutation of the five (point, own distance) pairs, and stable |
| Ranking.SamplePairs | second_party/exp.py:15 | the sample points have squared distances 180000, 50000, 210698, 10000 and 100000 |
| Ranking.SampleRanking | second_party/exp.py:15-17 | the sample ranks as (300,200), (100,200), (0,200), (0,0), (343,757) |

## Left out

- The `/dev/mem` file and mmap, the sysfs files and `pin_has_export` are I/O. Memory is a function from address to byte, the exports a set of pin numbers, and the `direction` and `value` files maps from pin to the last string and value written.
- PermissionError handling and every `sys.exit` are left out. An exit is modelled as a failed outcome that changes nothing afterwards. This covers the low_level_set_mode refusal of 'alt', a rejected pin and a bad write value.
- create_export's failure path (the export still missing after writing the export file) is left out. It depends on the kernel.
- Opio.Hardware.DoWrite: the command dispatcher calls `f()` with no arguments (opio.py line 530), so `do_write(gpio, extra)` raises TypeError before its body runs. Inside the body, `check_gpio_valid()` is called without its argument (line 427), another TypeError. The value is read from the global `args.extra` (line 429), which is set when the script runs (line 510) and does not raise. The model takes the pin and the value as parameters, checks the pin and parses the value, as evidently intended. `do_write` always builds a sysfs `GPIO` (`GPIO_factory(gpio, False)`, line 428), so `-d` has no effect on a write, although the usage text promises a low-level write. The model follows the code, which is why Hardware.DirectSet has no caller.
- Ranking.Sorting: `hard_str.sort(lambda x: x[1])` passes the key positionally, which Python 3 rejects. The model sorts by the distance as evidently intended.
- Ranking.Sorting: the distance is kept as the squared integer distance, not the floating-point square root. The order is the same unless two different squared distances round to the same float square root. In that case Python keeps input order and the model orders by squared distance.
- `do_read` and `do_mode` are command handlers. Their sequencing is not a member of its own; each pin operation they perform is. `do_read` either constructs a `GPIO` (Hardware.OpenGpio) and reads its sysfs value file, or calls GPIO_DIRECT.get (Hardware.DirectGet). `do_mode` with no mode reports DirectModeValue. With any mode other than 'alt' and without `-d`, it first constructs a `GPIO` (Hardware.OpenGpio: set_iomux(True), then the export is created). Then for 'in' or 'out' it calls Hardware.SetIomux(true) followed by Hardware.SysfsSetMode, or Hardware.LowLevelSetMode with `-d`. With 'alt' it calls Hardware.SetIomux(false) on a GPIO_DIRECT, which removes the export.
- `do_read` and `do_mode` call `check_gpio_valid()` without its argument (opio.py lines 418 and 441), which raises TypeError before any pin operation. The model states the evidently intended check as CheckGpioValid.
- `do_readall`, `do_readallx`, `do_leds`, the output formatting of `do_exports`, argparse and the command dispatch are presentation.
- `GPIO.get` and `GPIO.get_mode_value` read the sysfs files back, and the kernel's connection of those files to the registers is not modelled.
- `board_auto_sense` probes the hardware and is left out. It runs before every command (opio.py line 512). For `readallx`, `status`, `statusx`, `leds` and `exports` (the set at line 327, where `readall` is misspelt `readll`) it first reads `board_2g.config_file` at line 328, and `board_2g` is never defined. So, as written, these commands raise NameError and never reach their handlers. The lookup of `do_exports` is modelled as its body would run.
- Logging calls have no effect on the state and are left out.
- pwm.py, servo.py, detect_blue.py, second_party/dist.py and main.py are not part of this model. They are timing loops, camera capture and an empty state skeleton.

## Findings

| source | as written | input that shows it | evidently intended | confidence | as-written member | corrected member |
|---|---|---|---|---|---|---|
| second_party/opio.py:394 | `board.other[i][2]==gpio` compares a table integer with the `GPIO` object, which is never equal | once do_exports runs, an export of pin 126 (LED2) is listed with an empty location | compare with `gpio.gpio`, so pin 126 is listed as LED2 | not executed | Board.AsWrittenNeverNamed | Board.LocateFindsEveryRow |
