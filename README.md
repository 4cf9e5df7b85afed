# 1-Wire protocol engine and sysparam editor console, modelled in Dafny

This project models two pieces of the esp-open-rtos tree.

The first is the bit-banged 1-Wire master in `extras/onewire/onewire.c`:
- the Dallas/Maxim CRC-8, in both the table-driven and the bit-shifting form;
- the CRC-16 and its check;
- byte and ROM-address framing over the bus (write, read, select, skip ROM);
- the ROM search of Maxim Application Note 187 (`onewire_search_start`, `_prefix`, `_next`).

The second is the two text routines of the sysparam editor console in
`examples/sysparam_editor/sysparam_editor.c`: the hex-string parser
`parse_hexdata` and the line editor `tty_readline`.

The pin is replaced by a `Bus` object (`onewire_bus.dfy`) with three fields:
- `input`: the levels the read slots will sample, in order. Once it is used up, the pull-up keeps the line high and every slot reads 1.
- `presence`: the answers to successive reset pulses. Once it is used up, no device answers.
- `written`: a log of every bit sent in a write slot.

Bytes are `bv8`, the CRC-16 register is `bv16` and `onewire_addr_t` is `bv64`, so
C's unsigned truncation is exact by type. Console characters are bytes too.

Files:
- `wrappers.dfy`: the `Option` type that stands for a NULL or sentinel result.
- `onewire_crc.dfy`: CRC-8 (module `OneWireCrc`).
- `onewire_crc16.dfy`: CRC-16 (module `OneWireCrc16`).
- `onewire_bus.dfy`: the bus and the byte/ROM framing (module `OneWireBus`).
- `onewire_search.dfy`: the ROM search state and `onewire_search_next` (module `OneWireSearch`).
- `sysparam_editor.dfy`: `parse_hexdata` and `tty_readline` (module `SysparamEditor`).

Several C loops become Dafny methods with the same loop structure:
- the CRC loops;
- the bit-mask loops of write and read;
- the byte loops;
- the select loop;
- the search walk and the address assembly;
- the hex parser;
- the line editor.

Each such method is proved against a recursive specification function. Lemmas then state what the source promises about that function.

## Model

| member | source | states |
|---|---|---|
| OneWireCrc.TableLookupIsStep | extras/onewire/onewire.c:313-329 | the 256-entry `dscrc_table` entry at `crc ^ b` equals eight rounds of the x^8+x^5+x^4+1 shift register fed `b` |
| OneWireCrc.TableEntryIsStep | extras/onewire/onewire.c:313-329 | every table entry `x` is the register after shifting in `x` from 0 |
| OneWireCrc.Crc8StepOfXor | extras/onewire/onewire.c:347 | running a byte through a loaded register equals running `crc ^ byte` through a cleared one, which is why one table lookup per byte suffices |
| OneWireCrc.Crc8Table | extras/onewire/onewire.c:342-350 | the table loop returns the CRC-8 of the data (the bitwise reference fold) |
| OneWireCrc.ShiftsWholeByte | extras/onewire/onewire.c:363-368 | eight iterations of the inner mix/shift/xor-0x8C loop are one byte step of the register |
| OneWireCrc.Crc8Bitwise | extras/onewire/onewire.c:356-371 | the bit-shifting loop returns the same CRC-8 as the table loop |
| OneWireCrc.Crc8FromAppend | extras/onewire/onewire.c:346-348 | the CRC of a concatenation continues from the CRC of its first part |
| OneWireCrc.Crc8StepZero | extras/onewire/onewire.c:363-368 | one byte step leaves the register at 0 exactly when the byte equals the register |
| OneWireCrc.Crc8OfMessageAndCrc | extras/onewire/onewire.h:97-99 | data followed by its own CRC-8 has CRC 0 |
| OneWireCrc.ValidRomIffZeroCrc | extras/onewire/onewire.h:97-99 | an 8-byte ROM number whose last byte is the CRC of the first seven is exactly one whose whole CRC is 0 |
| OneWireCrc.Crc8ApplicationNoteExample | extras/onewire/onewire.c:306-307 | the worked example of Application Note 27: ROM 02 1C B8 01 00 00 00 has CRC A2 |
| OneWireCrc.Crc8OfAllOnes | extras/onewire/onewire.h:40-43 | seven 0xFF bytes have CRC-8 0x14, so eight 0xFF bytes fail the ROM check |
| OneWireCrc16.OddParityTable | extras/onewire/onewire.c:414-415 | `oddparity[n]` is the parity of the nibble `n` for all 16 entries |
| OneWireCrc16.ParityOfNibbles | extras/onewire/onewire.c:425 | xoring the two nibble lookups gives the parity of the whole data byte |
| OneWireCrc16.Crc16 | extras/onewire/onewire.c:412-434 | the byte loop returns the fold of the byte step over the input from the seed; on empty input it returns the seed |
| OneWireCrc16.CheckCrc16 | extras/onewire/onewire.c:394-398 | the check is true exactly when the two received bytes are the inverted CRC-16, low byte first |
| OneWireCrc16.Crc16FromAppend | extras/onewire/onewire.c:418-432 | the CRC-16 of a concatenation continues from the CRC-16 of its first part |
| OneWireCrc16.Crc16OfInvertedBytes | extras/onewire/onewire.c:421-431 | shifting the register's own inverted bytes into it always leaves 0xB001 |
| OneWireCrc16.Crc16Residue | extras/onewire/onewire.c:400-407 | a message followed by the inverted CRC bytes a device sends leaves the register at the constant 0xB001 |
| OneWireCrc16.CheckCrc16AcceptsWireCrc | extras/onewire/onewire.c:394-398 | the check accepts the two bytes a device appends to its data |
| OneWireCrc16.Crc16OfZeros | extras/onewire/onewire.c:418-432 | with seed 0, a run of zero bytes keeps the CRC-16 at 0 |
| OneWireCrc16.Crc16CheckValue | extras/onewire/onewire.c:412-434 | with seed 0 the text "123456789" gives 0xBB3D, the published check value of the x^16+x^15+x^2+1 CRC (CRC-16/ARC) |
| OneWireCrc16.Crc16StepFeedback | extras/onewire/onewire.c:421-431 | one byte step is the register shifted right by eight, XORed with a feedback term of the mixed byte alone |
| OneWireCrc16.Crc16StepRegisterInjective | extras/onewire/onewire.c:421-431 | for a fixed data byte, two different registers stay different after the step |
| OneWireCrc16.Crc16StepByteInjective | extras/onewire/onewire.c:421-431 | for a fixed register, two different data bytes give different registers after the step |
| OneWireCrc16.Crc16FromRegisterInjective | extras/onewire/onewire.c:418-432 | two different registers fed the same bytes never meet |
| OneWireCrc16.Crc16DetectsChangedByte | extras/onewire/onewire.c:412-434 | changing any one byte of a message to another value changes its CRC-16 |
| OneWireCrc16.WireCrc16Injective | extras/onewire/onewire.c:394-398 | the two transmitted bytes determine the register they came from |
| OneWireCrc16.CheckCrc16RejectsChangedByte | extras/onewire/onewire.c:394-398 | the check rejects a message with one byte (so in particular one bit) changed after its CRC was sent |
| OneWireBus.MaskShift | extras/onewire/onewire.c:88 | shifting the mask left walks 0x01, 0x02, ..., 0x80 and then 0, which ends the byte loops |
| OneWireBus.NextMask | extras/onewire/onewire.c:88 | `bitMask <<= 1` in the write and read loops: after bit `k` the mask is that of bit `k + 1`, and 0 exactly after the eighth bit |
| OneWireBus.BitsOfByte | extras/onewire/onewire.c:85-110 | assembling the eight bits a write sends gives the byte back |
| OneWireBus.ByteOfBits | extras/onewire/onewire.c:85-110 | splitting an assembled byte gives the eight bits back |
| OneWireBus.DecodeEncode | extras/onewire/onewire.c:93-116 | decoding the bit stream of some bytes gives the bytes back |
| OneWireBus.EncodeDecode | extras/onewire/onewire.c:93-116 | encoding decoded bytes gives the bit stream back |
| OneWireBus.LittleEndianOfRomBytes | extras/onewire/onewire.c:120-130 | the eight low-byte-first bytes of an address reassemble to the address |
| OneWireBus.RomBytesOfLittleEndian | extras/onewire/onewire.c:120-130 | an address assembled from eight bytes, as `onewire_search_next` assembles `rom_no`, is sent by select as exactly those bytes |
| OneWireBus.Bus.Reset | extras/onewire/onewire.c:20-44 | a reset consumes one presence answer and reports whether a device answered; nothing is written or read |
| OneWireBus.Bus.WriteBit | extras/onewire/onewire.c:46-63 | a write slot appends exactly its bit to the bus log |
| OneWireBus.Bus.ReadBit | extras/onewire/onewire.c:65-79 | a read slot returns the next sampled level (1 on an idle bus) and consumes it |
| OneWireBus.Bus.Write | extras/onewire/onewire.c:85-91 | writing a byte sends its eight bits, least significant first, and reads nothing |
| OneWireBus.Bus.Read | extras/onewire/onewire.c:102-110 | reading a byte consumes eight slots and returns them assembled least significant bit first |
| OneWireBus.Bus.WriteBytes | extras/onewire/onewire.c:93-98 | writing `count` bytes sends the bit stream of exactly those bytes in order |
| OneWireBus.Bus.ReadBytes | extras/onewire/onewire.c:112-116 | reading `count` bytes fills exactly `buf[0..count)` with the decoded next `8*count` samples and leaves the rest of the buffer alone |
| OneWireBus.Bus.Select | extras/onewire/onewire.c:120-130 | select sends the command 0x55 and then the eight address bytes, low byte first |
| OneWireBus.Bus.SkipRom | extras/onewire/onewire.c:134-137 | skip ROM sends only the command 0xCC |
| OneWireBus.ReadWrittenBytes | extras/onewire/onewire.c:93-116 | bytes read from a bus that replays what was written come back unchanged |
| OneWireBus.SamplesOfPrefix | extras/onewire/onewire.c:65-79 | sampling as many slots as a prefix of the input holds returns that prefix |
| OneWireSearch.RomBitsOfSetRomBit | extras/onewire/onewire.c:250-253 | setting or clearing one ROM bit under its byte mask changes that bit of the 64-bit view and no other |
| OneWireSearch.RomBitsInjective | extras/onewire/onewire.h:34-38 | the 64-bit view of `rom_no` determines the eight bytes |
| OneWireSearch.PathBit | extras/onewire/onewire.c:229-239 | bit `k` of the walk is the bit all devices agree on, else the stored bit before the last discrepancy, else 1 exactly at it |
| OneWireSearch.PathPrefix | extras/onewire/onewire.c:217-271 | a shorter walk is a prefix of a longer one |
| OneWireSearch.FirstAbortIs | extras/onewire/onewire.c:224-225 | the walk stops at the first pair read as 1,1, or after 64 bits |
| OneWireSearch.FirstAbortFacts | extras/onewire/onewire.c:224-225 | before the stop every pair was answered, and a stop before 64 is a 1,1 pair |
| OneWireSearch.LastZeroPicked | extras/onewire/onewire.c:241-245 | a nonzero `last_zero` marks a discrepancy where 0 was chosen |
| OneWireSearch.LastZeroIsLast | extras/onewire/onewire.c:241-245 | no later discrepancy chose 0 |
| OneWireSearch.NextWalkTurnsAtLastZero | extras/onewire/onewire.c:233-239 | the next search retraces the found address up to `last_discrepancy` and takes 1 there, where it took 0 before |
| OneWireSearch.NoDeviceIsInvalidRom | extras/onewire/onewire.h:40-43 | `ONEWIRE_NONE`, split into its eight bytes, is not a valid ROM address: its CRC byte does not match |
| OneWireSearch.OneDeviceNeverAborts | extras/onewire/onewire.c:224-225 | with a single device on the bus no 1,1 pair is read, so the walk covers all 64 bits, whatever the bus samples after the device's 128 answers |
| OneWireSearch.OneDevicePath | extras/onewire/onewire.c:229-245 | with a single device the walk takes the device's address bit for bit and records no discrepancy, whatever the bus samples after the device's 128 answers |
| OneWireSearch.OneDeviceFoundOnce | extras/onewire/onewire.c:217-271 | with a single device the walk covers all 64 bits, takes the device's address bit for bit and leaves the last zero at 0, whatever the bus samples after the device's 128 answers |
| OneWireSearch.SearchOneDevice | extras/onewire/onewire.c:184-304 | from a fresh state on a bus with one device, the first call stores the device's address in `rom_no`; if byte 0 is nonzero it returns that address and sets `last_device_found`, and if byte 0 is 0 the address is rejected and `ONEWIRE_NONE` returned; the second call returns `ONEWIRE_NONE` in both cases: after a found last device it does not touch the bus, and after a rejected address the device answers the second search too, the same address is walked again and rejected again |
| OneWireSearch.AddressFromIsLittleEndian | extras/onewire/onewire.c:296-300 | folding `rom_no[7]` down to `rom_no[0]` with `(addr << 8) \| byte` is the little-endian value of the bytes |
| OneWireSearch.SearchState.constructor | extras/onewire/onewire.h:34-38 | a new search state is all zero with no device found |
| OneWireSearch.SearchState.Start | extras/onewire/onewire.c:150-154 | starting zeroes the whole state: the ROM bytes, the last discrepancy and the last-device flag |
| OneWireSearch.SearchState.Prefix | extras/onewire/onewire.c:159-169 | a prefix search stores the family code in byte 0, zeroes the rest and sets the last discrepancy to 64 |
| OneWireSearch.SearchState.StoredBit | extras/onewire/onewire.c:236 | `(rom_no[byte] & mask) > 0` reads bit `p` of the 64-bit view |
| OneWireSearch.SearchState.ChooseDirection | extras/onewire/onewire.c:229-245 | the direction rule and the `last_zero` update for one bit |
| OneWireSearch.SearchState.StoreBit | extras/onewire/onewire.c:250-253 | setting or clearing the bit under the mask changes exactly bit `p` of the ROM number |
| OneWireSearch.SearchState.TakeDirection | extras/onewire/onewire.c:248-256 | storing the direction under the mask and writing it on the bus extends both the leading ROM bits and the bus log by that direction |
| OneWireSearch.SearchState.ReadBitPair | extras/onewire/onewire.c:219-220 | the two read slots of a step return the devices' bit and its complement and consume exactly two samples |
| OneWireSearch.SearchState.FollowDirection | extras/onewire/onewire.c:227-256 | one answered step extends the walk by the direction of the search rule, updates `last_zero` as the rule says, and stores and writes that direction |
| OneWireSearch.NextPosition | extras/onewire/onewire.c:260-268 | mask and byte counter advance to the next bit position, wrapping the mask into the next byte |
| OneWireSearch.SearchState.Walk | extras/onewire/onewire.c:217-271 | the do-while loop writes the walk's directions, stores them as the leading ROM bits, consumes two samples per bit (or up to the 1,1 pair), and returns the bit counter and `last_zero` |
| OneWireSearch.SearchState.RomAddress | extras/onewire/onewire.c:296-300 | the returned address is `rom_no` read little-endian, `rom_no[7]` most significant |
| OneWireSearch.SearchState.Next | extras/onewire/onewire.c:184-304 | covers the three outcomes and the state each leaves (see below) |
| SysparamEditor.HexDigitValues | examples/sysparam_editor/sysparam_editor.c:128-133 | `'0'..'9'` stand for 0..9 and `'A'..'F'` and `'a'..'f'` stand for 10..15 |
| SysparamEditor.NibbleIsTableDigit | examples/sysparam_editor/sysparam_editor.c:128-133 | every character accepted as a digit is the table digit of its value in one of the two cases |
| SysparamEditor.RejectsOtherCharacter | examples/sysparam_editor/sysparam_editor.c:134-139 | any character other than a hex digit or a space makes the parse return NULL |
| SysparamEditor.ParseHexRejects | examples/sysparam_editor/sysparam_editor.c:136-150 | NULL exactly for a rejected character or an odd number of digits |
| SysparamEditor.SpaceIgnored | examples/sysparam_editor/sysparam_editor.c:134-135 | inserting a space anywhere does not change the result |
| SysparamEditor.ParseHexLength | examples/sysparam_editor/sysparam_editor.c:140-151 | on success `*result_length` is half the digit count and never more than `strlen / 2` |
| SysparamEditor.ParseHexByte | examples/sysparam_editor/sysparam_editor.c:140-144 | on success byte `k` is digit `2k` in the high nibble or-ed with digit `2k+1` |
| SysparamEditor.PackIndex | examples/sysparam_editor/sysparam_editor.c:140-144 | the pairing of digit values puts digit `2k` in the high and digit `2k+1` in the low nibble of byte `k` |
| SysparamEditor.NibblesLength | examples/sysparam_editor/sysparam_editor.c:119-120 | a string has at most as many digits as characters, and as many exactly when every character is a digit |
| SysparamEditor.ParseHexEncode | examples/sysparam_editor/sysparam_editor.c:118-153 | parsing the upper-case hex text of any bytes gives the bytes back |
| SysparamEditor.ParseHexdataAsWritten | examples/sysparam_editor/sysparam_editor.c:118-153 | the code as written returns the parse result, and its store at line 141 falls outside the `strlen / 2` buffer exactly for all-digit strings of odd length |
| SysparamEditor.OneDigitOverruns | examples/sysparam_editor/sysparam_editor.c:120-141 | "1": the buffer has 0 bytes and the high nibble is stored at index 0 |
| SysparamEditor.ThreeDigitsOverrun | examples/sysparam_editor/sysparam_editor.c:120-141 | "123": the buffer has 1 byte; "12" fills byte 0, so the third digit is stored at index 1; the parse returns NULL |
| SysparamEditor.ParseHexdata | examples/sysparam_editor/sysparam_editor.c:118-153 | with the corrected allocation every store is in bounds; the result is NULL exactly when the parse fails, and otherwise the first `*result_length` bytes are the parsed bytes |
| SysparamEditor.Edit | examples/sysparam_editor/sysparam_editor.c:63-66 | the edited line never holds more than `buf_size - 1` characters |
| SysparamEditor.FirstReturn | examples/sysparam_editor/sysparam_editor.c:53-55 | the position of the carriage return that ends the line, with none before it |
| SysparamEditor.TtyReadline | examples/sysparam_editor/sysparam_editor.c:47-73 | reads up to the first `'\r'`, leaves the edited line NUL-terminated in the buffer, returns its length (at most `buf_size - 1`), leaves the rest of the input unread and does not write past `buf_size` |
| SysparamEditor.EditStorable | examples/sysparam_editor/sysparam_editor.c:56-66 | no control character and no DEL ever reaches the buffer |
| SysparamEditor.EditPlainText | examples/sysparam_editor/sysparam_editor.c:63-66 | typed text without control characters is kept as typed, cut at `buf_size - 1` characters |
| SysparamEditor.EditIgnoresControl | examples/sysparam_editor/sysparam_editor.c:61-62 | among the keys typed before the carriage return that ends the line, a control character other than backspace changes nothing |
| SysparamEditor.EditBackspaceUndoes | examples/sysparam_editor/sysparam_editor.c:56-60 | typing a character while there is room and then backspace restores the line |
| SysparamEditor.EditFullDrops | examples/sysparam_editor/sysparam_editor.c:63-64 | a character typed into a full line is dropped |
| SysparamEditor.EditBackspaceOnEmpty | examples/sysparam_editor/sysparam_editor.c:56-57 | backspace or DEL on an empty line does nothing |

The three outcomes of `OneWireSearch.SearchState.Next`:
- **Last device already found.** No bus traffic. `ONEWIRE_NONE` is returned, `last_discrepancy` and `last_device_found` are cleared, and `rom_no` keeps the last address found.
- **No presence pulse.** `ONEWIRE_NONE` is returned and the ROM bytes are kept.
- **A walk.** The Search ROM command and the walk are written. If all 64 bits were answered and `rom_no[0] != 0`:
  - the little-endian address is returned;
  - `last_discrepancy` becomes the last zero;
  - the last-device flag is set exactly when that is 0.

  Otherwise `ONEWIRE_NONE` is returned, `last_discrepancy` and `last_device_found` are cleared, and `rom_no` keeps the bits the walk stored.

## Left out

- Timing: every `sdk_os_delay_us` and the idle-wait retry count of `onewire_reset`. The model has no notion of time.
- Pins: GPIO directions and levels. `onewire_power` and `onewire_depower` drive the pin only, so they are not modelled. The bus object stands for the wire.
- Critical sections (`taskENTER_CRITICAL`/`taskEXIT_CRITICAL`): preemption control has no effect on the sequential model.
- The `printf` of a found address in `onewire_search_next`.
- The prototypes in `onewire.h`: only its struct and `ONEWIRE_NONE` are used. The header declares `int` pins and `size_t` lengths and says read returns a negative value on error. The model follows the `.c` file. It uses `uint8_t` pins, `uint8_t` lengths for both `onewire_crc8` variants, `uint16_t` lengths for the byte transfers and the CRC-16, and no error path.
- The source has only the parity-table CRC-16. The model does not prove it equal to the textbook reflected register with feedback constant 0xA001. The CRC-16 properties proved are the 0xB001 residue, the check round trip, single-byte error detection, the parity table and the standard check value.
- `OneWireCrc16.Crc16`: the loop body calls the step function `Crc16Step`, which is the C statements in order, rather than repeating the statements inline. (`OneWireCrc.Crc8Bitwise` has the C statements inline.)
- `OneWireCrc16.CheckCrc16`: rejection is proved for one changed byte, and so for any one changed bit. It is not claimed for every pair of different messages, because two changed bytes can cancel out in a 16-bit CRC.
- `OneWireSearch.SearchState.Next`: the header promises that repeated calls return every device on the bus once, in a fixed order, and then `ONEWIRE_NONE`. That enumeration is proved only for a bus with one device (`SearchOneDevice`), and there a device whose address byte 0 is 0 is never returned, by the first call or by the next one on a bus where it answers again, because the search treats `rom_no[0] == 0` as no device. The general theorem needs a wired-AND bus over a set of addresses whose answers depend on the directions written, and that is not modelled. The bus replays recorded samples, and each call of `Next` is specified against those samples.
- `OneWireSearch.SearchState.Walk` also calls small methods for groups of C statements, each specified against the 64-bit view of `rom_no`:
  - `ReadBitPair` for the two reads;
  - `FollowDirection` for choosing, storing and writing the direction, which uses `ChooseDirection` (and through it `StoredBit`) and `TakeDirection` (and through it `StoreBit`);
  - `NextPosition` for advancing the mask.
- The rest of the sysparam editor: the command loop of `sysparam_editor_task`, `dump_params`, `usage`, `print_text_value`, `print_binary_value` and `user_init`. These are wrappers over the sysparam store, the console and FreeRTOS.
- Echo output of `tty_readline`: the `echo` argument only controls what is printed.
- End of input in `tty_readline`: the input is required to contain a carriage return. `getchar`'s EOF is below 0x20, so it is ignored and the C loop never ends.
- `malloc` failure in `parse_hexdata`: allocation always succeeds in the model.
- `parse_hexdata`'s `int` counters are unbounded here; strings longer than `INT_MAX` are not considered.

## Findings

| source | as written | input that shows it | evidently intended | confidence | as-written member | corrected member |
|---|---|---|---|---|---|---|
| examples/sysparam_editor/sysparam_editor.c:120-141 | `buf` is allocated with `strlen / 2` bytes, but a pending high nibble is stored at `buf[j]` before the loop knows whether its low nibble follows. With an odd number of characters that are all digits, the last digit is stored at index `strlen / 2`, one past the allocation, before the string is rejected for its odd digit count. | `"1"`: `malloc(0)` and then `buf[0] = 0x10`. `"123"`: `malloc(1)` and then `buf[1] = 0x30`. | every store lands inside the buffer; the result is unchanged | not executed | SysparamEditor.ParseHexdataAsWritten | SysparamEditor.ParseHexdata |
