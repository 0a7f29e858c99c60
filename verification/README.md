# DS1302 real-time clock driver, modelled in Dafny

The driver in `Clock_Libs/time/time.h` talks to a DS1302 real-time clock over
its three-wire interface (CE, SCLK, bidirectional I/O). It keeps a copy of the
chip's 8-byte clock register block (`ds_time`, a struct of BCD bitfields). It
moves that block to and from the chip with the clock burst commands, and it
translates the block to and from a plain time record (`int_time`) and to the
texts "HH:MM:SS" and "DD/MM/YYYY". The weekday is not trusted from the caller
or from the chip: it is recomputed from the date with Sakamoto's formula.

The model has these modules:

- `CInt`: C's truncating `/` and `%`.
- `Bcd`: the three BCD macros.
- `Calendar`: the leap-year rule, month lengths and the day-of-week formula.
  It also holds an independent day count from Saturday 1 January 2000, and the
  formula is proved equal to that count.
- `Registers`: the register block as 8 bytes, with each bitfield at the bit
  position that LSB-first bitfield allocation gives it. It also has the encoder
  of `_DS1302_set_date_time`, the decoder of `_DS1302_get_time_and_date`, and
  the round trips between them.
- `Transport`: the bit-serial exchange as a trace of events (`Start`,
  `WriteBit`, `Release`, `ReadBit`, `Stop`). It models `_DS1302_togglewrite`
  and `_DS1302_toggleread` and what the chip latches from a trace.
- `RegisterAccess`: the command bytes, single-register reads and writes, and
  the clock burst read and write.
- `TextFormat`: `%0Nd` printing and its inverse. It also models the two texts
  of `_DS1302_get_time` and `_DS1302_get_date`.
- `Device`: the driver object, meaning its pins and its copy of the block, and
  its public operations, with end-to-end properties.

The chip's side of a read is a parameter: the levels it drives on the I/O line.
Every operation that talks to the chip returns the trace of what it did on the
wire.

## Model

| member | source | states |
|---|---|---|
| CInt.CRem | Clock_Libs/time/time.h:600 | C's remainder agrees with the Euclidean one on non-negative dividends |
| Bcd.BcdToBin | Clock_Libs/time/time.h:106 | two decimal digits join to a value of at most 99 |
| Bcd.BinToBcdHigh | Clock_Libs/time/time.h:107 | the tens digit h satisfies 10h <= x < 10h + 10 |
| Bcd.BinToBcdLow | Clock_Libs/time/time.h:108 | the units digit is a decimal digit and equals x less ten times the tens digit |
| Bcd.BinToBcdRoundTrip | Clock_Libs/time/time.h:106-108 | splitting a value up to 99 into BCD digits and joining them gives it back, and both digits are decimal |
| Bcd.BcdToBinRoundTrip | Clock_Libs/time/time.h:106-108 | joining two decimal digits and splitting the value gives the digits back |
| CInt.CRemZero | Clock_Libs/time/time.h:600 | for every dividend, of either sign, C's remainder is zero exactly when the Euclidean one is |
| CInt.MultipleHasNoRemainder | Clock_Libs/time/time.h:600 | a multiple of a positive number leaves no remainder |
| Calendar.IsLeapYear | Clock_Libs/time/time.h:598-608 | for every int year: leap iff divisible by 4 and either not by 100 or by 400 |
| Calendar.DivisibilityChain | Clock_Libs/time/time.h:600 | a multiple of 400 is a multiple of 100, and a multiple of 100 is a multiple of 4 |
| Calendar.LeapYearExamples | Clock_Libs/time/time.h:598-608 | 2000, 2400 and 2024 are leap years; 1900, 2100 and 2023 are not |
| Calendar.NumDayInMonth | Clock_Libs/time/time.h:610-627 | the table lookup equals the reference rule (30 days for April, June, September and November, and so on); every month has 28 to 31 days; February has 29 days iff the year is leap, and 28 otherwise |
| Calendar.DayOfWeek | Clock_Libs/time/time.h:629-635 | the result is a weekday 0..6 |
| Calendar.YearTermStep | Clock_Libs/time/time.h:634 | the year part of the formula grows from one year to the next by that year's length less 364 |
| Calendar.DriftIsSix | Clock_Libs/time/time.h:631-634 | on every date, the formula's sum before the remainder exceeds the days since 1 January 2000 by 6 modulo 7 |
| Calendar.DayOfWeekCountsDays | Clock_Libs/time/time.h:629-635 | the formula gives the weekday reached by counting days from Saturday 1 January 2000 (0 is Sunday) |
| Calendar.WeeksApartSameWeekday | Clock_Libs/time/time.h:629-635 | two dates a whole number of weeks apart, even across months and years, get the same weekday |
| Calendar.NextDayNextWeekday | Clock_Libs/time/time.h:629-635 | the next day of a month gets the next weekday, modulo 7 |
| Calendar.DayOfWeekExample | Clock_Libs/time/time.h:518 | 15 April 2013 is a Monday, named "MON" in the weekday names |
| Registers.SecondsByteLayout | Clock_Libs/time/time.h:203-205 | byte 0: seconds units in bits 0-3, seconds tens in bits 4-6, clock halt in bit 7; each accessor's value, shifted back to its offset, is the byte under that field's mask |
| Registers.MinutesByteLayout | Clock_Libs/time/time.h:206-208 | byte 1: minutes units in bits 0-3, minutes tens in bits 4-6, reserved bit 7 |
| Registers.HoursByteLayout | Clock_Libs/time/time.h:209-226 | byte 2: hour units in bits 0-3 in both views; 24-hour tens in bits 4-5; 12-hour tens in bit 4 and AM/PM in bit 5; reserved bit 6; 12/24 flag in bit 7 |
| Registers.DateByteLayout | Clock_Libs/time/time.h:227-229 | byte 3: date units in bits 0-3, date tens in bits 4-5, reserved bits 6-7 |
| Registers.MonthByteLayout | Clock_Libs/time/time.h:230-232 | byte 4: month units in bits 0-3, month tens in bit 4, reserved bits 5-7 |
| Registers.DayByteLayout | Clock_Libs/time/time.h:233-234 | byte 5: day of week in bits 0-2, reserved bits 3-7 |
| Registers.YearByteLayout | Clock_Libs/time/time.h:235-236 | byte 6: year units in bits 0-3, year tens in bits 4-7 |
| Registers.ControlByteLayout | Clock_Libs/time/time.h:237-238 | byte 7: reserved bits 0-6, write protect in bit 7 |
| Registers.HourView | Clock_Libs/time/time.h:209-226 | the union is read through the 24-hour view exactly when the 12/24 flag is 0; both views share the units digit; the tens field is 2 bits wide in the 24-hour view and 1 bit in the 12-hour view |
| Registers.DecodedSeconds | Clock_Libs/time/time.h:570 | `bcd2bin` of the seconds fields is at most 85 for any block, so it always fits the `uint8_t` field |
| Registers.DecodedMinutes | Clock_Libs/time/time.h:569 | `bcd2bin` of the minutes fields is at most 85 for any block |
| Registers.DecodedHours | Clock_Libs/time/time.h:568 | `bcd2bin` of the 24-hour fields is at most 45 for any block |
| Registers.DecodedDate | Clock_Libs/time/time.h:573 | `bcd2bin` of the date fields is at most 45 for any block |
| Registers.DecodedMonth | Clock_Libs/time/time.h:572 | `bcd2bin` of the month fields is at most 25 for any block |
| Registers.DecodedYear | Clock_Libs/time/time.h:571 | `bcd2bin` of the year fields is at most 165 for any block |
| Registers.SexagesimalRegister | Clock_Libs/time/time.h:537-541 | a seconds or minutes byte holds the units digit, the tens digit truncated to 3 bits, and a clear bit 7 |
| Registers.HoursRegister | Clock_Libs/time/time.h:548-550 | an hours byte holds the units digit and the tens digit truncated to 2 bits; the reserved bit and the 12/24 flag are clear |
| Registers.DateRegister | Clock_Libs/time/time.h:551-552 | a date byte holds the units digit and the 2-bit tens digit; the reserved bits are clear |
| Registers.MonthRegister | Clock_Libs/time/time.h:553-554 | a month byte holds the units digit and the 1-bit tens digit; the reserved bits are clear |
| Registers.DayRegister | Clock_Libs/time/time.h:557 | the weekday byte holds the value modulo 8; the reserved bits are clear |
| Registers.YearRegister | Clock_Libs/time/time.h:558-559 | a year byte holds the units digit and the 4-bit tens digit |
| Registers.ControlRegister | Clock_Libs/time/time.h:560 | write protect and the reserved bits of the last byte are clear |
| Registers.EncodeRegisters | Clock_Libs/time/time.h:535-560 | every bitfield of the zero-filled block gets the BCD digit stored into it, truncated to its width; CH, 12/24 and WP are 0 and every reserved field is 0 |
| Registers.EncodeTime | Clock_Libs/time/time.h:557 | the stored weekday is the one computed from the date, and the caller's day is ignored; the clock runs, in 24-hour mode, with writes enabled |
| Registers.FitsWeekdayField | Clock_Libs/time/time.h:557 | the weekday the formula gives for any date is unchanged by the 3-bit day field |
| Registers.WithWeekday | Clock_Libs/time/time.h:574 | storing a weekday changes only the day field, to the value modulo 8; the reserved bits and the other seven bytes are kept |
| Registers.DecodeTime | Clock_Libs/time/time.h:566-575 | each field is ten times its tens bitfield plus its units bitfield; hours are read through the 24-hour view; the day is the weekday of the decoded date |
| Registers.DigitsFit | Clock_Libs/time/time.h:537-559 | a value below ten times a tens field's capacity is stored without truncation |
| Registers.EncodeInRangeIsCanonical | Clock_Libs/time/time.h:535-560 | a time in the documented ranges encodes without truncation into a block with decimal digits, flags and reserved bits clear, and a consistent weekday |
| Registers.EncodeDecodeRoundTrip | Clock_Libs/time/time.h:535-575 | decoding the encoding of an in-range time gives every field back, and the day becomes the weekday of the date |
| Registers.EncodeTimeBytes | Clock_Libs/time/time.h:535-560 | the encoded block is byte for byte the register encodings of the seven fields and the control byte |
| Registers.SexagesimalRegisterOfFields | Clock_Libs/time/time.h:537-541 | a well-formed seconds or minutes byte is the encoding of the value it decodes to |
| Registers.HoursRegisterOfFields | Clock_Libs/time/time.h:548-550 | a well-formed 24-hour byte is the encoding of the value it decodes to |
| Registers.DateRegisterOfFields | Clock_Libs/time/time.h:551-552 | a well-formed date byte is the encoding of the value it decodes to |
| Registers.MonthRegisterOfFields | Clock_Libs/time/time.h:553-554 | a well-formed month byte is the encoding of the value it decodes to |
| Registers.DayRegisterOfFields | Clock_Libs/time/time.h:557 | a day byte with the reserved bits clear is the encoding of its weekday field |
| Registers.YearRegisterOfFields | Clock_Libs/time/time.h:558-559 | a year byte with a decimal units digit is the encoding of the value it decodes to |
| Registers.ControlRegisterOfFields | Clock_Libs/time/time.h:560 | a last byte with every bit clear is the one the encoder writes |
| Registers.DecodeEncodeRoundTrip | Clock_Libs/time/time.h:566-575 | re-encoding the time decoded from a canonical block rebuilds the block bit for bit |
| Registers.HourTensOverlap | Clock_Libs/time/time.h:209-226 | in the hours union, the 2-bit tens of the 24-hour view spans the tens bit and the AM/PM bit of the 12-hour view |
| Registers.TwelveHourRegisterMisread | Clock_Libs/time/time.h:568 | with the 12/24 flag set, the decoder adds twenty hours for PM to the 12-hour view's digits |
| Registers.TwentyFourHourRegisterRead | Clock_Libs/time/time.h:568 | with the 12/24 flag clear, the decoder reads exactly the 24-hour view's digits |
| Transport.BitIsShiftedBit | Clock_Libs/time/time.h:481 | `bitRead(b, i)` tested through the mask of bit i is `(b >> i) & 1` |
| Transport.BitsOf | Clock_Libs/time/time.h:478-481 | the eight bits of a byte, bit i at position i, least significant first |
| Transport.ByteOfBitsOf | Clock_Libs/time/time.h:447-460 | reassembling the wire bits of a byte gives the byte back |
| Transport.BitsOfInjective | Clock_Libs/time/time.h:478-481 | different bytes put different bit sequences on the wire |
| Transport.BitsOfBytes | Clock_Libs/time/time.h:332-336 | a byte sequence puts eight bits per byte on the wire |
| Transport.BytesOfBitsOfBytes | Clock_Libs/time/time.h:300-304 | regrouping the wire bits of a byte sequence into bytes, eight at a time, gives the sequence back |
| Transport.BitsOfBytesInjective | Clock_Libs/time/time.h:319-338 | byte sequences with the same wire bits are equal |
| Transport.HostBitsAppend | Clock_Libs/time/time.h:474-510 | the levels latched from two traces in a row are the first's followed by the second's |
| Transport.FramedCountsBoundaries | Clock_Libs/time/time.h:406-432 | a framed session raises CE exactly once and lowers it exactly once |
| Transport.Writes | Clock_Libs/time/time.h:478-486 | one bit write per level, in order |
| Transport.HostBitsOfWrites | Clock_Libs/time/time.h:478-486 | the chip latches exactly the levels written, and a run of writes neither releases nor reads |
| Transport.ReadsLatchNothing | Clock_Libs/time/time.h:447-461 | clock pulses with samples latch nothing into the chip and stay within the session |
| Transport.SetKeepsBit | Clock_Libs/time/time.h:460 | setting bit i keeps any other bit k |
| Transport.ClearKeepsBit | Clock_Libs/time/time.h:460 | clearing bit i keeps any other bit k |
| Transport.OtherBitsKept | Clock_Libs/time/time.h:460 | setting or clearing one bit keeps every other bit |
| Transport.BitWrite | Clock_Libs/time/time.h:460 | the chosen bit takes the given value and the other seven are kept |
| Transport.WritesOfByte | Clock_Libs/time/time.h:474-510 | eight bit writes of a byte, plus a release if asked, latch that byte and contain a release iff one was asked |
| Transport.ToggleWrite | Clock_Libs/time/time.h:474-510 | bit i of the data goes out as the i-th event, least significant first; with release, event 8 releases the line; the chip latches the data; nothing is read, and there is a release iff one was asked |
| Transport.ToggleRead | Clock_Libs/time/time.h:442-463 | sample i becomes bit i of the result; eight read pulses and nothing else |
| Transport.Loopback | Clock_Libs/time/time.h:442-510 | a byte sent with `_DS1302_togglewrite` and read back with `_DS1302_toggleread` from the levels the chip latched is the byte sent, with or without release |
| RegisterAccess.ReadCommand | Clock_Libs/time/time.h:358 | the read bit is set and bits 1-7 of the address are kept |
| RegisterAccess.WriteCommand | Clock_Libs/time/time.h:384 | the read bit is clear and bits 1-7 of the address are kept |
| RegisterAccess.CommandsDifferInReadBit | Clock_Libs/time/time.h:353-392 | the read command is the write command with bit 0 set, and the write command has bit 0 clear |
| RegisterAccess.CommandPair | Clock_Libs/time/time.h:111-114 | an address whose lowest bit is 0 is its own write command, and its read command is the address plus one |
| RegisterAccess.ClockRegisterCommands | Clock_Libs/time/time.h:115-121 | the seven clock registers are written at 0x80, 0x82 … 0x8C and read at 0x81, 0x83 … 0x8D |
| RegisterAccess.ControlCommands | Clock_Libs/time/time.h:122-126 | ENABLE is written at 0x8E and read at 0x8F; TRICKLE is written at 0x90 and read at 0x91; the clock burst write is 0xBE and the read is 0xBF |
| RegisterAccess.FramedSession | Clock_Libs/time/time.h:406-432 | Start, then an inner trace without boundaries, then Stop, is one framed session |
| RegisterAccess.InSessionAppend | Clock_Libs/time/time.h:286-338 | two traces without session boundaries in a row still have none |
| RegisterAccess.HostBitsOfSession | Clock_Libs/time/time.h:406-432 | raising and lowering CE latches nothing |
| RegisterAccess.ReadSession | Clock_Libs/time/time.h:360-364 | a command written with release, then read pulses, framed: the chip latches only the command, the line is released at event 9, and only pulses follow |
| RegisterAccess.WriteSession | Clock_Libs/time/time.h:386-391 | two byte writes framed as one session: the chip latches both in order, and there is no release and no read |
| RegisterAccess.Read | Clock_Libs/time/time.h:353-367 | one framed 19-event session: the chip latches only the read command, then releases the line and gets 8 read pulses; the data's bits are the samples |
| RegisterAccess.Write | Clock_Libs/time/time.h:381-392 | one framed 18-event session: the chip latches the write command and then the data; no release, no read |
| RegisterAccess.BurstRead | Clock_Libs/time/time.h:286-306 | one framed 75-event session: the chip latches only 0xBF, the line is released at event 9 and 64 read pulses follow; the block's wire bits are the 64 samples |
| RegisterAccess.ReadBytes | Clock_Libs/time/time.h:300-304 | reading consecutive bytes: the bytes' wire bits are exactly the samples, with one read pulse per sample |
| RegisterAccess.BitsOfBytesAppend | Clock_Libs/time/time.h:332-336 | one more byte adds its eight bits at the end |
| RegisterAccess.BurstWrite | Clock_Libs/time/time.h:319-338 | one framed 74-event session: the chip latches 0xBE followed by the block's 64 bits, byte 0 first; no release, no read |
| TextFormat.Digits | Clock_Libs/time/time.h:580 | at least one decimal digit, with no leading zero for positive numbers |
| TextFormat.PadDec | Clock_Libs/time/time.h:580 | %0Nd: never empty, all decimal digits, exactly N characters when the number has fewer than N digits and otherwise as many as its digits; longer than N only without a leading zero, or as the single "0" that zero prints at width 0 |
| TextFormat.ParseDigits | Clock_Libs/time/time.h:580 | the printed digits of a number parse back to it |
| TextFormat.PadDecRoundTrip | Clock_Libs/time/time.h:580 | a zero-padded number parses back to the number, whatever the width |
| TextFormat.TwoDigits | Clock_Libs/time/time.h:580 | a number below 100 prints under %02d as exactly its tens digit and its units digit |
| TextFormat.FourDigits | Clock_Libs/time/time.h:588 | a four-digit number prints under %04d as exactly its four digits |
| TextFormat.JoinedFields | Clock_Libs/time/time.h:580 | the fields and the separators of the "a:b:c" and "a/b/c" layouts sit at positions 0-1, 2, 3-4, 5 and 6 on |
| TextFormat.TimeString | Clock_Libs/time/time.h:578-584 | the time text is 8 characters: two decimal digits, ':', two digits, ':', two digits, for every block |
| TextFormat.DateString | Clock_Libs/time/time.h:586-592 | the date text is 10 characters: two digits, '/', two digits, '/', four digits, for every block |
| TextFormat.JoinParses | Clock_Libs/time/time.h:580-591 | each field of a join of zero-padded numbers parses back to its number |
| TextFormat.TimeStringParses | Clock_Libs/time/time.h:578-584 | the three fields of the time text parse back to the decoded hours, minutes and seconds |
| TextFormat.DateStringParses | Clock_Libs/time/time.h:586-592 | the fields of the date text parse back to the decoded date, the decoded month and 2000 plus the decoded year |
| TextFormat.CenturyDigits | Clock_Libs/time/time.h:591 | 2000 + x for x up to 165 prints as four digits starting "20" for x up to 99 and "21" above |
| TextFormat.DateStringCentury | Clock_Libs/time/time.h:591 | the date text's century is "20" iff the year register holds at most 99, and "21" otherwise |
| TextFormat.JoinCentury | Clock_Libs/time/time.h:588-591 | the century digits of a joined date text, as a function of the year value |
| TextFormat.TwoDigitsOfBcd | Clock_Libs/time/time.h:580 | two BCD digits print under %02d as themselves |
| TextFormat.TimeStringShowsNibbles | Clock_Libs/time/time.h:578-584 | for a canonical block the time text is exactly the registers' BCD nibbles as characters |
| TextFormat.TimeStringOfDigits | Clock_Libs/time/time.h:578-584 | a block whose decoded fields have the given decimal digits prints those digits |
| TextFormat.DateStringShowsNibbles | Clock_Libs/time/time.h:586-592 | for a canonical block the date text is the date and month nibbles, then "20" and the year nibbles |
| TextFormat.DateStringOfDigits | Clock_Libs/time/time.h:586-592 | a block whose decoded date fields have the given decimal digits prints them, with century "20" |
| TextFormat.YearOfBcd | Clock_Libs/time/time.h:591 | a two-digit BCD year prints under %04d as "20" followed by its digits |
| Device.Construct | Clock_Libs/time/time.h:258-265 | the pins are recorded; two framed single-byte writes follow, in which the chip latches 0x8E then 0, and 0x90 then 0; nothing is read |
| Device.Update | Clock_Libs/time/time.h:593-596 | the driver's block is the 64 bits the chip drives and the pins are kept; the 75-event session latches only the burst read command 0xBF, releases the line at event 9 and then carries 64 read pulses |
| Device.GetTimeAndDate | Clock_Libs/time/time.h:566-576 | the record gets each decoded field; its day is the weekday the formula gives for the decoded date, month and year, and the same weekday is stored in the block; the block keeps every other byte and its reserved bits |
| Device.GetTimeAndDateIdempotent | Clock_Libs/time/time.h:566-576 | a second read changes nothing further and returns the same record |
| Device.KeepsConsistentWeekday | Clock_Libs/time/time.h:574 | storing the weekday a block already holds leaves it unchanged |
| Device.GetTimeAndDateKeepsCanonical | Clock_Libs/time/time.h:566-576 | on a canonical block, reading the time leaves the driver unchanged |
| Device.SetDateTime | Clock_Libs/time/time.h:512-564 | only the block changes, to the encoding of the time; one framed session in which the chip latches 0xBE and the new block's bits; nothing is read |
| Device.SetThenGetTimeAndDate | Clock_Libs/time/time.h:512-576 | after setting an in-range time the block is canonical, and reading it back gives the time set, with the weekday of its date |
| Device.SetThenUpdate | Clock_Libs/time/time.h:512-596 | a chip that echoes the burst-written bits on the next burst read gives the driver exactly the block it wrote; both sessions are framed |
| Device.EchoRestoresBlock | Clock_Libs/time/time.h:300-335 | a block read back from the bits a burst write sent after its command byte is the block written |
| Device.SetDateTimeExample | Clock_Libs/time/time.h:518-527 | setting 15 April 2013, 10:08:00 stores Monday and reads back as "10:08:00" and "15/04/2013", whatever day the caller passes |

## Left out

- Pin I/O and timing: `pinMode`, `digitalWrite` of CE and SCLK, and `delayMicroseconds` become the abstract events `Start`, `WriteBit`, `Release`, `ReadBit` and `Stop`. The levels the chip drives during a read are a parameter.
- The destructor (lines 266-269) only lowers CE, which is a lone `Stop` event; it has no property worth stating.
- The RAM registers and burst (0xC0-0xFF) and the trickle-charge bit names are not modelled, because the driver never uses them. The constructor's write of 0 to the trickle register is modelled.
- The 12-hour encoding is not modelled because the driver never writes it. The hours register is read as a union (`HourView`), and the decoder's reading of a 12-hour byte is stated by `TwelveHourRegisterMisread`.
- `sprintf` into the caller's buffer: the texts are returned as strings. Buffer size and the terminating NUL are not modelled.
- The class member `b_time` is never read: the parameters of `_DS1302_set_date_time` and `_DS1302_get_time_and_date` shadow it, so the driver state has only the pins and the block.
- The block is not initialised by the constructor, so its initial contents are a parameter of `Device.Construct`.
- Calendar.NumDayInMonth: requires a month in 1..12, because the source indexes a 12-entry table with `month - 1` and has no defined behaviour outside that range.
- Calendar.DayOfWeek: requires a month in 1..12, because the source indexes a 12-entry table with `month - 1` and has no defined behaviour outside that range.
- Registers.EncodeTime: requires a month in 1..12, because the source indexes a 12-entry table with `month - 1` and has no defined behaviour outside that range.
- Registers.DecodeTime: requires a month in 1..12, because the source indexes a 12-entry table with `month - 1` and has no defined behaviour outside that range.
- Device.GetTimeAndDate: requires a month in 1..12, because the source indexes a 12-entry table with `month - 1` and has no defined behaviour outside that range.
- Calendar.DayOfWeek: takes the day and year as natural numbers. The driver passes only `uint8_t` values, so every operand of `/` and `%` is non-negative, and C's truncating division agrees with Dafny's. Negative arguments are not modelled.
- Bcd.BcdToBin: takes natural numbers, because the macro is applied only to bitfields and `uint8_t` fields.
- Bcd.BinToBcdHigh: takes natural numbers, because the macro is applied only to bitfields and `uint8_t` fields.
- Bcd.BinToBcdLow: takes natural numbers, because the macro is applied only to bitfields and `uint8_t` fields.
- RegisterAccess.Read: takes the address as a byte. The source takes an `int`, but `_DS1302_togglewrite` truncates it to `uint8_t`, and every call passes a constant below 256.
- RegisterAccess.Write: takes the address as a byte. The source takes an `int`, but `_DS1302_togglewrite` truncates it to `uint8_t`, and every call passes a constant below 256.
- Device.SetDateTime: requires a month in 1..12, because it encodes through `dayofweek`, which indexes a 12-entry table with `month - 1`.
- Device.SetThenUpdate: requires a month in 1..12, for the same reason as `Device.SetDateTime`, which it calls.
- Registers.EncodeTime: its own contract states the weekday and the flags. The truncated BCD fields are stated by `Registers.EncodeRegisters`, which it returns, and are connected to decoding by `Registers.EncodeDecodeRoundTrip` and `Registers.DecodeEncodeRoundTrip`.
- The comment at line 518 calls Monday the "2nd day of Week", and the struct comment at line 233 says the day counts from 1. The code stores `dayofweek`, which gives 0 for Sunday and 1 for Monday; the model follows the code.
