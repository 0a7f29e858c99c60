/**
 The 8-byte clock register block of the DS1302 as the driver lays it out,
 and the translation between it and the driver's plain time record.

 The driver declares the block as a struct of bitfields (with an anonymous
 union for the hours register) and relies on the compiler allocating fields
 from the least significant bit up. Here the block is an explicit sequence
 of 8 bytes, and each bitfield is read by a mask and a shift at the position
 that allocation gives it:

   byte 0: seconds units 0-3, seconds tens 4-6, clock halt 7
   byte 1: minutes units 0-3, minutes tens 4-6, reserved 7
   byte 2: hour units 0-3, then either (24-hour) hour tens 4-5, reserved 6
           or (12-hour) hour tens 4, AM/PM 5, reserved 6; 12/24 flag 7
   byte 3: date units 0-3, date tens 4-5, reserved 6-7
   byte 4: month units 0-3, month tens 4, reserved 5-7
   byte 5: day of week 0-2, reserved 3-7
   byte 6: year units 0-3, year tens 4-7
   byte 7: reserved 0-6, write protect 7
 */
module Registers {
  import opened Bcd
  import opened Calendar

  type uint8 = x: int | 0 <= x < 256

  /** The driver's plain time record (`int_time`); every field is an unsigned byte. */
  datatype IntTime = IntTime(
    seconds: uint8,
    minutes: uint8,
    hours: uint8,
    day: uint8,
    date: uint8,
    month: uint8,
    year: uint8)

  /** The clock register block (`ds_time`), byte 0 first. */
  type Snapshot = s: seq<bv8> | |s| == 8 witness [0, 0, 0, 0, 0, 0, 0, 0]

  /** The `width` bits of `b` from bit `lo` upward, as a number. */
  function Field(b: bv8, lo: nat, width: nat): nat
    requires 1 <= width <= 7 && lo + width <= 8
  {
    ((b >> lo) & (((1 as bv8) << width) - 1)) as int
  }

  // ---------------------------------------------------------------------
  // Bitfield accessors

  function SecondsUnits(s: Snapshot): (v: nat) ensures v < 16 { Field(s[0], 0, 4) }
  function SecondsTens(s: Snapshot): (v: nat) ensures v < 8 { Field(s[0], 4, 3) }
  function ClockHalt(s: Snapshot): (v: nat) ensures v < 2 { Field(s[0], 7, 1) }

  function MinutesUnits(s: Snapshot): (v: nat) ensures v < 16 { Field(s[1], 0, 4) }
  function MinutesTens(s: Snapshot): (v: nat) ensures v < 8 { Field(s[1], 4, 3) }
  function Reserved1(s: Snapshot): (v: nat) ensures v < 2 { Field(s[1], 7, 1) }

  /** Hour units: the same bits in the 24-hour and the 12-hour view. */
  function HourUnits(s: Snapshot): (v: nat) ensures v < 16 { Field(s[2], 0, 4) }
  /** Hour tens of the 24-hour view (`h24.Hour10`). */
  function HourTens24(s: Snapshot): (v: nat) ensures v < 4 { Field(s[2], 4, 2) }
  /** Hour tens of the 12-hour view (`h12.Hour10`). */
  function HourTens12(s: Snapshot): (v: nat) ensures v < 2 { Field(s[2], 4, 1) }
  /** AM/PM bit of the 12-hour view: 0 for AM, 1 for PM. */
  function AmPm(s: Snapshot): (v: nat) ensures v < 2 { Field(s[2], 5, 1) }
  function Reserved2(s: Snapshot): (v: nat) ensures v < 2 { Field(s[2], 6, 1) }
  /** The 12/24 flag: 0 for the 24-hour view, 1 for the 12-hour view. */
  function HourMode(s: Snapshot): (v: nat) ensures v < 2 { Field(s[2], 7, 1) }

  function DateUnits(s: Snapshot): (v: nat) ensures v < 16 { Field(s[3], 0, 4) }
  function DateTens(s: Snapshot): (v: nat) ensures v < 4 { Field(s[3], 4, 2) }
  function Reserved3(s: Snapshot): (v: nat) ensures v < 4 { Field(s[3], 6, 2) }

  function MonthUnits(s: Snapshot): (v: nat) ensures v < 16 { Field(s[4], 0, 4) }
  function MonthTens(s: Snapshot): (v: nat) ensures v < 2 { Field(s[4], 4, 1) }
  function Reserved4(s: Snapshot): (v: nat) ensures v < 8 { Field(s[4], 5, 3) }

  function Weekday(s: Snapshot): (v: nat) ensures v < 8 { Field(s[5], 0, 3) }
  function Reserved5(s: Snapshot): (v: nat) ensures v < 32 { Field(s[5], 3, 5) }

  function YearUnits(s: Snapshot): (v: nat) ensures v < 16 { Field(s[6], 0, 4) }
  function YearTens(s: Snapshot): (v: nat) ensures v < 16 { Field(s[6], 4, 4) }

  function Reserved6(s: Snapshot): (v: nat) ensures v < 128 { Field(s[7], 0, 7) }
  function WriteProtect(s: Snapshot): (v: nat) ensures v < 2 { Field(s[7], 7, 1) }

  // Each accessor reads exactly its own bits: shifted back into place, its value is the byte under the field's mask.

  /** Byte 0: SecondsUnits in bits 0-3, SecondsTens in bits 4-6, ClockHalt in bit 7. */
  lemma SecondsByteLayout(s: Snapshot)
    ensures SecondsUnits(s) as bv8 == s[0] & 0x0F
    ensures (SecondsTens(s) as bv8) << 4 == s[0] & 0x70
    ensures (ClockHalt(s) as bv8) << 7 == s[0] & 0x80
  {
  }

  /** Byte 1: MinutesUnits in bits 0-3, MinutesTens in bits 4-6, Reserved1 in bit 7. */
  lemma MinutesByteLayout(s: Snapshot)
    ensures MinutesUnits(s) as bv8 == s[1] & 0x0F
    ensures (MinutesTens(s) as bv8) << 4 == s[1] & 0x70
    ensures (Reserved1(s) as bv8) << 7 == s[1] & 0x80
  {
  }

  /** Byte 2: hour units in bits 0-3; in the 24-hour view tens in bits 4-5, in the 12-hour view tens in bit 4 and AM/PM in bit 5; reserved bit 6; 12/24 flag in bit 7. */
  lemma HoursByteLayout(s: Snapshot)
    ensures HourUnits(s) as bv8 == s[2] & 0x0F
    ensures (HourTens24(s) as bv8) << 4 == s[2] & 0x30
    ensures (Reserved2(s) as bv8) << 6 == s[2] & 0x40
    ensures (HourMode(s) as bv8) << 7 == s[2] & 0x80
    ensures (HourTens12(s) as bv8) << 4 == s[2] & 0x10 && (AmPm(s) as bv8) << 5 == s[2] & 0x20
  {
  }

  /** Byte 3: DateUnits in bits 0-3, DateTens in bits 4-5, Reserved3 in bits 6-7. */
  lemma DateByteLayout(s: Snapshot)
    ensures DateUnits(s) as bv8 == s[3] & 0x0F
    ensures (DateTens(s) as bv8) << 4 == s[3] & 0x30
    ensures (Reserved3(s) as bv8) << 6 == s[3] & 0xC0
  {
  }

  /** Byte 4: MonthUnits in bits 0-3, MonthTens in bit 4, Reserved4 in bits 5-7. */
  lemma MonthByteLayout(s: Snapshot)
    ensures MonthUnits(s) as bv8 == s[4] & 0x0F
    ensures (MonthTens(s) as bv8) << 4 == s[4] & 0x10
    ensures (Reserved4(s) as bv8) << 5 == s[4] & 0xE0
  {
  }

  /** Byte 5: Weekday in bits 0-2, Reserved5 in bits 3-7. */
  lemma DayByteLayout(s: Snapshot)
    ensures Weekday(s) as bv8 == s[5] & 0x07
    ensures (Reserved5(s) as bv8) << 3 == s[5] & 0xF8
  {
  }

  /** Byte 6: YearUnits in bits 0-3, YearTens in bits 4-7. */
  lemma YearByteLayout(s: Snapshot)
    ensures YearUnits(s) as bv8 == s[6] & 0x0F
    ensures (YearTens(s) as bv8) << 4 == s[6] & 0xF0
  {
  }

  /** Byte 7: Reserved6 in bits 0-6, WriteProtect in bit 7. */
  lemma ControlByteLayout(s: Snapshot)
    ensures Reserved6(s) as bv8 == s[7] & 0x7F
    ensures (WriteProtect(s) as bv8) << 7 == s[7] & 0x80
  {
    assert Reserved6(s) == (s[7] & 0x7F) as int;
    ByteRoundTrip(s[7] & 0x7F);
  }

  /** A byte converted to a number and back is the same byte. */
  lemma ByteRoundTrip(b: bv8)
    ensures (b as int) as bv8 == b
  {
  }

  /** The hours register read through the union: the 12/24 flag selects the view. */
  datatype HourRegister =
    | Hour24(tens: nat, units: nat)
    | Hour12(tens: nat, units: nat, pm: bool)

  function HourView(s: Snapshot): (h: HourRegister)
    ensures h.Hour24? <==> HourMode(s) == 0
    ensures h.units == HourUnits(s) && h.units < 16
    ensures h.tens < (if h.Hour24? then 4 else 2)
  {
    if HourMode(s) == 0 then Hour24(HourTens24(s), HourUnits(s))
    else Hour12(HourTens12(s), HourUnits(s), AmPm(s) == 1)
  }

  // ---------------------------------------------------------------------
  // Field values as the driver decodes them (always the 24-hour view)

  function DecodedSeconds(s: Snapshot): (v: nat) ensures v <= 85 { BcdToBin(SecondsTens(s), SecondsUnits(s)) }
  function DecodedMinutes(s: Snapshot): (v: nat) ensures v <= 85 { BcdToBin(MinutesTens(s), MinutesUnits(s)) }
  function DecodedHours(s: Snapshot): (v: nat) ensures v <= 45 { BcdToBin(HourTens24(s), HourUnits(s)) }
  function DecodedDate(s: Snapshot): (v: nat) ensures v <= 45 { BcdToBin(DateTens(s), DateUnits(s)) }
  function DecodedMonth(s: Snapshot): (v: nat) ensures v <= 25 { BcdToBin(MonthTens(s), MonthUnits(s)) }
  function DecodedYear(s: Snapshot): (v: nat) ensures v <= 165 { BcdToBin(YearTens(s), YearUnits(s)) }

  // ---------------------------------------------------------------------
  // Encoding

  /*
   `_DS1302_set_date_time` zero-fills the block and then stores into its
   bitfields; a store keeps the value modulo 2^width, as C does for an
   unsigned bitfield. Since the stores go to distinct fields of zeroed bytes,
   each register byte is the units digit in bits 0-3, the truncated tens digit
   above it, and zeros elsewhere; the clock-halt, 12/24 and write-protect
   flags are explicitly stored as 0.
   */

  /** Seconds or minutes register: units, 3-bit tens, bit 7 clear. */
  function SexagesimalRegister(x: uint8): (b: bv8)
    ensures Field(b, 0, 4) == x % 10 && Field(b, 4, 3) == (x / 10) % 8 && Field(b, 7, 1) == 0
  {
    (BinToBcdLow(x) as bv8) | (((BinToBcdHigh(x) % 8) as bv8) << 4)
  }

  /** Hours register, 24-hour view: units, 2-bit tens, reserved bit and 12/24 flag clear. */
  function HoursRegister(x: uint8): (b: bv8)
    ensures Field(b, 0, 4) == x % 10 && Field(b, 4, 2) == (x / 10) % 4
    ensures Field(b, 6, 1) == 0 && Field(b, 7, 1) == 0
  {
    (BinToBcdLow(x) as bv8) | (((BinToBcdHigh(x) % 4) as bv8) << 4)
  }

  /** Date register: units, 2-bit tens, reserved bits clear. */
  function DateRegister(x: uint8): (b: bv8)
    ensures Field(b, 0, 4) == x % 10 && Field(b, 4, 2) == (x / 10) % 4 && Field(b, 6, 2) == 0
  {
    (BinToBcdLow(x) as bv8) | (((BinToBcdHigh(x) % 4) as bv8) << 4)
  }

  /** Month register: units, 1-bit tens, reserved bits clear. */
  function MonthRegister(x: uint8): (b: bv8)
    ensures Field(b, 0, 4) == x % 10 && Field(b, 4, 1) == (x / 10) % 2 && Field(b, 5, 3) == 0
  {
    (BinToBcdLow(x) as bv8) | (((BinToBcdHigh(x) % 2) as bv8) << 4)
  }

  /** Day-of-week register: the value in 3 bits, reserved bits clear. */
  function DayRegister(x: nat): (b: bv8)
    ensures Field(b, 0, 3) == x % 8 && Field(b, 3, 5) == 0
  {
    (x % 8) as bv8
  }

  /** Year register: units and 4-bit tens. */
  function YearRegister(x: uint8): (b: bv8)
    ensures Field(b, 0, 4) == x % 10 && Field(b, 4, 4) == (x / 10) % 16
  {
    (BinToBcdLow(x) as bv8) | (((BinToBcdHigh(x) % 16) as bv8) << 4)
  }

  /** Last byte of the block: reserved bits and write protect clear. */
  function ControlRegister(): (b: bv8)
    ensures Field(b, 0, 7) == 0 && Field(b, 7, 1) == 0
  {
    0
  }

  /** The block holding the fields of `t` and the weekday `dow`, stored as the driver stores them. */
  function EncodeRegisters(t: IntTime, dow: nat): (s: Snapshot)
    ensures SecondsUnits(s) == t.seconds % 10 && SecondsTens(s) == (t.seconds / 10) % 8
    ensures MinutesUnits(s) == t.minutes % 10 && MinutesTens(s) == (t.minutes / 10) % 8
    ensures HourUnits(s) == t.hours % 10 && HourTens24(s) == (t.hours / 10) % 4
    ensures DateUnits(s) == t.date % 10 && DateTens(s) == (t.date / 10) % 4
    ensures MonthUnits(s) == t.month % 10 && MonthTens(s) == (t.month / 10) % 2
    ensures YearUnits(s) == t.year % 10 && YearTens(s) == (t.year / 10) % 16
    ensures Weekday(s) == dow % 8
    ensures ClockHalt(s) == 0 && HourMode(s) == 0 && WriteProtect(s) == 0
    ensures Reserved1(s) == 0 && Reserved2(s) == 0 && Reserved3(s) == 0
    ensures Reserved4(s) == 0 && Reserved5(s) == 0 && Reserved6(s) == 0
  {
    [ SexagesimalRegister(t.seconds),
      SexagesimalRegister(t.minutes),
      HoursRegister(t.hours),
      DateRegister(t.date),
      MonthRegister(t.month),
      DayRegister(dow),
      YearRegister(t.year),
      ControlRegister() ]
  }

  /**
   The register block `_DS1302_set_date_time` builds from a time: BCD digits
   truncated to their field widths, the clock running, 24-hour mode, writes
   enabled, reserved bits clear, and the weekday recomputed from the date
   (the caller's `day` is ignored). The month indexes the weekday table, so
   it must lie in 1..12.
   */
  function EncodeTime(t: IntTime): (s: Snapshot)
    requires 1 <= t.month <= 12
    ensures Weekday(s) == DayOfWeek(t.date, t.month, t.year)
    ensures ClockHalt(s) == 0 && HourMode(s) == 0 && WriteProtect(s) == 0
  {
    var dow := DayOfWeek(t.date, t.month, t.year);
    FitsWeekdayField(t.date, t.month, t.year);
    EncodeRegisters(t, dow)
  }

  /** A weekday from `DayOfWeek` fits the 3-bit field unchanged. */
  lemma FitsWeekdayField(d: nat, m: int, y: nat)
    requires 1 <= m <= 12
    ensures DayOfWeek(d, m, y) % 8 == DayOfWeek(d, m, y)
  {
  }

  // ---------------------------------------------------------------------
  // Decoding

  /** The block with its weekday field replaced (`t_time.Day = v`), truncated to 3 bits. */
  function WithWeekday(s: Snapshot, v: nat): (r: Snapshot)
    ensures Weekday(r) == v % 8
    ensures Reserved5(r) == Reserved5(s)
    ensures forall i :: 0 <= i < 8 && i != 5 ==> r[i] == s[i]
  {
    s[5 := (s[5] & 0xF8) | ((v % 8) as bv8)]
  }

  /**
   The time `_DS1302_get_time_and_date` reads from a block: each field from
   its BCD digits, the hours always through the 24-hour view, and the
   weekday recomputed from the decoded date rather than read from the block.
   The decoded month indexes the weekday table, so it must lie in 1..12.
   */
  function DecodeTime(s: Snapshot): (t: IntTime)
    requires 1 <= DecodedMonth(s) <= 12
    ensures t.seconds == 10 * SecondsTens(s) + SecondsUnits(s)
    ensures t.minutes == 10 * MinutesTens(s) + MinutesUnits(s)
    ensures t.hours == 10 * HourTens24(s) + HourUnits(s)
    ensures t.date == 10 * DateTens(s) + DateUnits(s)
    ensures t.month == 10 * MonthTens(s) + MonthUnits(s)
    ensures t.year == 10 * YearTens(s) + YearUnits(s)
    ensures t.day == DayOfWeek(t.date, t.month, t.year) && t.day <= 6
  {
    var date := DecodedDate(s);
    var month := DecodedMonth(s);
    var year := DecodedYear(s);
    IntTime(DecodedSeconds(s), DecodedMinutes(s), DecodedHours(s),
            DayOfWeek(date, month, year), date, month, year)
  }

  // ---------------------------------------------------------------------
  // Properties

  /** The field ranges the chip documents (24-hour mode, two-digit year). */
  predicate InRange(t: IntTime) {
    && t.seconds <= 59 && t.minutes <= 59 && t.hours <= 23
    && 1 <= t.date <= 31 && 1 <= t.month <= 12 && t.year <= 99
  }

  /**
   A block the chip holds after a valid write: decimal digits within the
   documented ranges, the clock running, 24-hour mode, writes enabled,
   reserved bits clear and the weekday consistent with the date.
   */
  predicate Canonical(s: Snapshot) {
    && SecondsUnits(s) <= 9 && MinutesUnits(s) <= 9 && HourUnits(s) <= 9
    && DateUnits(s) <= 9 && MonthUnits(s) <= 9 && YearUnits(s) <= 9 && YearTens(s) <= 9
    && DecodedSeconds(s) <= 59 && DecodedMinutes(s) <= 59 && DecodedHours(s) <= 23
    && 1 <= DecodedDate(s) <= 31 && 1 <= DecodedMonth(s) <= 12
    && ClockHalt(s) == 0 && HourMode(s) == 0 && WriteProtect(s) == 0
    && Reserved1(s) == 0 && Reserved2(s) == 0 && Reserved3(s) == 0
    && Reserved4(s) == 0 && Reserved5(s) == 0 && Reserved6(s) == 0
    && Weekday(s) == DayOfWeek(DecodedDate(s), DecodedMonth(s), DecodedYear(s))
  }

  /** A value below ten times the width of its tens field is stored without truncation. */
  lemma DigitsFit(x: nat, k: nat)
    requires 1 <= k && x < 10 * k
    ensures IsDigit(x % 10) && 10 * ((x / 10) % k) + x % 10 == x
  {
    assert x / 10 < k;
  }

  /** In-range hours, minutes and seconds are encoded without truncation. */
  lemma EncodeInRangeTimeOfDay(t: IntTime)
    requires InRange(t)
    ensures DecodedSeconds(EncodeTime(t)) == t.seconds
    ensures DecodedMinutes(EncodeTime(t)) == t.minutes
    ensures DecodedHours(EncodeTime(t)) == t.hours
  {
    DigitsFit(t.seconds, 8);
    DigitsFit(t.minutes, 8);
    DigitsFit(t.hours, 4);
  }

  /** An in-range date, month and year are encoded without truncation. */
  lemma EncodeInRangeCalendarDate(t: IntTime)
    requires InRange(t)
    ensures DecodedDate(EncodeTime(t)) == t.date
    ensures DecodedMonth(EncodeTime(t)) == t.month
    ensures DecodedYear(EncodeTime(t)) == t.year
  {
    DigitsFit(t.date, 4);
    DigitsFit(t.month, 2);
    DigitsFit(t.year, 16);
  }

  /** In-range fields are encoded without truncation, into a canonical block. */
  lemma EncodeInRangeIsCanonical(t: IntTime)
    requires InRange(t)
    ensures Canonical(EncodeTime(t))
    ensures DecodedSeconds(EncodeTime(t)) == t.seconds
    ensures DecodedMinutes(EncodeTime(t)) == t.minutes
    ensures DecodedHours(EncodeTime(t)) == t.hours
    ensures DecodedDate(EncodeTime(t)) == t.date
    ensures DecodedMonth(EncodeTime(t)) == t.month
    ensures DecodedYear(EncodeTime(t)) == t.year
  {
    EncodeInRangeTimeOfDay(t);
    EncodeInRangeCalendarDate(t);
  }

  /**
   Decoding an encoded in-range time returns every field the caller gave,
   except the weekday, which is the one computed from the date.
   */
  lemma EncodeDecodeRoundTrip(t: IntTime)
    requires InRange(t)
    ensures DecodedMonth(EncodeTime(t)) == t.month
    ensures DecodeTime(EncodeTime(t)) == t.(day := DayOfWeek(t.date, t.month, t.year))
  {
    EncodeInRangeIsCanonical(t);
  }

  // Two bytes that agree on every field of a register's layout are equal.

  lemma SameFields431(a: bv8, b: bv8)
    requires Field(a, 0, 4) == Field(b, 0, 4) && Field(a, 4, 3) == Field(b, 4, 3)
    requires Field(a, 7, 1) == Field(b, 7, 1)
    ensures a == b
  {
    assert a & 0x0F == b & 0x0F;
    assert (a >> 4) & 0x07 == (b >> 4) & 0x07;
    assert (a >> 7) & 0x01 == (b >> 7) & 0x01;
  }

  lemma SameFields4211(a: bv8, b: bv8)
    requires Field(a, 0, 4) == Field(b, 0, 4) && Field(a, 4, 2) == Field(b, 4, 2)
    requires Field(a, 6, 1) == Field(b, 6, 1) && Field(a, 7, 1) == Field(b, 7, 1)
    ensures a == b
  {
    assert a & 0x0F == b & 0x0F;
    assert (a >> 4) & 0x03 == (b >> 4) & 0x03;
    assert (a >> 6) & 0x01 == (b >> 6) & 0x01;
    assert (a >> 7) & 0x01 == (b >> 7) & 0x01;
  }

  lemma SameFields422(a: bv8, b: bv8)
    requires Field(a, 0, 4) == Field(b, 0, 4) && Field(a, 4, 2) == Field(b, 4, 2)
    requires Field(a, 6, 2) == Field(b, 6, 2)
    ensures a == b
  {
    assert a & 0x0F == b & 0x0F;
    assert (a >> 4) & 0x03 == (b >> 4) & 0x03;
    assert (a >> 6) & 0x03 == (b >> 6) & 0x03;
  }

  lemma SameFields413(a: bv8, b: bv8)
    requires Field(a, 0, 4) == Field(b, 0, 4) && Field(a, 4, 1) == Field(b, 4, 1)
    requires Field(a, 5, 3) == Field(b, 5, 3)
    ensures a == b
  {
    assert a & 0x0F == b & 0x0F;
    assert (a >> 4) & 0x01 == (b >> 4) & 0x01;
    assert (a >> 5) & 0x07 == (b >> 5) & 0x07;
  }

  lemma SameFields35(a: bv8, b: bv8)
    requires Field(a, 0, 3) == Field(b, 0, 3) && Field(a, 3, 5) == Field(b, 3, 5)
    ensures a == b
  {
    assert a & 0x07 == b & 0x07;
    assert (a >> 3) & 0x1F == (b >> 3) & 0x1F;
  }

  lemma SameFields44(a: bv8, b: bv8)
    requires Field(a, 0, 4) == Field(b, 0, 4) && Field(a, 4, 4) == Field(b, 4, 4)
    ensures a == b
  {
    assert a & 0x0F == b & 0x0F;
    assert (a >> 4) & 0x0F == (b >> 4) & 0x0F;
  }

  lemma SameFields71(a: bv8, b: bv8)
    requires Field(a, 0, 7) == Field(b, 0, 7) && Field(a, 7, 1) == Field(b, 7, 1)
    ensures a == b
  {
    assert a & 0x7F == b & 0x7F;
    assert (a >> 7) & 0x01 == (b >> 7) & 0x01;
  }

  // Each register encoder inverts the decoding of a well-formed register byte.

  /** A seconds or minutes byte with a decimal units digit and bit 7 clear is the encoding of its value. */
  lemma SexagesimalRegisterOfFields(b: bv8, x: uint8)
    requires Field(b, 0, 4) <= 9 && Field(b, 7, 1) == 0
    requires x == 10 * Field(b, 4, 3) + Field(b, 0, 4)
    ensures SexagesimalRegister(x) == b
  {
    assert x % 10 == Field(b, 0, 4) && (x / 10) % 8 == Field(b, 4, 3);
    SameFields431(SexagesimalRegister(x), b);
  }

  /** An hours byte in the 24-hour view with a decimal units digit and bit 6 clear is the encoding of its value. */
  lemma HoursRegisterOfFields(b: bv8, x: uint8)
    requires Field(b, 0, 4) <= 9 && Field(b, 6, 1) == 0 && Field(b, 7, 1) == 0
    requires x == 10 * Field(b, 4, 2) + Field(b, 0, 4)
    ensures HoursRegister(x) == b
  {
    assert x % 10 == Field(b, 0, 4) && (x / 10) % 4 == Field(b, 4, 2);
    SameFields4211(HoursRegister(x), b);
  }

  /** A date byte with a decimal units digit and reserved bits clear is the encoding of its value. */
  lemma DateRegisterOfFields(b: bv8, x: uint8)
    requires Field(b, 0, 4) <= 9 && Field(b, 6, 2) == 0
    requires x == 10 * Field(b, 4, 2) + Field(b, 0, 4)
    ensures DateRegister(x) == b
  {
    assert x % 10 == Field(b, 0, 4) && (x / 10) % 4 == Field(b, 4, 2);
    SameFields422(DateRegister(x), b);
  }

  /** A month byte with a decimal units digit and reserved bits clear is the encoding of its value. */
  lemma MonthRegisterOfFields(b: bv8, x: uint8)
    requires Field(b, 0, 4) <= 9 && Field(b, 5, 3) == 0
    requires x == 10 * Field(b, 4, 1) + Field(b, 0, 4)
    ensures MonthRegister(x) == b
  {
    assert x % 10 == Field(b, 0, 4) && (x / 10) % 2 == Field(b, 4, 1);
    SameFields413(MonthRegister(x), b);
  }

  /** A day-of-week byte with reserved bits clear is the encoding of its value. */
  lemma DayRegisterOfFields(b: bv8, x: nat)
    requires Field(b, 3, 5) == 0 && x == Field(b, 0, 3)
    ensures DayRegister(x) == b
  {
    SameFields35(DayRegister(x), b);
  }

  /** A year byte with a decimal units digit is the encoding of its value. */
  lemma YearRegisterOfFields(b: bv8, x: uint8)
    requires Field(b, 0, 4) <= 9
    requires x == 10 * Field(b, 4, 4) + Field(b, 0, 4)
    ensures YearRegister(x) == b
  {
    assert x % 10 == Field(b, 0, 4) && (x / 10) % 16 == Field(b, 4, 4);
    SameFields44(YearRegister(x), b);
  }

  /** A last byte with write protect and reserved bits clear is the one the encoder writes. */
  lemma ControlRegisterOfFields(b: bv8)
    requires Field(b, 0, 7) == 0 && Field(b, 7, 1) == 0
    ensures ControlRegister() == b
  {
    SameFields71(ControlRegister(), b);
  }

  /** The bytes the encoder writes for a time, one register function per byte. */
  lemma EncodeTimeBytes(t: IntTime)
    requires 1 <= t.month <= 12
    ensures var e := EncodeTime(t);
      && e[0] == SexagesimalRegister(t.seconds) && e[1] == SexagesimalRegister(t.minutes)
      && e[2] == HoursRegister(t.hours) && e[3] == DateRegister(t.date)
      && e[4] == MonthRegister(t.month) && e[5] == DayRegister(DayOfWeek(t.date, t.month, t.year))
      && e[6] == YearRegister(t.year) && e[7] == ControlRegister()
  {
  }

  /** Blocks that agree byte by byte are equal. */
  lemma SameBytes(a: Snapshot, b: Snapshot)
    requires a[0] == b[0] && a[1] == b[1] && a[2] == b[2] && a[3] == b[3]
    requires a[4] == b[4] && a[5] == b[5] && a[6] == b[6] && a[7] == b[7]
    ensures a == b
  {
    assert forall i | 0 <= i < 8 :: a[i] == b[i];
  }

  /** Re-encoding a canonical block restores its seconds, minutes, hours and date registers. */
  lemma DecodeEncodeLowBytes(s: Snapshot)
    requires Canonical(s)
    ensures var e := EncodeTime(DecodeTime(s)); e[0] == s[0] && e[1] == s[1] && e[2] == s[2] && e[3] == s[3]
  {
    var t := DecodeTime(s);
    EncodeTimeBytes(t);
    SexagesimalRegisterOfFields(s[0], t.seconds);
    SexagesimalRegisterOfFields(s[1], t.minutes);
    HoursRegisterOfFields(s[2], t.hours);
    DateRegisterOfFields(s[3], t.date);
  }

  /** Re-encoding a canonical block restores its month, weekday, year and control registers. */
  lemma DecodeEncodeHighBytes(s: Snapshot)
    requires Canonical(s)
    ensures var e := EncodeTime(DecodeTime(s)); e[4] == s[4] && e[5] == s[5] && e[6] == s[6] && e[7] == s[7]
  {
    var t := DecodeTime(s);
    EncodeTimeBytes(t);
    MonthRegisterOfFields(s[4], t.month);
    DayRegisterOfFields(s[5], t.day);
    YearRegisterOfFields(s[6], t.year);
    ControlRegisterOfFields(s[7]);
  }

  /** Encoding the time decoded from a canonical block rebuilds the block bit for bit. */
  lemma DecodeEncodeRoundTrip(s: Snapshot)
    requires Canonical(s)
    ensures EncodeTime(DecodeTime(s)) == s
  {
    DecodeEncodeLowBytes(s);
    DecodeEncodeHighBytes(s);
    SameBytes(EncodeTime(DecodeTime(s)), s);
  }

  /** The 2-bit tens field of the 24-hour view spans the tens bit and the AM/PM bit of the 12-hour view. */
  lemma HourTensOverlap(b: bv8)
    ensures Field(b, 4, 2) == Field(b, 4, 1) + 2 * Field(b, 5, 1)
  {
    var v := (b >> 4) & 3;
    assert v == ((b >> 4) & 1) | (((b >> 5) & 1) << 1);
  }

  /**
   The decoder reads the hours through the 24-hour view even when the 12/24
   flag selects the 12-hour view: the AM/PM bit then counts as twenty hours.
   */
  lemma TwelveHourRegisterMisread(s: Snapshot)
    requires HourMode(s) == 1
    ensures HourView(s).Hour12?
    ensures DecodedHours(s) == 10 * HourView(s).tens + HourView(s).units + (if HourView(s).pm then 20 else 0)
  {
    HourTensOverlap(s[2]);
  }

  /** In the 24-hour view the decoder reads exactly the view's two digits. */
  lemma TwentyFourHourRegisterRead(s: Snapshot)
    requires HourMode(s) == 0
    ensures HourView(s).Hour24?
    ensures DecodedHours(s) == 10 * HourView(s).tens + HourView(s).units
  {
  }
}
