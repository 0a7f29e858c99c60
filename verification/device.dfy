/**
 The driver object (`ds1302_struct`): the three pin numbers it was built
 with and its copy of the clock block (`t_time`), together with the public
 operations that move that copy to and from the chip and read it out.

 The chip itself is outside the model. A burst read takes the 64 levels the
 chip drives as a parameter; every operation that talks to the chip returns
 the trace of what it did on the wire.
 */
module Device {
  import opened Calendar
  import opened Registers
  import opened Transport
  import opened RegisterAccess
  import opened TextFormat

  /** The driver's state: pin numbers and its copy of the clock block. */
  datatype Rtc = Rtc(sclkPin: int, ioPin: int, cePin: int, clock: Snapshot)

  /** What `_DS1302_get_time_and_date` leaves behind: the driver, whose block gets the weekday, and the caller's record. */
  datatype Reading = Reading(rtc: Rtc, time: IntTime)

  /**
   The constructor: it records the pins and sends two single-byte writes,
   0 to the write-protect register (clearing WP) and 0 to the trickle-charge
   register (charger off). The block is not initialised by the constructor,
   so its initial contents are a parameter.
   */
  method Construct(sclkPin: int, ioPin: int, cePin: int, clock: Snapshot) returns (rtc: Rtc, trace: seq<Event>)
    ensures rtc.sclkPin == sclkPin && rtc.ioPin == ioPin && rtc.cePin == cePin && rtc.clock == clock
    ensures |trace| == 36 && Framed(trace[..18]) && Framed(trace[18..])
    ensures HostBits(trace[..18]) == BitsOf(0x8E) + BitsOf(0)
    ensures HostBits(trace[18..]) == BitsOf(0x90) + BitsOf(0)
    ensures Release !in trace && ReadBit !in trace
  {
    rtc := Rtc(sclkPin, ioPin, cePin, clock);
    var enable := Write(ENABLE, 0);
    var trickle := Write(TRICKLE, 0);
    ControlCommands();
    trace := enable + trickle;
    assert trace[..18] == enable && trace[18..] == trickle;
  }

  /** `_DS1302_update`: a clock burst read into the driver's block; `samples` are the levels the chip drives. */
  method Update(rtc: Rtc, samples: seq<bool>) returns (next: Rtc, trace: seq<Event>)
    requires |samples| == 64
    ensures BitsOfBytes(next.clock) == samples
    ensures next.sclkPin == rtc.sclkPin && next.ioPin == rtc.ioPin && next.cePin == rtc.cePin
    ensures Framed(trace) && |trace| == 75
    ensures HostBits(trace) == BitsOf(CLOCK_BURST_READ)
    ensures trace[9] == Release && AllReads(trace[10..74])
  {
    var clock;
    clock, trace := BurstRead(samples);
    next := rtc.(clock := clock);
  }

  /**
   `_DS1302_get_time_and_date`: the caller's record gets every field decoded
   from the block, the weekday recomputed from the date; the same weekday is
   stored back into the block's day-of-week field.
   */
  function GetTimeAndDate(rtc: Rtc): (r: Reading)
    requires 1 <= DecodedMonth(rtc.clock) <= 12
    ensures r.rtc.sclkPin == rtc.sclkPin && r.rtc.ioPin == rtc.ioPin && r.rtc.cePin == rtc.cePin
    ensures forall i :: 0 <= i < 8 && i != 5 ==> r.rtc.clock[i] == rtc.clock[i]
    ensures Reserved5(r.rtc.clock) == Reserved5(rtc.clock)
    ensures Weekday(r.rtc.clock) == r.time.day
    ensures r.time.date == DecodedDate(rtc.clock) && r.time.month == DecodedMonth(rtc.clock)
    ensures r.time.day == DayOfWeek(r.time.date, r.time.month, r.time.year)
    ensures r.time.year == DecodedYear(rtc.clock) && r.time.hours == DecodedHours(rtc.clock)
    ensures r.time.minutes == DecodedMinutes(rtc.clock) && r.time.seconds == DecodedSeconds(rtc.clock)
  {
    var time := DecodeTime(rtc.clock);
    FitsWeekdayField(time.date, time.month, time.year);
    Reading(rtc.(clock := WithWeekday(rtc.clock, time.day)), time)
  }

  /** Reading the time a second time changes nothing further and reads the same record. */
  lemma GetTimeAndDateIdempotent(rtc: Rtc)
    requires 1 <= DecodedMonth(rtc.clock) <= 12
    ensures 1 <= DecodedMonth(GetTimeAndDate(rtc).rtc.clock) <= 12
    ensures GetTimeAndDate(GetTimeAndDate(rtc).rtc) == GetTimeAndDate(rtc)
  {
    var first := GetTimeAndDate(rtc);
    var second := GetTimeAndDate(first.rtc);
    assert second.time == first.time;
    KeepsConsistentWeekday(first.rtc.clock);
  }

  /** Storing the weekday a block already holds leaves the block as it is. */
  lemma KeepsConsistentWeekday(s: Snapshot)
    requires 1 <= DecodedMonth(s) <= 12
    requires Weekday(s) == DecodeTime(s).day
    ensures WithWeekday(s, DecodeTime(s).day) == s
  {
    var r := WithWeekday(s, DecodeTime(s).day);
    SameFields35(r[5], s[5]);
    SameBytes(r, s);
  }

  /** On a canonical block reading the time leaves the driver unchanged. */
  lemma GetTimeAndDateKeepsCanonical(rtc: Rtc)
    requires Canonical(rtc.clock)
    ensures GetTimeAndDate(rtc).rtc == rtc
  {
    KeepsConsistentWeekday(rtc.clock);
  }

  /**
   `_DS1302_set_date_time`: the driver's block becomes the encoding of `t`
   (weekday recomputed, clock running, 24-hour mode, writes enabled), and
   the block is sent in one clock burst write.
   */
  method SetDateTime(rtc: Rtc, t: IntTime) returns (next: Rtc, trace: seq<Event>)
    requires 1 <= t.month <= 12
    ensures next == rtc.(clock := EncodeTime(t))
    ensures Framed(trace) && Release !in trace && ReadBit !in trace
    ensures HostBits(trace) == BitsOf(CLOCK_BURST_WRITE) + BitsOfBytes(next.clock)
  {
    next := rtc.(clock := EncodeTime(t));
    trace := BurstWrite(next.clock);
  }

  /**
   After setting a time within the documented ranges the block is canonical
   and reading the time back gives the time set, with the weekday of its date.
   */
  lemma SetThenGetTimeAndDate(rtc: Rtc, t: IntTime)
    requires InRange(t)
    ensures Canonical(EncodeTime(t))
    ensures GetTimeAndDate(rtc.(clock := EncodeTime(t))).time == t.(day := DayOfWeek(t.date, t.month, t.year))
  {
    EncodeInRangeIsCanonical(t);
    EncodeDecodeRoundTrip(t);
  }

  /**
   A chip that stores the bytes of a burst write and drives them back on the
   next burst read gives the driver exactly the block it wrote.
   */
  method SetThenUpdate(rtc: Rtc, t: IntTime) returns (next: Rtc, written: seq<Event>, read: seq<Event>)
    requires 1 <= t.month <= 12
    ensures next.clock == EncodeTime(t)
    ensures next.sclkPin == rtc.sclkPin && next.ioPin == rtc.ioPin && next.cePin == rtc.cePin
    ensures Framed(written) && Framed(read)
  {
    var stored;
    stored, written := SetDateTime(rtc, t);
    var echoed := HostBits(written)[8..];
    next, read := Update(stored, echoed);
    EchoRestoresBlock(HostBits(written), stored.clock, next.clock);
  }

  /** A block read back from the bits a burst write sent after its command byte is the block written. */
  lemma EchoRestoresBlock(bits: seq<bool>, sent: Snapshot, got: Snapshot)
    requires bits == BitsOf(CLOCK_BURST_WRITE) + BitsOfBytes(sent)
    requires BitsOfBytes(got) == bits[8..]
    ensures got == sent
  {
    assert bits[8..] == BitsOfBytes(sent);
    BitsOfBytesInjective(got, sent);
  }

  /**
   Setting 15 April 2013, 10:08:00 stores Monday as the weekday and reads
   back as "10:08:00" and "15/04/2013"; the weekday the caller passes is
   ignored.
   */
  lemma SetDateTimeExample(day: uint8)
    ensures var s := EncodeTime(IntTime(0, 8, 10, day, 15, 4, 13));
      && Weekday(s) == MONDAY
      && TimeString(s) == "10:08:00"
      && DateString(s) == "15/04/2013"
  {
    var t := IntTime(0, 8, 10, day, 15, 4, 13);
    DayOfWeekExample();
    ExampleTime(t);
    ExampleDate(t);
  }

  lemma ExampleTime(t: IntTime)
    requires t.seconds == 0 && t.minutes == 8 && t.hours == 10 && 1 <= t.month <= 12
    ensures TimeString(EncodeTime(t)) == "10:08:00"
  {
    var s := EncodeTime(t);
    assert HourTens24(s) == 1 && HourUnits(s) == 0;
    assert MinutesTens(s) == 0 && MinutesUnits(s) == 8;
    assert SecondsTens(s) == 0 && SecondsUnits(s) == 0;
    TimeStringOfDigits(s, 1, 0, 0, 8, 0, 0);
  }

  lemma ExampleDate(t: IntTime)
    requires t.date == 15 && t.month == 4 && t.year == 13
    ensures DateString(EncodeTime(t)) == "15/04/2013"
  {
    var s := EncodeTime(t);
    assert DateTens(s) == 1 && DateUnits(s) == 5;
    assert MonthTens(s) == 0 && MonthUnits(s) == 4;
    assert YearTens(s) == 1 && YearUnits(s) == 3;
    DateStringOfDigits(s, 1, 5, 0, 4, 1, 3);
  }
}
