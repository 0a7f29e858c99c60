/**
 The text the driver prints from the clock block with `sprintf`: the time as
 "%02d:%02d:%02d" (hours, minutes, seconds) and the date as
 "%02d/%02d/%04d" (date, month, 2000 + year), each field decoded from its
 BCD digits.

 A `%0Nd` conversion of a non-negative number prints its decimal digits,
 padded on the left with zeros to at least N characters; a number with more
 digits than N is printed in full.
 */
module TextFormat {
  import Bcd
  import opened Registers

  predicate IsDigitChar(c: char) {
    '0' <= c <= '9'
  }

  predicate AllDigits(s: string) {
    forall i :: 0 <= i < |s| ==> IsDigitChar(s[i])
  }

  function DigitChar(d: nat): (c: char)
    requires d <= 9
    ensures IsDigitChar(c)
  {
    (48 + d) as char
  }

  function DigitValue(c: char): int {
    c as int - 48
  }

  /** The decimal digits of `x`, most significant first, with no leading zero. */
  function Digits(x: nat): (s: string)
    ensures 1 <= |s| && AllDigits(s)
    ensures x > 0 ==> s[0] != '0'
    decreases x
  {
    if x < 10 then [DigitChar(x)] else Digits(x / 10) + [DigitChar(x % 10)]
  }

  function Zeros(n: nat): (s: string)
    ensures |s| == n && forall i :: 0 <= i < n ==> s[i] == '0'
  {
    seq(n, _ => '0')
  }

  /** `%0Nd` for a non-negative number: the digits of `x`, zero-padded on the left to at least `width`. */
  function PadDec(x: nat, width: nat): (s: string)
    ensures width <= |s| && 1 <= |s| && AllDigits(s)
    ensures |s| == if |Digits(x)| < width then width else |Digits(x)|
    ensures |s| > width ==> s == "0" || s[0] != '0'
  {
    var digits := Digits(x);
    if |digits| < width then Zeros(width - |digits|) + digits else digits
  }

  /** The value of a string of decimal digits, most significant first. */
  function ParseDec(s: string): int {
    if |s| == 0 then 0 else 10 * ParseDec(s[..|s| - 1]) + DigitValue(s[|s| - 1])
  }

  // ---------------------------------------------------------------------
  // Printing and parsing are inverse

  lemma {:induction false} ParseDigits(x: nat)
    ensures ParseDec(Digits(x)) == x
    decreases x
  {
    if x >= 10 {
      var s := Digits(x);
      assert s[..|s| - 1] == Digits(x / 10);
      ParseDigits(x / 10);
    }
  }

  /** A leading zero does not change the value. */
  lemma {:induction false} ParseLeadingZero(s: string)
    ensures ParseDec(['0'] + s) == ParseDec(s)
    decreases |s|
  {
    if |s| > 0 {
      var t := ['0'] + s;
      assert t[..|t| - 1] == ['0'] + s[..|s| - 1];
      ParseLeadingZero(s[..|s| - 1]);
    } else {
      assert (['0'] + s)[..0] == [];
    }
  }

  lemma {:induction false} ParseZeroPadded(n: nat, s: string)
    ensures ParseDec(Zeros(n) + s) == ParseDec(s)
    decreases n
  {
    if n > 0 {
      assert Zeros(n) + s == ['0'] + (Zeros(n - 1) + s);
      ParseLeadingZero(Zeros(n - 1) + s);
      ParseZeroPadded(n - 1, s);
    } else {
      assert Zeros(n) + s == s;
    }
  }

  /** Parsing a zero-padded number gives the number back, whatever the width. */
  lemma PadDecRoundTrip(x: nat, width: nat)
    ensures ParseDec(PadDec(x, width)) == x
  {
    ParseDigits(x);
    var digits := Digits(x);
    if |digits| < width {
      ParseZeroPadded(width - |digits|, digits);
    }
  }

  /** A number below 100 prints as exactly its tens and units digit under `%02d`. */
  lemma TwoDigits(x: nat)
    requires x <= 99
    ensures PadDec(x, 2) == [DigitChar(x / 10), DigitChar(x % 10)]
  {
    if x < 10 {
      assert Zeros(1) == [DigitChar(0)];
    } else {
      assert Digits(x / 10) == [DigitChar(x / 10)];
    }
  }

  /** A four-digit number prints as exactly its four digits under `%04d`. */
  lemma FourDigits(x: nat)
    requires 1000 <= x <= 9999
    ensures PadDec(x, 4) == [DigitChar(x / 1000), DigitChar(x / 100 % 10), DigitChar(x / 10 % 10), DigitChar(x % 10)]
  {
    assert Digits(x / 1000) == [DigitChar(x / 1000)];
    assert Digits(x / 100) == [DigitChar(x / 1000), DigitChar(x / 100 % 10)];
    assert Digits(x / 10) == [DigitChar(x / 1000), DigitChar(x / 100 % 10), DigitChar(x / 10 % 10)];
  }

  // ---------------------------------------------------------------------
  // The driver's two texts

  /** Three fields separated by `sep`, as the two format strings lay them out. */
  function Join(a: string, b: string, c: string, sep: char): string {
    a + [sep] + b + [sep] + c
  }

  /** Where the fields and separators of a join of two two-character fields and a third field lie. */
  lemma JoinedFields(a: string, b: string, c: string, sep: char)
    requires |a| == 2 && |b| == 2
    ensures var r := Join(a, b, c, sep);
      && |r| == 6 + |c| && r[2] == sep && r[5] == sep
      && r[0..2] == a && r[3..5] == b && r[6..6 + |c|] == c
  {
  }

  /** A number of four digits fills `%04d` exactly. */
  lemma FourWide(x: nat)
    requires 1000 <= x <= 9999
    ensures |PadDec(x, 4)| == 4
  {
    FourDigits(x);
  }

  /** `_DS1302_get_time`: "HH:MM:SS" from the 24-hour view of the block. */
  function TimeString(s: Snapshot): (r: string)
    ensures |r| == 8 && r[2] == ':' && r[5] == ':'
    ensures AllDigits(r[0..2]) && AllDigits(r[3..5]) && AllDigits(r[6..8])
  {
    var hours, minutes, seconds := PadDec(DecodedHours(s), 2), PadDec(DecodedMinutes(s), 2), PadDec(DecodedSeconds(s), 2);
    TwoDigits(DecodedHours(s));
    TwoDigits(DecodedMinutes(s));
    TwoDigits(DecodedSeconds(s));
    JoinedFields(hours, minutes, seconds, ':');
    Join(hours, minutes, seconds, ':')
  }

  /** `_DS1302_get_date`: "DD/MM/YYYY", the year counted from 2000. */
  function DateString(s: Snapshot): (r: string)
    ensures |r| == 10 && r[2] == '/' && r[5] == '/'
    ensures AllDigits(r[0..2]) && AllDigits(r[3..5]) && AllDigits(r[6..10])
  {
    var date, month, year := PadDec(DecodedDate(s), 2), PadDec(DecodedMonth(s), 2), PadDec(2000 + DecodedYear(s), 4);
    TwoDigits(DecodedDate(s));
    TwoDigits(DecodedMonth(s));
    FourWide(2000 + DecodedYear(s));
    JoinedFields(date, month, year, '/');
    Join(date, month, year, '/')
  }

  /** Each field of a join of zero-padded numbers parses back to its number. */
  lemma JoinParses(x: nat, y: nat, z: nat, width: nat, sep: char)
    requires x <= 99 && y <= 99 && |PadDec(z, width)| == width
    ensures var r := Join(PadDec(x, 2), PadDec(y, 2), PadDec(z, width), sep);
      && ParseDec(r[0..2]) == x && ParseDec(r[3..5]) == y && ParseDec(r[6..6 + width]) == z
  {
    TwoDigits(x);
    TwoDigits(y);
    JoinedFields(PadDec(x, 2), PadDec(y, 2), PadDec(z, width), sep);
    PadDecRoundTrip(x, 2);
    PadDecRoundTrip(y, 2);
    PadDecRoundTrip(z, width);
  }

  /** The time text parses back to the decoded hours, minutes and seconds. */
  lemma TimeStringParses(s: Snapshot)
    ensures ParseDec(TimeString(s)[0..2]) == DecodedHours(s)
    ensures ParseDec(TimeString(s)[3..5]) == DecodedMinutes(s)
    ensures ParseDec(TimeString(s)[6..8]) == DecodedSeconds(s)
  {
    TwoDigits(DecodedSeconds(s));
    JoinParses(DecodedHours(s), DecodedMinutes(s), DecodedSeconds(s), 2, ':');
  }

  /** The date text parses back to the decoded date, month and full year. */
  lemma DateStringParses(s: Snapshot)
    ensures ParseDec(DateString(s)[0..2]) == DecodedDate(s)
    ensures ParseDec(DateString(s)[3..5]) == DecodedMonth(s)
    ensures ParseDec(DateString(s)[6..10]) == 2000 + DecodedYear(s)
  {
    FourWide(2000 + DecodedYear(s));
    JoinParses(DecodedDate(s), DecodedMonth(s), 2000 + DecodedYear(s), 4, '/');
  }

  /** The first two digits of 2000 + x for a year register value x: "20" up to 99, "21" above. */
  lemma CenturyDigits(x: nat)
    requires x <= 165
    ensures |PadDec(2000 + x, 4)| == 4 && PadDec(2000 + x, 4)[0] == '2'
    ensures PadDec(2000 + x, 4)[1] == if x <= 99 then '0' else '1'
  {
    var y := 2000 + x;
    FourDigits(y);
    assert y / 1000 == 2 && y / 100 % 10 == (if x <= 99 then 0 else 1);
  }

  /**
   The date text always shows the century 20 or 21: 20 exactly when the year
   register holds at most 99, 21 for the larger values four BCD bits of tens
   allow.
   */
  lemma DateStringCentury(s: Snapshot)
    ensures DateString(s)[6] == '2'
    ensures DateString(s)[7] == '0' <==> DecodedYear(s) <= 99
    ensures DateString(s)[7] == '0' || DateString(s)[7] == '1'
  {
    JoinCentury(DecodedDate(s), DecodedMonth(s), DecodedYear(s), '/');
  }

  /** The century digits of a join whose third field is `%04d` of 2000 + z. */
  lemma JoinCentury(x: nat, y: nat, z: nat, sep: char)
    requires x <= 99 && y <= 99 && z <= 165
    ensures var r := Join(PadDec(x, 2), PadDec(y, 2), PadDec(2000 + z, 4), sep);
      && |r| == 10 && r[6] == '2' && (r[7] == '0' <==> z <= 99) && (r[7] == '0' || r[7] == '1')
  {
    TwoDigits(x);
    TwoDigits(y);
    CenturyDigits(z);
    var c := PadDec(2000 + z, 4);
    var r := Join(PadDec(x, 2), PadDec(y, 2), c, sep);
    assert r[6] == c[0] && r[7] == c[1];
  }

  /** Two BCD digits print as themselves under `%02d`. */
  lemma TwoDigitsOfBcd(tens: nat, units: nat)
    requires tens <= 9 && units <= 9
    ensures PadDec(Bcd.BcdToBin(tens, units), 2) == [DigitChar(tens), DigitChar(units)]
  {
    TwoDigits(Bcd.BcdToBin(tens, units));
  }

  /** For a canonical block each pair of time digits is exactly the register's BCD tens and units nibble. */
  lemma TimeStringShowsNibbles(s: Snapshot)
    requires Canonical(s)
    ensures TimeString(s) == [DigitChar(HourTens24(s)), DigitChar(HourUnits(s)), ':',
                              DigitChar(MinutesTens(s)), DigitChar(MinutesUnits(s)), ':',
                              DigitChar(SecondsTens(s)), DigitChar(SecondsUnits(s))]
  {
    TimeStringOfDigits(s, HourTens24(s), HourUnits(s), MinutesTens(s), MinutesUnits(s), SecondsTens(s), SecondsUnits(s));
  }

  lemma TimeStringOfDigits(s: Snapshot, ht: nat, hu: nat, mt: nat, mu: nat, st: nat, su: nat)
    requires ht <= 9 && hu <= 9 && mt <= 9 && mu <= 9 && st <= 9 && su <= 9
    requires DecodedHours(s) == Bcd.BcdToBin(ht, hu)
    requires DecodedMinutes(s) == Bcd.BcdToBin(mt, mu)
    requires DecodedSeconds(s) == Bcd.BcdToBin(st, su)
    ensures TimeString(s) == [DigitChar(ht), DigitChar(hu), ':', DigitChar(mt), DigitChar(mu), ':', DigitChar(st), DigitChar(su)]
  {
    TwoDigitsOfBcd(ht, hu);
    TwoDigitsOfBcd(mt, mu);
    TwoDigitsOfBcd(st, su);
  }

  /** For a canonical block each pair of date digits is exactly the register's BCD tens and units nibble. */
  lemma DateStringShowsNibbles(s: Snapshot)
    requires Canonical(s)
    ensures DateString(s) == [DigitChar(DateTens(s)), DigitChar(DateUnits(s)), '/',
                              DigitChar(MonthTens(s)), DigitChar(MonthUnits(s)), '/',
                              '2', '0', DigitChar(YearTens(s)), DigitChar(YearUnits(s))]
  {
    DateStringOfDigits(s, DateTens(s), DateUnits(s), MonthTens(s), MonthUnits(s), YearTens(s), YearUnits(s));
  }

  lemma DateStringOfDigits(s: Snapshot, dt: nat, du: nat, mt: nat, mu: nat, yt: nat, yu: nat)
    requires dt <= 9 && du <= 9 && mt <= 9 && mu <= 9 && yt <= 9 && yu <= 9
    requires DecodedDate(s) == Bcd.BcdToBin(dt, du)
    requires DecodedMonth(s) == Bcd.BcdToBin(mt, mu)
    requires DecodedYear(s) == Bcd.BcdToBin(yt, yu)
    ensures DateString(s) == [DigitChar(dt), DigitChar(du), '/', DigitChar(mt), DigitChar(mu), '/', '2', '0', DigitChar(yt), DigitChar(yu)]
  {
    var date, month, year := PadDec(DecodedDate(s), 2), PadDec(DecodedMonth(s), 2), PadDec(2000 + DecodedYear(s), 4);
    assert DateString(s) == Join(date, month, year, '/');
    TwoDigitsOfBcd(dt, du);
    TwoDigitsOfBcd(mt, mu);
    YearOfBcd(yt, yu);
    assert date == [DigitChar(dt), DigitChar(du)] && month == [DigitChar(mt), DigitChar(mu)];
    assert year == ['2', '0', DigitChar(yt), DigitChar(yu)];
  }

  /** A two-digit BCD year prints under `%04d` as "20" followed by its two digits. */
  lemma YearOfBcd(tens: nat, units: nat)
    requires tens <= 9 && units <= 9
    ensures PadDec(2000 + Bcd.BcdToBin(tens, units), 4) == ['2', '0', DigitChar(tens), DigitChar(units)]
  {
    var y := 2000 + Bcd.BcdToBin(tens, units);
    FourDigits(y);
    assert y / 1000 == 2 && y / 100 % 10 == 0 && y / 10 % 10 == tens && y % 10 == units;
  }
}
