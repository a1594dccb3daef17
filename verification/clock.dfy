/**
 The three renderings of `datetime.now()` the application uses: the compact file-name
 stamp `%Y%m%d_%H%M%S`, the PDF date line `%B %d, %Y at %I:%M %p`, and `isoformat()`.
 The clock itself is not modelled: every caller receives the instant as a parameter.
 */
module Clock {
  import opened Wrappers
  import opened Text

  datatype Instant = Instant(year: int, month: int, day: int,
                             hour: int, minute: int, second: int, microsecond: int)

  predicate IsLeapYear(y: int) {
    (y % 4 == 0 && y % 100 != 0) || y % 400 == 0
  }

  function DaysInMonth(y: int, m: int): int
    requires 1 <= m <= 12
  {
    if m == 2 then (if IsLeapYear(y) then 29 else 28)
    else if m == 4 || m == 6 || m == 9 || m == 11 then 30
    else 31
  }

  /** A calendar instant with a four-digit year, as `datetime.now()` returns. */
  predicate Valid(t: Instant) {
    && 1000 <= t.year <= 9999
    && 1 <= t.month <= 12
    && 1 <= t.day <= DaysInMonth(t.year, t.month)
    && 0 <= t.hour < 24
    && 0 <= t.minute < 60
    && 0 <= t.second < 60
    && 0 <= t.microsecond < 1000000
  }

  function Pow10(w: nat): nat {
    if w == 0 then 1 else 10 * Pow10(w - 1)
  }

  /** `n` as exactly `w` decimal digits, with leading zeros (`%02d`, `%04d`, ...). */
  function Pad(n: nat, w: nat): (r: string)
    requires n < Pow10(w)
    ensures |r| == w
    ensures forall i :: 0 <= i < |r| ==> IsDigit(r[i])
    ensures DigitsValue(r) == n
  {
    if w == 0 then []
    else
      var r := Pad(n / 10, w - 1) + [DigitChar(n % 10)];
      assert r[..|r| - 1] == Pad(n / 10, w - 1);
      r
  }

  /** `strftime("%Y%m%d_%H%M%S")`, the stamp in report file names. */
  function CompactStamp(t: Instant): (r: string)
    requires Valid(t)
    ensures |r| == 15 && r[8] == '_'
    ensures forall i :: 0 <= i < 15 && i != 8 ==> IsDigit(r[i])
  {
    Pad(t.year, 4) + Pad(t.month, 2) + Pad(t.day, 2) + "_" +
    Pad(t.hour, 2) + Pad(t.minute, 2) + Pad(t.second, 2)
  }

  predicate AllDigits(s: string) {
    forall i :: 0 <= i < |s| ==> IsDigit(s[i])
  }

  /** Reads a compact stamp back, to the second. */
  function ParseCompactStamp(s: string): Option<Instant> {
    if |s| == 15 && s[8] == '_' && AllDigits(s[..8]) && AllDigits(s[9..]) then
      Some(Instant(DigitsValue(s[0..4]), DigitsValue(s[4..6]), DigitsValue(s[6..8]),
                   DigitsValue(s[9..11]), DigitsValue(s[11..13]), DigitsValue(s[13..15]), 0))
    else None
  }

  /** The compact stamp is lossless to the second: reading it back gives the instant. */
  lemma CompactStampRoundTrip(t: Instant)
    requires Valid(t)
    ensures ParseCompactStamp(CompactStamp(t)) == Some(t.(microsecond := 0))
  {
    var s := CompactStamp(t);
    assert s[0..4] == Pad(t.year, 4);
    assert s[4..6] == Pad(t.month, 2);
    assert s[6..8] == Pad(t.day, 2);
    assert s[9..11] == Pad(t.hour, 2);
    assert s[11..13] == Pad(t.minute, 2);
    assert s[13..15] == Pad(t.second, 2);
  }

  /** Two stamps are equal exactly when the instants agree to the second. */
  lemma CompactStampInjective(t: Instant, u: Instant)
    requires Valid(t) && Valid(u)
    ensures CompactStamp(t) == CompactStamp(u) <==> t.(microsecond := 0) == u.(microsecond := 0)
  {
    if CompactStamp(t) == CompactStamp(u) {
      CompactStampRoundTrip(t);
      CompactStampRoundTrip(u);
    }
  }

  const MonthNames: seq<string> := [
    "January", "February", "March", "April", "May", "June",
    "July", "August", "September", "October", "November", "December"
  ]

  /** `%I`: the hour on a twelve-hour clock, where midnight and noon are 12. */
  function Hour12(h: int): (r: int)
    requires 0 <= h < 24
    ensures 1 <= r <= 12
    ensures r % 12 + (if h >= 12 then 12 else 0) == h
  {
    if h % 12 == 0 then 12 else h % 12
  }

  /** `%p`. */
  function Meridiem(h: int): string {
    if h < 12 then "AM" else "PM"
  }

  /** `strftime("%B %d, %Y at %I:%M %p")`, the date line of the PDF report. */
  function LongDate(t: Instant): string
    requires Valid(t)
  {
    MonthNames[t.month - 1] + " " + Pad(t.day, 2) + ", " + Pad(t.year, 4) + " at " +
    Pad(Hour12(t.hour), 2) + ":" + Pad(t.minute, 2) + " " + Meridiem(t.hour)
  }

  /** `isoformat()`: the fractional part is written only when there are microseconds. */
  function IsoFormat(t: Instant): (r: string)
    requires Valid(t)
    ensures |r| == (if t.microsecond == 0 then 19 else 26)
    ensures r[4] == '-' && r[7] == '-' && r[10] == 'T' && r[13] == ':' && r[16] == ':'
  {
    Pad(t.year, 4) + "-" + Pad(t.month, 2) + "-" + Pad(t.day, 2) + "T" +
    Pad(t.hour, 2) + ":" + Pad(t.minute, 2) + ":" + Pad(t.second, 2) +
    (if t.microsecond == 0 then "" else "." + Pad(t.microsecond, 6))
  }

  /** Reads an `isoformat()` string back; a missing fractional part means no microseconds. */
  function ParseIso(s: string): Option<Instant> {
    if (|s| == 19 || (|s| == 26 && s[19] == '.'))
       && s[4] == '-' && s[7] == '-' && s[10] == 'T' && s[13] == ':' && s[16] == ':'
       && AllDigits(s[0..4]) && AllDigits(s[5..7]) && AllDigits(s[8..10])
       && AllDigits(s[11..13]) && AllDigits(s[14..16]) && AllDigits(s[17..19])
       && (|s| == 26 ==> AllDigits(s[20..26]))
    then
      Some(Instant(DigitsValue(s[0..4]), DigitsValue(s[5..7]), DigitsValue(s[8..10]),
                   DigitsValue(s[11..13]), DigitsValue(s[14..16]), DigitsValue(s[17..19]),
                   if |s| == 19 then 0 else DigitsValue(s[20..26])))
    else None
  }

  /** `isoformat()` is lossless: reading it back gives the instant, microseconds included. */
  lemma IsoFormatRoundTrip(t: Instant)
    requires Valid(t)
    ensures ParseIso(IsoFormat(t)) == Some(t)
  {
    IsoDateFields(t);
    IsoTimeFields(t);
  }

  lemma IsoDateFields(t: Instant)
    requires Valid(t)
    ensures IsoFormat(t)[0..4] == Pad(t.year, 4)
    ensures IsoFormat(t)[5..7] == Pad(t.month, 2)
    ensures IsoFormat(t)[8..10] == Pad(t.day, 2)
  {
  }

  lemma IsoTimeFields(t: Instant)
    requires Valid(t)
    ensures IsoFormat(t)[11..13] == Pad(t.hour, 2)
    ensures IsoFormat(t)[14..16] == Pad(t.minute, 2)
    ensures IsoFormat(t)[17..19] == Pad(t.second, 2)
    ensures t.microsecond != 0 ==> IsoFormat(t)[19] == '.' && IsoFormat(t)[20..26] == Pad(t.microsecond, 6)
  {
  }

  /** Two instants have the same `isoformat()` exactly when they are the same instant. */
  lemma IsoFormatInjective(t: Instant, u: Instant)
    requires Valid(t) && Valid(u)
    ensures IsoFormat(t) == IsoFormat(u) <==> t == u
  {
    if IsoFormat(t) == IsoFormat(u) {
      IsoFormatRoundTrip(t);
      IsoFormatRoundTrip(u);
    }
  }
}
