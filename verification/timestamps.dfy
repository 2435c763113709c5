/** Timestamp normalisation and rendering of `stix2/utils.py`: the `NOW`
    sentinel, the shift of an aware point in time to UTC, the
    `YYYY-MM-DDTHH:MM:SS[.fraction]Z` rendering of `format_datetime`, its
    exact inverse, and `parse_into_datetime` after the external parser. */
module Timestamps {
  import opened Results
  import opened Errors
  import opened Calendar
  import opened Digits

  const MinutesPerDay := 1440

  /** An aware `datetime`: wall-clock fields and a UTC offset in whole
      minutes east of UTC (the zone database is not modelled). */
  datatype Zoned = Zoned(local: DateTime, offset: int)

  /** Any Python `datetime`, aware or naive. */
  datatype Moment = Aware(zoned: Zoned) | Naive(fields: DateTime)

  /** Python bounds a UTC offset strictly inside one day. */
  predicate ValidZoned(z: Zoned) {
    Valid(z.local) && -MinutesPerDay < z.offset < MinutesPerDay
  }

  predicate ValidMoment(m: Moment) {
    match m
    case Aware(z) => ValidZoned(z)
    case Naive(t) => Valid(t)
  }

  /** Position of a reading on one minute-resolution time line (days by
      ordinal, then minutes of the day). */
  function EpochMinutes(t: DateTime): int
    requires Valid(t)
  {
    Ordinal(t.date) * MinutesPerDay + t.hour * 60 + t.minute
  }

  /** The minutes of the time line that a valid reading can denote. */
  predicate Representable(e: int) {
    MinutesPerDay <= e < (MaxOrdinal + 1) * MinutesPerDay
  }

  lemma EpochMinutesRange(t: DateTime)
    requires Valid(t)
    ensures Representable(EpochMinutes(t))
  {
    OrdinalRange(t.date);
  }

  /** The reading `minuteOfDay` minutes into day `d`, keeping the seconds
      and microseconds of `t`. */
  function AtMinute(d: Date, minuteOfDay: int, t: DateTime): (r: DateTime)
    requires ValidDate(d) && Valid(t) && 0 <= minuteOfDay < MinutesPerDay
    ensures Valid(r) && EpochMinutes(r) == Ordinal(d) * MinutesPerDay + minuteOfDay
    ensures r.date == d && r.second == t.second && r.microsecond == t.microsecond
  {
    DateTime(d, minuteOfDay / 60, minuteOfDay % 60, t.second, t.microsecond)
  }

  /** `dttm.astimezone(pytz.utc)`: the same instant read in UTC; fails with
      `OutOfRange` exactly when that instant lies outside years 1 to 9999. */
  function ToUtc(z: Zoned): (r: Result<DateTime, Error>)
    requires ValidZoned(z)
    ensures r.Ok? ==> Valid(r.value) && EpochMinutes(r.value) == EpochMinutes(z.local) - z.offset
    ensures r.Ok? ==> r.value.second == z.local.second && r.value.microsecond == z.local.microsecond
    ensures r.Ok? <==> Representable(EpochMinutes(z.local) - z.offset)
    ensures r.Err? ==> r.error == OutOfRange
  {
    var t := z.local;
    var total := t.hour * 60 + t.minute - z.offset;
    OrdinalRange(t.date);
    if total < 0 then
      match PrevDay(t.date)
      case None => Err(OutOfRange)
      case Some(d) =>
        OrdinalRange(d);
        Ok(AtMinute(d, total + MinutesPerDay, t))
    else if total >= MinutesPerDay then
      match NextDay(t.date)
      case None => Err(OutOfRange)
      case Some(d) =>
        OrdinalRange(d);
        Ok(AtMinute(d, total - MinutesPerDay, t))
    else
      Ok(AtMinute(t.date, total, t))
  }

  /** The UTC reading of an instant is unique: any valid reading of the same
      instant with the same seconds and microseconds is what `ToUtc` gives. */
  lemma ToUtcUnique(z: Zoned, u: DateTime)
    requires ValidZoned(z) && Valid(u)
    requires EpochMinutes(u) == EpochMinutes(z.local) - z.offset
    requires u.second == z.local.second && u.microsecond == z.local.microsecond
    ensures ToUtc(z) == Ok(u)
  {
    EpochMinutesRange(u);
    var r := ToUtc(z).value;
    Positional(Ordinal(r.date), r.hour * 60 + r.minute, Ordinal(u.date), u.hour * 60 + u.minute, MinutesPerDay);
    Positional(r.hour, r.minute, u.hour, u.minute, 60);
    OrdinalInjective(r.date, u.date);
  }

  /** Whole units and a remainder below the unit are determined by their
      total. */
  lemma Positional(a: int, x: int, b: int, y: int, unit: int)
    requires unit == 60 || unit == MinutesPerDay
    requires 0 <= x < unit && 0 <= y < unit && a * unit + x == b * unit + y
    ensures a == b && x == y
  {
  }

  /** A zero offset leaves the fields as they are. */
  lemma ToUtcOfUtc(t: DateTime)
    requires Valid(t)
    ensures ToUtc(Zoned(t, 0)) == Ok(t)
  {
    ToUtcUnique(Zoned(t, 0), t);
  }

  /** `strftime("%Y-%m-%d")`. */
  function RenderDate(year: nat, month: nat, day: nat): (p: string)
    ensures DateShape(p)
  {
    var p := Pad(year, 4) + "-" + Pad(month, 2) + "-" + Pad(day, 2);
    assert p[0..4] == Pad(year, 4) && p[5..7] == Pad(month, 2) && p[8..10] == Pad(day, 2);
    p
  }

  /** `strftime("%H:%M:%S")`. */
  function RenderClock(hour: nat, minute: nat, second: nat): (p: string)
    ensures ClockShape(p)
  {
    var p := Pad(hour, 2) + ":" + Pad(minute, 2) + ":" + Pad(second, 2);
    assert p[0..2] == Pad(hour, 2) && p[3..5] == Pad(minute, 2) && p[6..8] == Pad(second, 2);
    p
  }

  /** `"." + strftime("%f").rstrip("0")` when the microsecond is non-zero. */
  function Fraction(us: nat): string {
    if us > 0 then "." + TrimZeros(Pad(us, 6)) else ""
  }

  /** `strftime("%Y-%m-%dT%H:%M:%S")` plus the fraction and the `Z`. */
  function RenderUtc(t: DateTime): string
    requires Valid(t)
  {
    RenderDate(t.date.year, t.date.month, t.date.day) + "T"
    + RenderClock(t.hour, t.minute, t.second) + Fraction(t.microsecond) + "Z"
  }

  /** `format_datetime` as written: an aware value is shifted to UTC and
      rendered; for a naive value the `except` branch discards the localised
      value, so `zoned` is unassigned when it is read. */
  function FormatDateTime(m: Moment): (r: Result<string, Error>)
    requires ValidMoment(m)
    ensures m.Naive? ==> r == Err(UnboundZoned)
    ensures m.Aware? ==> r.Ok? == ToUtc(m.zoned).Ok?
    ensures m.Aware? && r.Ok? ==> ParseTimestamp(r.value) == Some(ToUtc(m.zoned).value)
  {
    match m
    case Naive(_) => Err(UnboundZoned)
    case Aware(z) =>
      var u :- ToUtc(z);
      RenderParse(u);
      Ok(RenderUtc(u))
  }

  /** The UTC reading of a value: an aware one shifted, a naive one as it
      stands. */
  function UtcOf(m: Moment): (r: Result<DateTime, Error>)
    requires ValidMoment(m)
    ensures r.Ok? ==> Valid(r.value)
    ensures m.Aware? ==> r == ToUtc(m.zoned)
  {
    match m
    case Naive(t) => Ok(t)
    case Aware(z) => ToUtc(z)
  }

  /** `format_datetime` as its comment intends: a naive value is read as UTC. */
  function FormatDateTimeIntended(m: Moment): (r: Result<string, Error>)
    requires ValidMoment(m)
    ensures m.Naive? ==> r == FormatDateTime(Aware(Zoned(m.fields, 0)))
    ensures m.Naive? ==> r.Ok? && ParseTimestamp(r.value) == Some(m.fields)
    ensures m.Aware? ==> r == FormatDateTime(m)
    ensures r.Err? ==> r.error == OutOfRange
    ensures r.Ok? <==> UtcOf(m).Ok?
    ensures r.Ok? ==> ParseTimestamp(r.value) == Some(UtcOf(m).value)
  {
    match m
    case Naive(t) =>
      ToUtcOfUtc(t);
      RenderParse(t);
      Ok(RenderUtc(t))
    case Aware(z) =>
      var u :- ToUtc(z);
      Ok(RenderUtc(u))
  }

  /** `YYYY-MM-DD`: digits with dashes at positions 4 and 7. */
  predicate DateShape(p: string) {
    && |p| == 10 && p[4] == '-' && p[7] == '-'
    && AllDigits(p[0..4]) && AllDigits(p[5..7]) && AllDigits(p[8..10])
  }

  /** `HH:MM:SS`: digits with colons at positions 2 and 5. */
  predicate ClockShape(p: string) {
    && |p| == 8 && p[2] == ':' && p[5] == ':'
    && AllDigits(p[0..2]) && AllDigits(p[3..5]) && AllDigits(p[6..8])
  }

  /** `.` and one to six digits, the last not `0`. */
  predicate FractionOk(f: string) {
    2 <= |f| <= 7 && f[0] == '.' && AllDigits(f[1..]) && f[|f| - 1] != '0'
  }

  /** The rendered shape: the 19-character `YYYY-MM-DDTHH:MM:SS` prefix, then
      nothing or a fraction, then the final `Z`. */
  predicate CanonicalShape(s: string) {
    && |s| >= 20
    && DateShape(s[..10]) && s[10] == 'T' && ClockShape(s[11..19])
    && s[|s| - 1] == 'Z'
    && (|s| > 20 ==> FractionOk(s[19..|s| - 1]))
  }

  function ReadDate(p: string): Date
    requires DateShape(p)
  {
    Date(Value(p[0..4]), Value(p[5..7]), Value(p[8..10]))
  }

  /** The microseconds a fraction denotes, read as `%f` right-padded. */
  function ReadFraction(f: string): nat
    requires f == [] || FractionOk(f)
  {
    if f == [] then 0 else Value(RightPad(f[1..], 6))
  }

  /** The exact reader of `RenderUtc`'s output: accepts precisely the
      canonical strings and returns the UTC fields they denote. */
  function ParseTimestamp(s: string): (r: Option<DateTime>)
    ensures r.Some? ==> CanonicalShape(s) && Valid(r.value)
  {
    if !CanonicalShape(s) then None
    else
      var c := s[11..19];
      var t := DateTime(ReadDate(s[..10]), Value(c[0..2]), Value(c[3..5]), Value(c[6..8]),
                        ReadFraction(s[19..|s| - 1]));
      if Valid(t) then Some(t) else None
  }

  lemma DateRoundTrip(year: nat, month: nat, day: nat)
    requires year < 10000 && month < 100 && day < 100
    ensures ReadDate(RenderDate(year, month, day)) == Date(year, month, day)
  {
    var p := RenderDate(year, month, day);
    assert p[0..4] == Pad(year, 4) && p[5..7] == Pad(month, 2) && p[8..10] == Pad(day, 2);
    ValueOfPad(year, 4);
    ValueOfPad(month, 2);
    ValueOfPad(day, 2);
  }

  lemma DateReadBack(p: string)
    requires DateShape(p)
    ensures RenderDate(Value(p[0..4]), Value(p[5..7]), Value(p[8..10])) == p
  {
    PadOfValue(p[0..4]);
    PadOfValue(p[5..7]);
    PadOfValue(p[8..10]);
    assert p == p[0..4] + "-" + p[5..7] + "-" + p[8..10];
  }

  lemma ClockRoundTrip(hour: nat, minute: nat, second: nat)
    requires hour < 100 && minute < 100 && second < 100
    ensures var c := RenderClock(hour, minute, second);
      Value(c[0..2]) == hour && Value(c[3..5]) == minute && Value(c[6..8]) == second
  {
    var c := RenderClock(hour, minute, second);
    assert c[0..2] == Pad(hour, 2) && c[3..5] == Pad(minute, 2) && c[6..8] == Pad(second, 2);
    ValueOfPad(hour, 2);
    ValueOfPad(minute, 2);
    ValueOfPad(second, 2);
  }

  lemma ClockReadBack(c: string)
    requires ClockShape(c)
    ensures RenderClock(Value(c[0..2]), Value(c[3..5]), Value(c[6..8])) == c
  {
    PadOfValue(c[0..2]);
    PadOfValue(c[3..5]);
    PadOfValue(c[6..8]);
    assert c == c[0..2] + ":" + c[3..5] + ":" + c[6..8];
  }

  /** Trimming digits that end in a non-zero digit, after zero padding,
      gives those digits back. */
  lemma {:induction false} TrimOfPadded(f: string, k: nat)
    requires f != [] && f[|f| - 1] != '0'
    ensures TrimZeros(f + Zeros(k)) == f
  {
    if k == 0 {
      assert f + Zeros(0) == f;
    } else {
      var s := f + Zeros(k);
      assert s[..|s| - 1] == f + Zeros(k - 1);
      TrimOfPadded(f, k - 1);
    }
  }

  /** A digit string with a non-zero digit has a positive value. */
  lemma {:induction false} ValueOfNonZero(s: string, i: nat)
    requires AllDigits(s) && i < |s| && s[i] != '0'
    ensures Value(s) > 0
  {
    if i < |s| - 1 {
      ValueOfNonZero(s[..|s| - 1], i);
    } else {
      assert DigitValue(s[i]) > 0;
    }
  }

  lemma FractionRoundTrip(us: nat)
    requires us < 1000000
    ensures Fraction(us) == [] || FractionOk(Fraction(us))
    ensures ReadFraction(Fraction(us)) == us
  {
    if us > 0 {
      ValueOfPad(us, 6);
      TrimOfPositive(Pad(us, 6));
      TrimThenPad(Pad(us, 6));
      assert Fraction(us)[1..] == TrimZeros(Pad(us, 6));
    }
  }

  lemma FractionReadBack(f: string)
    requires f == [] || FractionOk(f)
    ensures Fraction(ReadFraction(f)) == f
  {
    if f != [] {
      var g := f[1..];
      PaddedDigits(g);
      assert f == "." + g;
    }
  }

  /** The digits of a fraction, padded to six and read, render back as
      themselves. */
  lemma PaddedDigits(g: string)
    requires 1 <= |g| <= 6 && AllDigits(g) && g[|g| - 1] != '0'
    ensures var v := Value(RightPad(g, 6)); v > 0 && TrimZeros(Pad(v, 6)) == g
  {
    var padded := RightPad(g, 6);
    var v := Value(padded);
    assert v > 0 by {
      assert padded[|g| - 1] == g[|g| - 1];
      ValueOfNonZero(padded, |g| - 1);
    }
    assert Pad(v, 6) == padded by {
      PadOfValue(padded);
    }
    assert TrimZeros(padded) == g by {
      TrimOfPadded(g, 6 - |g|);
    }
  }

  /** Where the pieces of a rendering sit. */
  lemma Pieces(a: string, b: string, f: string)
    requires |a| == 10 && |b| == 8
    ensures var s := a + "T" + b + f + "Z";
      s[..10] == a && s[10] == 'T' && s[11..19] == b && s[19..|s| - 1] == f && s[|s| - 1] == 'Z'
  {
  }

  /** Reading a rendering gives back the UTC fields. */
  lemma RenderParse(t: DateTime)
    requires Valid(t)
    ensures CanonicalShape(RenderUtc(t))
    ensures ParseTimestamp(RenderUtc(t)) == Some(t)
  {
    var a := RenderDate(t.date.year, t.date.month, t.date.day);
    var b := RenderClock(t.hour, t.minute, t.second);
    var f := Fraction(t.microsecond);
    Pieces(a, b, f);
    DateRoundTrip(t.date.year, t.date.month, t.date.day);
    ClockRoundTrip(t.hour, t.minute, t.second);
    FractionRoundTrip(t.microsecond);
  }

  /** Rendering what was read gives back the string: the canonical strings
      and the valid UTC readings correspond one to one. */
  lemma ParseRender(s: string)
    requires ParseTimestamp(s).Some?
    ensures RenderUtc(ParseTimestamp(s).value) == s
  {
    var t := ParseTimestamp(s).value;
    var a, b, f := s[..10], s[11..19], s[19..|s| - 1];
    assert t == DateTime(ReadDate(a), Value(b[0..2]), Value(b[3..5]), Value(b[6..8]), ReadFraction(f));
    DateReadBack(a);
    ClockReadBack(b);
    FractionReadBack(f);
    assert RenderUtc(t) == a + "T" + b + f + "Z";
    Reassemble(s);
  }

  lemma Reassemble(s: string)
    requires |s| >= 20 && s[10] == 'T' && s[|s| - 1] == 'Z'
    ensures s == s[..10] + "T" + s[11..19] + s[19..|s| - 1] + "Z"
  {
  }

  /** What `format_datetime` promises about its output, for every aware
      input whose UTC reading stays in range. */
  lemma FormatShape(z: Zoned)
    requires ValidZoned(z) && ToUtc(z).Ok?
    ensures var s := FormatDateTime(Aware(z)).value;
            var u := ToUtc(z).value;
            && CanonicalShape(s)
            && (|s| > 20 <==> u.microsecond > 0)
            && (u.microsecond > 0 ==> RightPad(s[20..|s| - 1], 6) == Pad(u.microsecond, 6))
  {
    var u := ToUtc(z).value;
    var s := RenderUtc(u);
    RenderParse(u);
    var a := RenderDate(u.date.year, u.date.month, u.date.day);
    var b := RenderClock(u.hour, u.minute, u.second);
    Pieces(a, b, Fraction(u.microsecond));
    if u.microsecond > 0 {
      ValueOfPad(u.microsecond, 6);
      TrimThenPad(Pad(u.microsecond, 6));
      assert s[20..|s| - 1] == Fraction(u.microsecond)[1..];
    }
  }

  /** A date, a `datetime`, text, or anything else. */
  datatype TimeInput =
    | DateValue(date: Date)
    | DateTimeValue(moment: Moment)
    | TextValue(text: string)
    | OtherValue

  /** What the external parser (`dateutil.parser.parse`) returns: the
      fields and, if the text named one, a UTC offset; or a rejection. */
  datatype Parsed = Parsed(fields: DateTime, offset: Option<int>) | Unparseable

  predicate ValidParsed(p: Parsed) {
    p.Parsed? ==> Valid(p.fields) && (p.offset.Some? ==> -MinutesPerDay < p.offset.value < MinutesPerDay)
  }

  predicate ValidInput(v: TimeInput) {
    match v
    case DateValue(d) => ValidDate(d)
    case DateTimeValue(m) => ValidMoment(m)
    case _ => true
  }

  /** `parse_into_datetime`, with the text parser passed in. */
  function ParseIntoDatetime(value: TimeInput, parse: string -> Parsed): (r: Result<Moment, Error>)
    requires ValidInput(value)
    requires value.TextValue? ==> ValidParsed(parse(value.text))
    ensures r.Ok? ==> ValidMoment(r.value)
    ensures value.DateValue? ==>
      (r.Ok? && r.value.Aware? && r.value.zoned.offset == 0 && r.value.zoned.local == DateTime(value.date, 0, 0, 0, 0))
    ensures value.DateTimeValue? ==> r == Ok(value.moment)
    ensures value.TextValue? && parse(value.text).Parsed? ==>
      (var p := parse(value.text);
       if p.offset.None? then r == Ok(Aware(Zoned(p.fields, 0)))
       else r.Ok? <==> Representable(EpochMinutes(p.fields) - p.offset.value))
    ensures r.Ok? && !value.DateTimeValue? ==> r.value.Aware? && r.value.zoned.offset == 0
    ensures r.Ok? && value.TextValue? && parse(value.text).Parsed? && parse(value.text).offset.Some? ==>
      EpochMinutes(r.value.zoned.local) == EpochMinutes(parse(value.text).fields) - parse(value.text).offset.value
    ensures r.Ok? && value.TextValue? && parse(value.text).Parsed? && parse(value.text).offset.Some? ==>
      && r.value.zoned.local.second == parse(value.text).fields.second
      && r.value.zoned.local.microsecond == parse(value.text).fields.microsecond
    ensures value.TextValue? && parse(value.text).Unparseable? ==> r == Err(UnparseableText)
    ensures value.OtherValue? ==> r == Err(UnsupportedTimeInput)
    ensures r.Err? ==> r.error in {UnparseableText, UnsupportedTimeInput, OutOfRange}
  {
    match value
    case DateValue(d) => Ok(Aware(Zoned(DateTime(d, 0, 0, 0, 0), 0)))
    case DateTimeValue(m) => Ok(m)
    case TextValue(s) =>
      (match parse(s)
       case Unparseable => Err(UnparseableText)
       case Parsed(fields, None) => Ok(Aware(Zoned(fields, 0)))
       case Parsed(fields, Some(off)) =>
         var u :- ToUtc(Zoned(fields, off));
         Ok(Aware(Zoned(u, 0))))
    case OtherValue => Err(UnsupportedTimeInput)
  }

  /** A date-only value becomes midnight of that date in UTC. */
  lemma DateBecomesMidnightUtc(d: Date, parse: string -> Parsed)
    requires ValidDate(d)
    ensures FormatDateTime(ParseIntoDatetime(DateValue(d), parse).value)
         == Ok(RenderDate(d.year, d.month, d.day) + "T00:00:00Z")
  {
    var t := DateTime(d, 0, 0, 0, 0);
    var m := ParseIntoDatetime(DateValue(d), parse).value;
    assert m == Aware(Zoned(t, 0));
    ToUtcOfUtc(t);
    assert FormatDateTime(m) == Ok(RenderUtc(t));
    MidnightText(t);
  }

  /** Midnight with no fraction renders as the date and `T00:00:00Z`. */
  lemma MidnightText(t: DateTime)
    requires Valid(t) && t.hour == 0 && t.minute == 0 && t.second == 0 && t.microsecond == 0
    ensures RenderUtc(t) == RenderDate(t.date.year, t.date.month, t.date.day) + "T00:00:00Z"
  {
    var date := RenderDate(t.date.year, t.date.month, t.date.day);
    assert RenderClock(0, 0, 0) == "00:00:00" by {
      assert Pad(0, 2) == "00";
    }
    assert Fraction(0) == "";
    assert RenderUtc(t) == date + "T" + "00:00:00" + "" + "Z";
    Assoc4(date, "T", "00:00:00", "Z");
  }

  lemma Assoc4(a: string, b: string, c: string, d: string)
    ensures a + b + c + "" + d == a + (b + c + d)
  {
  }
}
