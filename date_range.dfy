/** The date-range encoding of a query: `isLessThan7Days`,
    `convertDateToString` and `formatTime` (src/utilities.js lines 2-47). */
module DateRange {
  import opened Outcomes
  import opened Numerals
  import opened UtcCalendar
  import opened JsValues

  /** `new Date('2004-01-01')`: a date-only ISO string is read as UTC midnight. */
  const DefaultStartMs: int := 1072915200000
  const WeekMs: int := 604800000
  const StartTimeMessage: string := "startTime must be a Date object"
  const EndTimeMessage: string := "endTime must be a Date object"

  function Abs(x: int): nat { if x < 0 then -x else x }

  /** Whether two dates are less than seven days apart. The source divides
      the absolute difference by the milliseconds of a day as a
      floating-point number; with a NaN operand the comparison is false. */
  function IsLessThan7Days(date1: Instant, date2: Instant): (r: bool)
    ensures r <==> date1.At? && date2.At? && -WeekMs < date2.ms - date1.ms < WeekMs
  {
    match (date1, date2)
    case (At(a), At(b)) => (Abs(b - a) as real) / (24.0 * 60.0 * 60.0 * 1000.0) < 7.0
    case _ => false
  }

  /** The `toString` of each UTC component of a date; every component of an
      Invalid Date is NaN. */
  datatype Parts = Parts(year: string, month: string, day: string, hour: string, minute: string)

  function PartsOf(d: Instant): Parts {
    match d
    case InvalidDate => Parts("NaN", "NaN", "NaN", "NaN", "NaN")
    case At(t) =>
      var u := UtcFieldsOf(t);
      Parts(IntText(u.year), IntText(u.month), IntText(u.day), IntText(u.hour), IntText(u.minute))
  }

  /** Only the month is padded, and only when its text is shorter than two
      characters. */
  function PadMonth(month: string): string {
    if |month| < 2 then "0" + month else month
  }

  /** `convertDateToString(d, includeTime)`: `Y-MM-D`, or
      `Y-MM-DTh\:m\:00` with a literal backslash before each colon. Every
      field of an Invalid Date is `NaN`, and no rendering contains a space. */
  function DateText(d: Instant, includeTime: bool): (r: string)
    ensures d.InvalidDate? ==> r == if includeTime then "NaN-NaN-NaNTNaN\\:NaN\\:00" else "NaN-NaN-NaN"
    ensures NoSpace(r)
  {
    var p := PartsOf(d);
    if d.At? then
      var u := UtcFieldsOf(d.ms);
      IntTextHasNoSpace(u.year);
      IntTextHasNoSpace(u.month);
      IntTextHasNoSpace(u.day);
      IntTextHasNoSpace(u.hour);
      IntTextHasNoSpace(u.minute);
      DateOfParts(p, includeTime)
    else
      DateOfParts(p, includeTime)
  }

  /** The template of `convertDateToString` filled with the given parts. */
  function DateOfParts(p: Parts, includeTime: bool): string {
    var date := p.year + "-" + PadMonth(p.month) + "-" + p.day;
    if includeTime then date + ClockText(p.hour, p.minute) else date
  }

  /** What a rendered date says: the calendar date and, when present, the
      time of day. */
  datatype Clock = Clock(hour: int, minute: int)
  datatype Reading = Reading(year: int, month: int, day: int, clock: Option<Clock>)

  /** The reading the rendering of time value `t` should give back. */
  function ReadingOf(t: int, includeTime: bool): Reading {
    var u := UtcFieldsOf(t);
    Reading(u.year, u.month, u.day, if includeTime then Some(Clock(u.hour, u.minute)) else None)
  }

  /** Reads the encoding back: a signed year, a two-digit month, a day and
      optionally the time part. */
  function ReadDateText(s: string): Option<Reading> {
    var y :- ReadInt(s);
    var r1 :- Expect(y.1, "-");
    var m :- ReadTwoDigits(r1);
    var r2 :- Expect(m.1, "-");
    var d :- ReadNat(r2);
    if d.1 == "" then Some(Reading(y.0, m.0, d.0, None))
    else
      var c :- ReadClock(d.1);
      Some(Reading(y.0, m.0, d.0, Some(c)))
  }

  /** Reads the time part `Th\:m\:00`, which must end the text. */
  function ReadClock(s: string): Option<Clock> {
    var r3 :- Expect(s, "T");
    var h :- ReadNat(r3);
    var r4 :- Expect(h.1, "\\:");
    var mi :- ReadNat(r4);
    var r5 :- Expect(mi.1, "\\:00");
    if r5 == "" then Some(Clock(h.0, mi.0)) else None
  }

  lemma ExpectLiteral(lit: string, rest: string)
    ensures Expect(lit + rest, lit) == Some(rest)
  {
    assert (lit + rest)[..|lit|] == lit;
    assert (lit + rest)[|lit|..] == rest;
  }

  /** A month is always rendered as exactly two digits. */
  lemma {:induction false} MonthIsTwoDigits(month: int, rest: string)
    requires 1 <= month <= 12
    ensures |PadMonth(IntText(month))| == 2
    ensures ReadTwoDigits(PadMonth(IntText(month)) + rest) == Some((month, rest))
  {
    var m := PadMonth(IntText(month));
    var s := m + rest;
    assert s[..2] == m && s[2..] == rest;
    if month < 10 {
      assert m == ['0', DigitChar(month)];
      assert m[..1] == ['0'];
      assert DigitValue(DigitChar(month)) == month;
      assert DigitsValue(m) == DigitsValue(m[..1]) * 10 + DigitValue(m[1]);
    } else {
      assert NatText(month) == NatText(month / 10) + [DigitChar(month % 10)];
      NatTextValue(month);
    }
  }

  /** The time part of the encoding. */
  function ClockText(hour: string, minute: string): string {
    "T" + hour + "\\:" + minute + "\\:00"
  }

  lemma {:induction false} ReadClockText(hour: nat, minute: nat)
    ensures ReadClock(ClockText(NatText(hour), NatText(minute))) == Some(Clock(hour, minute))
  {
    var h, mi := NatText(hour), NatText(minute);
    var r6 := "\\:" + (mi + "\\:00");
    assert ClockText(h, mi) == "T" + (h + r6);
    ExpectLiteral("T", h + r6);
    ReadNatText(hour, r6);
    ExpectLiteral("\\:", mi + "\\:00");
    ReadNatText(minute, "\\:00");
    ExpectLiteral("\\:00", "");
    assert "\\:00" + "" == "\\:00";
  }

  lemma {:induction false} ReadDateOf(year: int, month: int, day: nat, tail: string)
    requires 1 <= month <= 12
    requires tail == "" || tail[0] == 'T'
    ensures ReadDateText(IntText(year) + "-" + PadMonth(IntText(month)) + "-" + NatText(day) + tail)
      == if tail == "" then Some(Reading(year, month, day, None))
         else match ReadClock(tail)
              case None => None
              case Some(c) => Some(Reading(year, month, day, Some(c)))
  {
    var y, m, d := IntText(year), PadMonth(IntText(month)), NatText(day);
    var r4 := d + tail;
    var r2 := m + ("-" + r4);
    assert y + "-" + m + "-" + d + tail == y + ("-" + r2);
    ReadIntText(year, "-" + r2);
    ExpectLiteral("-", r2);
    MonthIsTwoDigits(month, "-" + r4);
    ExpectLiteral("-", r4);
    ReadNatText(day, tail);
  }

  /** Rendering a valid date loses nothing but seconds and milliseconds:
      reading the text back gives its UTC date, and its hour and minute
      exactly when the time part was asked for. */
  lemma {:induction false} DateTextRoundTrip(t: int, includeTime: bool)
    ensures ReadDateText(DateText(At(t), includeTime)) == Some(ReadingOf(t, includeTime))
  {
    var u := UtcFieldsOf(t);
    var date := IntText(u.year) + "-" + PadMonth(IntText(u.month)) + "-" + NatText(u.day);
    assert IntText(u.day) == NatText(u.day) && IntText(u.hour) == NatText(u.hour) && IntText(u.minute) == NatText(u.minute);
    if includeTime {
      var tail := ClockText(NatText(u.hour), NatText(u.minute));
      assert DateText(At(t), includeTime) == date + tail;
      ReadDateOf(u.year, u.month, u.day, tail);
      ReadClockText(u.hour, u.minute);
    } else {
      assert DateText(At(t), includeTime) == date + "";
      ReadDateOf(u.year, u.month, u.day, "");
    }
  }

  /** The rendering `convertDateToString` gives for the fields of a reading;
      the time part is present exactly when the reading has a clock. */
  function ReadingText(rd: Reading): string {
    var c := if rd.clock.Some? then rd.clock.value else Clock(0, 0);
    DateOfParts(Parts(IntText(rd.year), IntText(rd.month), IntText(rd.day), IntText(c.hour), IntText(c.minute)),
                rd.clock.Some?)
  }

  /** Two digits read as a month are the padded text of their value. */
  lemma MonthTextCanonical(s: string)
    requires ReadTwoDigits(s).Some?
    ensures var m := ReadTwoDigits(s).value; s == PadMonth(IntText(m.0)) + m.1
  {
    var d := s[..2];
    assert s == d + s[2..];
    assert d[..1] == [d[0]] && d[..1][..0] == [] && d[..|d| - 1] == d[..1];
    if s[0] == '0' {
      assert DigitsValue(d[..1]) == 0;
      assert DigitsValue(d) == DigitValue(d[1]);
      assert IntText(DigitValue(d[1])) == [d[1]];
      assert d == "0" + [d[1]];
    } else {
      CanonicalDigits(d);
    }
  }

  /** Whatever the time-part reader accepts is the rendering of the hour
      and minute it reads. */
  lemma ReadClockCanonical(s: string)
    requires ReadClock(s).Some?
    ensures var c := ReadClock(s).value;
      c.hour >= 0 && c.minute >= 0 && s == ClockText(NatText(c.hour), NatText(c.minute))
  {
    var r3 := Expect(s, "T").value;
    ExpectCanonical(s, "T");
    var h := ReadNat(r3).value;
    ReadNatCanonical(r3);
    var r4 := Expect(h.1, "\\:").value;
    ExpectCanonical(h.1, "\\:");
    var mi := ReadNat(r4).value;
    ReadNatCanonical(r4);
    ExpectCanonical(mi.1, "\\:00");
    assert ReadClock(s).value == Clock(h.0, mi.0);
    ClockParts(s, r3, NatText(h.0), h.1, r4, NatText(mi.0), mi.1);
  }

  /** Reassembles the pieces the time-part reader took apart. */
  lemma ClockParts(s: string, r3: string, hour: string, r6: string, r4: string, minute: string, r5: string)
    requires s == "T" + r3 && r3 == hour + r6 && r6 == "\\:" + r4
    requires r4 == minute + r5 && r5 == "\\:00" + ""
    ensures s == ClockText(hour, minute)
  {
    assert r5 == "\\:00";
    assert ClockText(hour, minute) == "T" + (hour + ("\\:" + (minute + "\\:00")));
  }

  /** Reassembles the pieces the date reader took apart. */
  lemma DateParts(s: string, year: string, r0: string, r1: string, month: string, r7: string, r2: string, day: string, rest: string)
    requires s == year + r0 && r0 == "-" + r1 && r1 == month + r7
    requires r7 == "-" + r2 && r2 == day + rest
    ensures s == year + "-" + month + "-" + day + rest
  {
    assert year + "-" + month + "-" + day + rest == year + ("-" + (month + ("-" + (day + rest))));
  }

  /** The reader accepts nothing but renderings: any text it reads is the
      text `convertDateToString` gives for the fields it reads, so no
      padded day, hour or minute and no `-0` year is read. */
  lemma {:induction false} ReadDateTextCanonical(s: string)
    requires ReadDateText(s).Some?
    ensures s == ReadingText(ReadDateText(s).value)
  {
    var y := ReadInt(s).value;
    var r1 := Expect(y.1, "-").value;
    var m := ReadTwoDigits(r1).value;
    var r2 := Expect(m.1, "-").value;
    var d := ReadNat(r2).value;
    ReadIntCanonical(s);
    ExpectCanonical(y.1, "-");
    MonthTextCanonical(r1);
    ExpectCanonical(m.1, "-");
    ReadNatCanonical(r2);
    DateParts(s, IntText(y.0), y.1, r1, PadMonth(IntText(m.0)), m.1, r2, NatText(d.0), d.1);
    var date := IntText(y.0) + "-" + PadMonth(IntText(m.0)) + "-" + NatText(d.0);
    assert IntText(d.0) == NatText(d.0);
    if d.1 == "" {
      var rd := Reading(y.0, m.0, d.0, None);
      assert ReadDateText(s).value == rd;
      assert ReadingText(rd) == date;
      assert s == date + "";
    } else {
      var c := ReadClock(d.1).value;
      var rd := Reading(y.0, m.0, d.0, Some(c));
      assert ReadDateText(s).value == rd;
      ReadClockCanonical(d.1);
      var h, mi := NatText(c.hour), NatText(c.minute);
      assert IntText(c.hour) == h && IntText(c.minute) == mi;
      assert ReadingText(rd) == date + ClockText(h, mi);
    }
  }

  /** A zero-padded day is not a rendering, and the reader refuses it,
      whatever follows: `2004-01-05` reads as nothing. */
  lemma {:induction false} PaddedDayIsRefused(year: int, month: int, c: char, tail: string)
    requires 1 <= month <= 12 && IsDigit(c)
    ensures ReadDateText(IntText(year) + "-" + PadMonth(IntText(month)) + "-" + ['0', c] + tail) == None
  {
    var y, m, d := IntText(year), PadMonth(IntText(month)), ['0', c] + tail;
    var r2 := m + ("-" + d);
    assert y + "-" + m + "-" + ['0', c] + tail == y + ("-" + r2);
    ReadIntText(year, "-" + r2);
    ExpectLiteral("-", r2);
    MonthIsTwoDigits(month, "-" + d);
    ExpectLiteral("-", d);
    assert d[1..][1..] == tail;
    assert DigitSpan(d) >= 2;
  }

  predicate NoSpace(s: string) { ' ' !in s }

  lemma IntTextHasNoSpace(i: int)
    ensures NoSpace(IntText(i))
  {
    var n := NatText(if i < 0 then -i else i);
    assert forall k :: 0 <= k < |n| ==> n[k] != ' ';
  }

  /** The two bounds of a query range, once defaults are applied. */
  datatype TimeRange = TimeRange(start: Instant, end: Instant)

  /** The `time` field of a query: both bounds rendered under one shared
      decision whether to include the time of day. */
  function RangeText(r: TimeRange): (s: string)
    ensures var includeTime := IsLessThan7Days(r.start, r.end);
      var k := |DateText(r.start, includeTime)|;
      && SpaceIndex(s) == k < |s|
      && s[..k] == DateText(r.start, includeTime)
      && s[k + 1..] == DateText(r.end, includeTime)
  {
    var includeTime := IsLessThan7Days(r.start, r.end);
    var x, y := DateText(r.start, includeTime), DateText(r.end, includeTime);
    SpaceIndexAfter(x, y);
    assert (x + " " + y)[..|x|] == x;
    assert (x + " " + y)[|x| + 1..] == y;
    x + " " + y
  }

  function SpaceIndex(s: string): (k: nat)
    ensures k <= |s|
  {
    if s == [] || s[0] == ' ' then 0 else 1 + SpaceIndex(s[1..])
  }

  /** Reads a `time` field back into its two bounds. */
  function ReadRangeText(s: string): Option<(Reading, Reading)> {
    var k := SpaceIndex(s);
    if k == |s| then None
    else
      var a :- ReadDateText(s[..k]);
      var b :- ReadDateText(s[k + 1..]);
      Some((a, b))
  }

  lemma {:induction false} SpaceIndexAfter(x: string, y: string)
    requires NoSpace(x)
    ensures SpaceIndex(x + " " + y) == |x|
    decreases |x|
  {
    if x == [] {
      assert x + " " + y == " " + y;
    } else {
      assert (x + " " + y)[1..] == x[1..] + " " + y;
      assert x[0] in x;
      SpaceIndexAfter(x[1..], y);
    }
  }

  /** The `time` field of a range of valid dates reads back as both bounds,
      each with its time of day exactly when the bounds are less than seven
      days apart. */
  lemma {:induction false} RangeTextRoundTrip(a: int, b: int)
    ensures var includeTime := -WeekMs < b - a < WeekMs;
      ReadRangeText(RangeText(TimeRange(At(a), At(b))))
        == Some((ReadingOf(a, includeTime), ReadingOf(b, includeTime)))
  {
    var includeTime := IsLessThan7Days(At(a), At(b));
    DateTextRoundTrip(a, includeTime);
    DateTextRoundTrip(b, includeTime);
  }

  /** Dates exactly seven days apart are rendered without time of day; one
      millisecond less and the time of day is included. */
  lemma SevenDayThreshold(t: int)
    ensures !IsLessThan7Days(At(t), At(t + 7 * MsPerDay))
    ensures IsLessThan7Days(At(t), At(t + 7 * MsPerDay - 1))
    ensures IsLessThan7Days(At(t + 7 * MsPerDay - 1), At(t))
    ensures !IsLessThan7Days(At(t + 7 * MsPerDay), At(t))
  {
  }

  /** The default start is midnight UTC on January 1, 2004. */
  lemma DefaultStartIsNewYear2004()
    ensures UtcFieldsOf(DefaultStartMs) == UtcTime(2004, 1, 1, 0, 0)
    ensures DaysFromCivil(2004, 1, 1) * MsPerDay == DefaultStartMs
  {
    assert YearOfEra(1401) == (3, 306);
    assert DateOfEra(5, 3, 306) == Civil(2004, 1, 1);
    assert 731886 / 146097 == 5 && 731886 % 146097 == 1401;
    assert CivilFromDays(12418) == Civil(2004, 1, 1);
    assert 1072915200000 / 86400000 == 12418 && 1072915200000 % 86400000 == 0;
  }

  /** 1073264820000 ms after the epoch is 2004-01-05T01:07Z. */
  lemma FieldsExample()
    ensures UtcFieldsOf(1073264820000) == UtcTime(2004, 1, 5, 1, 7)
  {
    assert YearOfEra(1405) == (3, 310);
    assert DateOfEra(5, 3, 310) == Civil(2004, 1, 5);
    assert 731890 / 146097 == 5 && 731890 % 146097 == 1405;
    assert CivilFromDays(12422) == Civil(2004, 1, 5);
    assert 1073264820000 / 86400000 == 12422 && 1073264820000 % 86400000 == 4020000;
    assert 4020000 / 3600000 == 1 && 4020000 / 60000 == 67;
  }

  /** Day, hour and minute are not zero-padded: 2004-01-05T01:07Z renders as
      `2004-01-5T1\:7\:00`. */
  lemma UnpaddedFieldsExample()
    ensures DateText(At(1073264820000), true) == "2004-01-5T1\\:7\\:00"
    ensures DateText(At(1073264820000), false) == "2004-01-5"
  {
    FieldsExample();
    assert NatText(2004) == "2004";
    assert NatText(1) == "1" && NatText(5) == "5" && NatText(7) == "7";
    var p := Parts("2004", "1", "5", "1", "7");
    assert PartsOf(At(1073264820000)) == p;
    assert DateText(At(1073264820000), true) == DateOfParts(p, true);
    assert DateText(At(1073264820000), false) == DateOfParts(p, false);
  }

  /** An Invalid Date passes the `instanceof Date` check and renders with
      NaN in every field; the three-character "NaN" is not padded. */
  lemma InvalidDateText()
    ensures DateText(InvalidDate, false) == "NaN-NaN-NaN"
    ensures DateText(InvalidDate, true) == "NaN-NaN-NaNTNaN\\:NaN\\:00"
    ensures forall d :: !IsLessThan7Days(InvalidDate, d) && !IsLessThan7Days(d, InvalidDate)
  {
  }

  /** A bound that is present but is not a `Date` object. */
  predicate NotADate(v: Value) { Truthy(v) && !v.Date? }

  /** `a > b` on two `Date` objects: false when either is an Invalid Date. */
  predicate Later(a: Value, b: Value) {
    a.Date? && b.Date? && a.time.At? && b.time.At? && a.time.ms > b.time.ms
  }

  /** The checks, swap and defaults of `formatTime`, on the two bounds as
      they are found on the query. */
  function NormalizeBounds(startTime: Value, endTime: Value, now: int): (r: Result<TimeRange, string>)
    ensures r.Failure? <==> NotADate(startTime) || NotADate(endTime)
    ensures r.Failure? ==> r.error == (if NotADate(startTime) then StartTimeMessage else EndTimeMessage)
    ensures r.Success? && startTime.Date? && endTime.Date? ==>
      r.value == (if Later(startTime, endTime) then TimeRange(endTime.time, startTime.time)
                  else TimeRange(startTime.time, endTime.time))
    ensures r.Success? && !Truthy(startTime) ==>
      r.value == TimeRange(At(DefaultStartMs), if Truthy(endTime) then endTime.time else At(now))
    ensures r.Success? && !Truthy(endTime) ==>
      r.value == TimeRange(if Truthy(startTime) then startTime.time else At(DefaultStartMs), At(now))
  {
    if NotADate(startTime) then Failure(StartTimeMessage)
    else if NotADate(endTime) then Failure(EndTimeMessage)
    else
      var swap := Truthy(startTime) && Truthy(endTime) && Later(startTime, endTime);
      var s := if swap then endTime else startTime;
      var e := if swap then startTime else endTime;
      Success(TimeRange(if Truthy(s) then s.time else At(DefaultStartMs), if Truthy(e) then e.time else At(now)))
  }

  /** When both bounds are supplied as valid dates, the normalised range is
      ordered and holds the same two instants. */
  lemma SuppliedBoundsAreOrdered(a: int, b: int, now: int)
    ensures var r := NormalizeBounds(Date(At(a)), Date(At(b)), now);
      r.Success? && r.value.start.ms <= r.value.end.ms
      && {r.value.start.ms, r.value.end.ms} == {a, b}
  {
  }

  /** The defaults are applied after the swap, so a range with one bound
      defaulted can come out reversed: a start after `now` and no end. */
  lemma DefaultedRangeCanBeReversed(now: int)
    ensures var r := NormalizeBounds(Date(At(now + 1)), Undefined, now);
      r.Success? && r.value.start.ms > r.value.end.ms
  {
  }

  /** The query's properties after a successful `formatTime`. */
  function WithRange(props: map<string, Value>, r: TimeRange): map<string, Value> {
    props["startTime" := Date(r.start)]["endTime" := Date(r.end)]["time" := Str(RangeText(r))]
  }

  /** Lines 24-38 of formatTime: the two type checks, the swap of a reversed
      pair through a temporary, then the two defaults, all on obj itself. */
  method SettleBounds(obj: JsObject, now: int) returns (error: Option<string>)
    modifies obj
    ensures obj.kind == old(obj.kind)
    ensures var b := NormalizeBounds(Prop(old(obj.props), "startTime"), Prop(old(obj.props), "endTime"), now);
      && (b.Failure? ==> error == Some(b.error) && obj.props == old(obj.props))
      && (b.Success? ==>
            error == None && obj.props == old(obj.props)["startTime" := Date(b.value.start)]["endTime" := Date(b.value.end)])
  {
    ghost var start0, end0 := Prop(obj.props, "startTime"), Prop(obj.props, "endTime");
    ghost var b := NormalizeBounds(start0, end0, now);
    if NotADate(Prop(obj.props, "startTime")) {
      return Some(StartTimeMessage);
    }
    if NotADate(Prop(obj.props, "endTime")) {
      return Some(EndTimeMessage);
    }
    ghost var swap := Truthy(start0) && Truthy(end0) && Later(start0, end0);
    ghost var s1, e1 := if swap then end0 else start0, if swap then start0 else end0;
    if Truthy(Prop(obj.props, "startTime")) && Truthy(Prop(obj.props, "endTime"))
      && Later(obj.props["startTime"], obj.props["endTime"])
    {
      var temp := obj.props["startTime"];
      obj.props := obj.props["startTime" := obj.props["endTime"]];
      obj.props := obj.props["endTime" := temp];
    }
    assert Prop(obj.props, "startTime") == s1 && Prop(obj.props, "endTime") == e1;
    assert obj.props == if swap then old(obj.props)["startTime" := s1]["endTime" := e1] else old(obj.props);
    if !Truthy(Prop(obj.props, "endTime")) {
      obj.props := obj.props["endTime" := Date(At(now))];
    }
    if !Truthy(Prop(obj.props, "startTime")) {
      obj.props := obj.props["startTime" := Date(At(DefaultStartMs))];
    }
    assert b == Success(TimeRange(if Truthy(s1) then s1.time else At(DefaultStartMs), if Truthy(e1) then e1.time else At(now)));
    error := None;
  }

  /** `formatTime(obj)`: on a bound that is present but not a `Date` it
      returns a new `Error` and leaves `obj` alone; otherwise it swaps,
      defaults and renders the bounds on `obj` itself and returns `obj`. */
  method FormatTime(obj: JsObject, now: int) returns (r: JsObject)
    modifies obj
    ensures obj.kind == old(obj.kind)
    ensures var b := NormalizeBounds(Prop(old(obj.props), "startTime"), Prop(old(obj.props), "endTime"), now);
      && (b.Failure? ==> fresh(r) && r.kind == ErrorObject(b.error) && r.props == map[] && obj.props == old(obj.props))
      && (b.Success? ==> r == obj && obj.props == WithRange(old(obj.props), b.value))
  {
    var error := SettleBounds(obj, now);
    if error.Some? {
      r := new JsObject(ErrorObject(error.value), map[]);
      return;
    }
    var startTime := obj.props["startTime"].time;
    var endTime := obj.props["endTime"].time;
    var includeTime := IsLessThan7Days(startTime, endTime);
    var startText := DateText(startTime, includeTime);
    var endText := DateText(endTime, includeTime);
    obj.props := obj.props["time" := Str(startText + " " + endText)];
    r := obj;
  }
}
