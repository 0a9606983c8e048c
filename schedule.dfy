/** Reading class schedules: the Go layout "3:04 PM", the start time used for
    attendance classification, and the login window used by auto-marking
    (attendance.go). Times of day are seconds after midnight. */
module Schedule {
  import opened Wrappers
  import opened Text
  import opened Clock

  /** Drops leading ASCII spaces (Go's `cutspace`). */
  function DropSpaces(s: string): (r: string)
    ensures |r| <= |s| && r == s[|s| - |r|..]
    ensures r == [] || r[0] != ' '
    decreases |s|
  {
    if |s| > 0 && s[0] == ' ' then DropSpaces(s[1..]) else s
  }

  /** Hour on the 24-hour clock for a 12-hour reading, as Go's parser computes it. */
  function To24(h: int, pm: bool): int {
    if pm && h < 12 then h + 12 else if !pm && h == 12 then 0 else h
  }

  /** The hour field of "3:04 PM": one digit, or two when a second digit follows. */
  function ParseHour(s: string): (r: Option<(nat, string)>)
    ensures r.Some? ==> |r.value.1| < |s|
  {
    if |s| == 0 || !IsDigit(s[0]) then None
    else if |s| >= 2 && IsDigit(s[1]) then Some((DigitVal(s[0]) * 10 + DigitVal(s[1]), s[2..]))
    else Some((DigitVal(s[0]), s[1..]))
  }

  /** The part of "3:04 PM" after the hour: ':', two minute digits, one or
      more spaces and the marker; gives the minute and whether it is PM. */
  function ParseMinuteMarker(rest: string): (r: Option<(nat, bool)>)
    ensures r.Some? ==> r.value.0 < 60
  {
    if |rest| < 4 || rest[0] != ':' || !IsDigit(rest[1]) || !IsDigit(rest[2]) || rest[3] != ' ' then None
    else
      var m := DigitVal(rest[1]) * 10 + DigitVal(rest[2]);
      var ap := DropSpaces(rest[3..]);
      if m >= 60 || (ap != "AM" && ap != "PM") then None
      else Some((m, ap == "PM"))
  }

  /** Go's `time.Parse("3:04 PM", s)`, giving the time of day in seconds:
      a one- or two-digit hour 0..12, ':', a two-digit minute 00..59, one or
      more spaces, "AM" or "PM", and nothing after it. */
  function ParseClock(s: string): (r: Option<int>)
    ensures r.Some? ==> 0 <= r.value < 86400 && r.value % 60 == 0
  {
    match ParseHour(s)
    case None => None
    case Some((h, rest)) =>
      if h > 12 then None
      else
        match ParseMinuteMarker(rest)
        case None => None
        case Some((m, pm)) => Some(To24(h, pm) * 3600 + m * 60)
  }

  function Marker(pm: bool): string {
    if pm then "PM" else "AM"
  }

  /** The 12-hour text "h:mm AM" with the hour written without a leading zero. */
  function ClockText(h: nat, m: nat, pm: bool): string
    requires h <= 12 && m < 60
  {
    Decimal(h) + (":" + TwoDigits(m) + " " + Marker(pm))
  }

  lemma ParseHourDecimal(h: nat, rest: string)
    requires h < 100 && |rest| > 0 && rest[0] == ':'
    ensures ParseHour(Decimal(h) + rest) == Some((h, rest))
  {
    var d := Decimal(h);
    if |d| == 1 {
      assert (d + rest)[1..] == rest;
    } else {
      assert (d + rest)[2..] == rest;
    }
  }

  lemma ParseMinuteMarkerText(m: nat, pm: bool)
    requires m < 60
    ensures ParseMinuteMarker(":" + TwoDigits(m) + " " + Marker(pm)) == Some((m, pm))
  {
    MinuteTextShape(m, pm);
    DropMarkerSpace(pm);
    ParseMinuteMarkerOf(":" + TwoDigits(m) + " " + Marker(pm), m, pm);
  }

  lemma MinuteTextShape(m: nat, pm: bool)
    requires m < 60
    ensures var rest := ":" + TwoDigits(m) + " " + Marker(pm);
      && |rest| >= 4 && rest[0] == ':' && IsDigit(rest[1]) && IsDigit(rest[2]) && rest[3] == ' '
      && DigitVal(rest[1]) * 10 + DigitVal(rest[2]) == m
      && rest[3..] == " " + Marker(pm)
  {
    var td := TwoDigits(m);
    var rest := ":" + td + " " + Marker(pm);
    assert rest == [':', td[0], td[1], ' '] + Marker(pm);
  }

  lemma MarkerCases(pm: bool)
    ensures Marker(pm) == "AM" || Marker(pm) == "PM"
    ensures Marker(pm) == "PM" <==> pm
  {
  }

  lemma ParseMinuteMarkerOf(rest: string, m: nat, pm: bool)
    requires |rest| >= 4 && rest[0] == ':' && IsDigit(rest[1]) && IsDigit(rest[2]) && rest[3] == ' '
    requires DigitVal(rest[1]) * 10 + DigitVal(rest[2]) == m < 60
    requires DropSpaces(rest[3..]) == Marker(pm)
    ensures ParseMinuteMarker(rest) == Some((m, pm))
  {
    MarkerCases(pm);
  }

  lemma DropMarkerSpace(pm: bool)
    ensures DropSpaces(" " + Marker(pm)) == Marker(pm)
  {
    assert (" " + Marker(pm))[1..] == Marker(pm);
  }

  lemma ParseClockOf(s: string, h: nat, rest: string, m: nat, pm: bool)
    requires ParseHour(s) == Some((h, rest)) && h <= 12 && ParseMinuteMarker(rest) == Some((m, pm))
    ensures ParseClock(s) == Some(To24(h, pm) * 3600 + m * 60)
  {
  }

  /** Every well-formed 12-hour text parses to the time it names. */
  lemma ParseClockText(h: nat, m: nat, pm: bool)
    requires h <= 12 && m < 60
    ensures ParseClock(ClockText(h, m, pm)) == Some(To24(h, pm) * 3600 + m * 60)
  {
    var rest := ":" + TwoDigits(m) + " " + Marker(pm);
    ParseHourDecimal(h, rest);
    ParseMinuteMarkerText(m, pm);
    ParseClockOf(Decimal(h) + rest, h, rest, m, pm);
  }

  /** The text up to the first '-', as `parseScheduleStartTime` cuts the AM/PM token. */
  function CutAtDash(s: string): (r: string)
    ensures '-' !in r && IsPrefix(r, s)
    ensures '-' !in s ==> r == s
  {
    var i := IndexOf(s, '-');
    if i == -1 then s else s[..i]
  }

  datatype StartError = InvalidFormat | BadStartTime

  /** `parseScheduleStartTime`: the schedule is split on single spaces; with
      fewer than three pieces it is malformed; otherwise the second piece,
      a space, and the third piece cut at its first '-' must read as a
      12-hour time, which is the class start (whole minutes). */
  function ParseStartTime(schedule: string): (r: Result<int, StartError>)
    ensures |Split(schedule, ' ')| < 3 <==> r == Err(InvalidFormat)
    ensures r.Ok? ==> 0 <= r.value < 86400 && r.value % 60 == 0
    ensures r.Ok? <==> (|Split(schedule, ' ')| >= 3
      && ParseClock(Split(schedule, ' ')[1] + " " + CutAtDash(Split(schedule, ' ')[2])).Some?)
  {
    var parts := Split(schedule, ' ');
    if |parts| < 3 then Err(InvalidFormat)
    else
      match ParseClock(parts[1] + " " + CutAtDash(parts[2]))
      case None => Err(BadStartTime)
      case Some(t) => Ok(t)
  }

  /** A schedule whose start pieces read as time `t` starts at `t`. */
  lemma ParseStartOf(schedule: string, clock: string, t: int)
    requires |Split(schedule, ' ')| >= 3
    requires Split(schedule, ' ')[1] + " " + CutAtDash(Split(schedule, ' ')[2]) == clock
    requires ParseClock(clock) == Some(t)
    ensures ParseStartTime(schedule) == Ok(t)
  {
  }

  /** Outcome of `isWithinClassSchedule`: an answer, or the out-of-range
      index at `parts[5]` that Go reports as a run-time panic. */
  datatype WindowCheck = Answer(inside: bool) | IndexPanic

  /** The three-letter day prefix Go compares against, e.g. "mon". */
  function DayPrefix(w: Weekday): (r: string)
    ensures |r| == 3
  {
    Lower(WeekdayName(w)[..3])
  }

  /** Time of day truncated to whole minutes, as `isWithinClassSchedule` reads "now". */
  function MinuteOf(secs: int): int {
    secs / 60 * 60
  }

  /** `isWithinClassSchedule` as written (attendance.go:586-626). */
  function WithinScheduleAsWritten(schedule: string, now: Instant): (r: WindowCheck)
    requires ValidDate(now.date)
    ensures |Split(schedule, ' ')| < 5 ==> r == Answer(false)
    ensures r == IndexPanic <==> var parts := Split(schedule, ' ');
      |parts| == 5 && Contains(Lower(parts[0]), DayPrefix(WeekdayOf(now.date)))
      && ParseClock(parts[1] + " " + parts[2]).Some?
    ensures r == Answer(true) ==> Contains(Lower(Split(schedule, ' ')[0]), DayPrefix(WeekdayOf(now.date)))
  {
    var parts := Split(schedule, ' ');
    if |parts| < 5 then Answer(false)
    else if !Contains(Lower(parts[0]), DayPrefix(WeekdayOf(now.date))) then Answer(false)
    else
      match ParseClock(parts[1] + " " + parts[2])
      case None => Answer(false)
      case Some(start) =>
        if |parts| < 6 then IndexPanic
        else
          match ParseClock(parts[4] + " " + parts[5])
          case None => Answer(false)
          case Some(end) => Answer(start - 600 <= MinuteOf(now.secs) <= end)
  }

  /** The window check with the missing length guard added: a schedule needs
      six pieces before the end time is read. */
  function WithinSchedule(schedule: string, now: Instant): (r: bool)
    requires ValidDate(now.date)
    ensures r <==> var parts := Split(schedule, ' ');
      && |parts| >= 6
      && Contains(Lower(parts[0]), DayPrefix(WeekdayOf(now.date)))
      && ParseClock(parts[1] + " " + parts[2]).Some?
      && ParseClock(parts[4] + " " + parts[5]).Some?
      && ParseClock(parts[1] + " " + parts[2]).value - 600 <= MinuteOf(now.secs)
      && MinuteOf(now.secs) <= ParseClock(parts[4] + " " + parts[5]).value
  {
    var parts := Split(schedule, ' ');
    if |parts| < 6 then false
    else WithinScheduleAsWritten(schedule, now) == Answer(true)
  }

  /** The corrected check never disagrees with the original where the
      original answers, and it answers false where the original panics. */
  lemma WithinScheduleAgrees(schedule: string, now: Instant)
    requires ValidDate(now.date)
    ensures WithinScheduleAsWritten(schedule, now).Answer? ==>
      WithinSchedule(schedule, now) == WithinScheduleAsWritten(schedule, now).inside
    ensures WithinScheduleAsWritten(schedule, now) == IndexPanic ==> !WithinSchedule(schedule, now)
  {
  }

  /** Five space-free pieces joined by single spaces split back into those pieces. */
  lemma SplitFive(a: string, b: string, c: string, d: string, e: string)
    requires ' ' !in a && ' ' !in b && ' ' !in c && ' ' !in d && ' ' !in e
    ensures Split(a + " " + (b + " " + (c + " " + (d + " " + e))), ' ') == [a, b, c, d, e]
  {
    var t4 := d + " " + e;
    var t3 := c + " " + t4;
    var t2 := b + " " + t3;
    SplitSingle(e, ' ');
    SplitCons(d, ' ', e);
    SplitCons(c, ' ', t4);
    SplitCons(b, ' ', t3);
    SplitCons(a, ' ', t2);
  }

  lemma SampleJoined()
    ensures "Mon" + " " + ("8:00" + " " + ("AM" + " " + ("-10:00" + " " + "AM"))) == "Mon 8:00 AM -10:00 AM"
  {
  }

  lemma SampleSpaceFree()
    ensures ' ' !in "Mon" && ' ' !in "8:00" && ' ' !in "AM" && ' ' !in "-10:00"
  {
  }

  lemma SamplePieces(schedule: string)
    requires schedule == "Mon 8:00 AM -10:00 AM"
    ensures Split(schedule, ' ') == ["Mon", "8:00", "AM", "-10:00", "AM"]
  {
    SampleSpaceFree();
    SplitFive("Mon", "8:00", "AM", "-10:00", "AM");
    SampleJoined();
  }

  lemma SampleDayMatches()
    ensures Contains(Lower("Mon"), DayPrefix(WeekdayOf(Date(2024, 1, 1))))
  {
    assert WeekdayOf(Date(2024, 1, 1)) == Monday;
    assert DayPrefix(Monday) == "mon";
    assert Lower("Mon") == "mon";
    assert IsPrefix("mon", "mon");
  }

  lemma SampleStartParses()
    ensures ParseClock("8:00" + " " + "AM") == Some(8 * 3600)
  {
    ParseClockText(8, 0, false);
    SampleClockText();
  }

  lemma SampleClockText()
    ensures ClockText(8, 0, false) == "8:00" + " " + "AM"
  {
    assert Decimal(8) == "8";
    assert TwoDigits(0) == "00";
  }

  /** A five-piece schedule on a matching day with a readable start time
      reaches the out-of-range index: "Mon 8:00 AM -10:00 AM" read at 8:00
      on Monday 2024-01-01. */
  lemma FivePieceSchedulePanics(schedule: string, now: Instant)
    requires schedule == "Mon 8:00 AM -10:00 AM" && now == Instant(Date(2024, 1, 1), 8 * 3600)
    ensures WithinScheduleAsWritten(schedule, now) == IndexPanic
  {
    SamplePieces(schedule);
    SampleDayMatches();
    SampleStartParses();
  }
}
