/** The class-creation form of TeacherDashboard.tsx: the day picker, the
    12-hour time selects, the schedule text the form builds from them, and
    the submit guard. The schedule text is what attendance.go later parses,
    so the form and the parser are related here. */
module ScheduleForm {
  import opened Wrappers
  import opened Text
  import opened Clock
  import opened Schedule
  import opened Ordering

  /** The seven day buttons, in the form's `dayOrder`. */
  datatype Day = Mon | Tue | Wed | Thu | Fri | Sat | Sun

  /** Position of a day in `dayOrder`. */
  function DayIndex(d: Day): (r: nat)
    ensures r < 7
  {
    match d
    case Mon => 0
    case Tue => 1
    case Wed => 2
    case Thu => 3
    case Fri => 4
    case Sat => 5
    case Sun => 6
  }

  lemma DayIndexInjective(a: Day, b: Day)
    ensures DayIndex(a) == DayIndex(b) ==> a == b
  {
  }

  /** The `dayAbbrs` table. */
  function Abbr(d: Day): (r: string)
    ensures 1 <= |r| <= 3 && ' ' !in r && '-' !in r
  {
    match d
    case Mon => "M"
    case Tue => "T"
    case Wed => "W"
    case Thu => "TH"
    case Fri => "F"
    case Sat => "SAT"
    case Sun => "SUN"
  }

  /** The abbreviations of the days, concatenated (`map(...).join('')`). */
  function Abbrs(days: seq<Day>): (r: string)
    ensures ' ' !in r && '-' !in r
    ensures |days| > 0 ==> |r| > 0
  {
    if |days| == 0 then "" else Abbr(days[0]) + Abbrs(days[1..])
  }

  /** Sort key placing days in week order. */
  function WeekKey(d: Day): seq<int> {
    [DayIndex(d) as int]
  }

  /** The selected days in week order (`[...days].sort(...)`). */
  function SortDays(days: seq<Day>): (r: seq<Day>)
    ensures multiset(r) == multiset(days) && |r| == |days|
    ensures forall i, j :: 0 <= i < j < |r| ==> DayIndex(r[i]) <= DayIndex(r[j])
  {
    var r := SortBy(days, WeekKey);
    forall i, j | 0 <= i < j < |r|
      ensures DayIndex(r[i]) <= DayIndex(r[j])
    {
      assert LexLeq(WeekKey(r[i]), WeekKey(r[j]));
    }
    r
  }

  /** The day part of the schedule: "TTH" for exactly Tuesday and Thursday,
      otherwise the abbreviations in order. */
  function DayString(sorted: seq<Day>): (r: string)
    ensures ' ' !in r && '-' !in r
    ensures |sorted| > 0 ==> |r| > 0
  {
    if |sorted| == 2 && Tue in sorted && Thu in sorted then "TTH" else Abbrs(sorted)
  }

  /** The "TTH" special case writes what the general rule writes anyway. */
  lemma TthIsPlainConcatenation(sorted: seq<Day>)
    requires forall i, j :: 0 <= i < j < |sorted| ==> DayIndex(sorted[i]) <= DayIndex(sorted[j])
    requires |sorted| == 2 && Tue in sorted && Thu in sorted
    ensures DayString(sorted) == Abbrs(sorted)
  {
    OnlyTueThu(sorted);
    AbbrsTueThu();
  }

  lemma OnlyTueThu(sorted: seq<Day>)
    requires |sorted| == 2 && DayIndex(sorted[0]) <= DayIndex(sorted[1])
    requires Tue in sorted && Thu in sorted
    ensures sorted == [Tue, Thu]
  {
    assert sorted[0] == Tue && sorted[1] == Thu;
  }

  lemma AbbrsTueThu()
    ensures Abbrs([Tue, Thu]) == "TTH"
  {
    assert [Thu][1..] == [];
    assert [Tue, Thu][1..] == [Thu];
    assert Abbrs([Tue, Thu]) == "T" + ("TH" + "");
  }

  /** The values the hour and minute selects offer. */
  predicate HourOption(h: nat) {
    1 <= h <= 12
  }

  predicate MinuteOption(m: nat) {
    m == 0 || m == 15 || m == 30 || m == 45
  }

  /** `formatSchedule`: "" with no day selected, otherwise the day string,
      a space, the start time "h:mm AM", '-', and the end time. */
  function FormatSchedule(days: seq<Day>, sh: nat, sm: nat, spm: bool, eh: nat, em: nat, epm: bool): (r: string)
    requires HourOption(sh) && MinuteOption(sm) && HourOption(eh) && MinuteOption(em)
    ensures r == "" <==> |days| == 0
  {
    if |days| == 0 then ""
    else DayString(SortDays(days)) + " " + ClockText(sh, sm, spm) + "-" + ClockText(eh, em, epm)
  }

  /** Four space-free pieces joined by single spaces split back into those pieces. */
  lemma SplitFour(a: string, b: string, c: string, d: string)
    requires ' ' !in a && ' ' !in b && ' ' !in c && ' ' !in d
    ensures Split(a + " " + (b + " " + (c + " " + d)), ' ') == [a, b, c, d]
  {
    SplitSingle(d, ' ');
    SplitCons(c, ' ', d);
    SplitCons(b, ' ', c + " " + d);
    SplitCons(a, ' ', b + " " + (c + " " + d));
  }

  /** The start token "h:mm" of a time display. */
  function StartToken(h: nat, m: nat): (r: string)
    requires h < 100 && m < 100
    ensures ' ' !in r
  {
    var r := Decimal(h) + ":" + TwoDigits(m);
    assert forall i :: 0 <= i < |r| ==> r[i] == ':' || IsDigit(r[i]);
    r
  }

  /** The middle token "AM-h:mm": the start marker, '-', and the end hour and minute. */
  function MiddleToken(spm: bool, eh: nat, em: nat): (r: string)
    requires eh < 100 && em < 100
    ensures ' ' !in r
  {
    var r := Marker(spm) + "-" + StartToken(eh, em);
    assert forall i :: 0 <= i < |r| ==> r[i] != ' ';
    r
  }

  lemma ClockTextShape(h: nat, m: nat, pm: bool)
    requires h <= 12 && m < 60
    ensures ClockText(h, m, pm) == StartToken(h, m) + " " + Marker(pm)
  {
  }

  lemma FormatScheduleShape(days: seq<Day>, sh: nat, sm: nat, spm: bool, eh: nat, em: nat, epm: bool)
    requires HourOption(sh) && MinuteOption(sm) && HourOption(eh) && MinuteOption(em)
    requires |days| > 0
    ensures FormatSchedule(days, sh, sm, spm, eh, em, epm) ==
      DayString(SortDays(days)) + " " + (StartToken(sh, sm) + " " + (MiddleToken(spm, eh, em) + " " + Marker(epm)))
  {
    var a, b, c, d := DayString(SortDays(days)), StartToken(sh, sm), MiddleToken(spm, eh, em), Marker(epm);
    ClockTextShape(sh, sm, spm);
    ClockTextShape(eh, em, epm);
    assert FormatSchedule(days, sh, sm, spm, eh, em, epm) ==
      a + " " + (b + " " + Marker(spm)) + "-" + (StartToken(eh, em) + " " + d);
    Regroup(a, b, Marker(spm), StartToken(eh, em), d);
  }

  /** Regrouping the concatenation of the schedule text around its spaces. */
  lemma Regroup(a: string, b: string, p: string, e: string, d: string)
    ensures a + " " + (b + " " + p) + "-" + (e + " " + d) == a + " " + (b + " " + ((p + "-" + e) + " " + d))
  {
  }

  /** The schedule text is exactly four space-separated tokens: the days,
      "h:mm", "AM-h:mm" and the end marker. */
  lemma FormatScheduleTokens(days: seq<Day>, sh: nat, sm: nat, spm: bool, eh: nat, em: nat, epm: bool)
    requires HourOption(sh) && MinuteOption(sm) && HourOption(eh) && MinuteOption(em)
    requires |days| > 0
    ensures Split(FormatSchedule(days, sh, sm, spm, eh, em, epm), ' ') ==
      [DayString(SortDays(days)), StartToken(sh, sm), MiddleToken(spm, eh, em), Marker(epm)]
  {
    FormatScheduleShape(days, sh, sm, spm, eh, em, epm);
    SplitFour(DayString(SortDays(days)), StartToken(sh, sm), MiddleToken(spm, eh, em), Marker(epm));
  }

  /** The start time the attendance engine parses from a schedule written by
      the form is the chosen start time. */
  lemma FormatThenParseStart(days: seq<Day>, sh: nat, sm: nat, spm: bool, eh: nat, em: nat, epm: bool)
    requires HourOption(sh) && MinuteOption(sm) && HourOption(eh) && MinuteOption(em)
    requires |days| > 0
    ensures ParseStartTime(FormatSchedule(days, sh, sm, spm, eh, em, epm)) == Ok(Hour24(sh, spm) * 3600 + sm * 60)
  {
    FormatScheduleTokens(days, sh, sm, spm, eh, em, epm);
    StartOfTokens(FormatSchedule(days, sh, sm, spm, eh, em, epm), DayString(SortDays(days)),
                  sh, sm, spm, eh, em, epm);
  }

  lemma StartOfTokens(text: string, a: string, sh: nat, sm: nat, spm: bool, eh: nat, em: nat, epm: bool)
    requires HourOption(sh) && MinuteOption(sm) && HourOption(eh) && MinuteOption(em)
    requires Split(text, ' ') == [a, StartToken(sh, sm), MiddleToken(spm, eh, em), Marker(epm)]
    ensures ParseStartTime(text) == Ok(Hour24(sh, spm) * 3600 + sm * 60)
  {
    var parts := Split(text, ' ');
    var clock := ClockText(sh, sm, spm);
    CutMiddle(spm, eh, em);
    ClockTextShape(sh, sm, spm);
    assert parts[1] + " " + CutAtDash(parts[2]) == clock;
    ParseClockText(sh, sm, spm);
    ParseStartOf(text, clock, To24(sh, spm) * 3600 + sm * 60);
    Hour24AgreesWithParser(sh, spm);
  }

  lemma CutMiddle(spm: bool, eh: nat, em: nat)
    requires eh < 100 && em < 100
    ensures CutAtDash(MiddleToken(spm, eh, em)) == Marker(spm)
  {
    var mid := MiddleToken(spm, eh, em);
    assert mid[..2] == Marker(spm) && mid[2] == '-';
    assert IndexOf(mid, '-') == 2;
  }

  /** A schedule written by the form never opens the auto-mark window:
      with four tokens the window check answers false on every day. */
  lemma FormatWindowClosed(days: seq<Day>, sh: nat, sm: nat, spm: bool, eh: nat, em: nat, epm: bool, now: Instant)
    requires HourOption(sh) && MinuteOption(sm) && HourOption(eh) && MinuteOption(em)
    requires ValidDate(now.date)
    ensures WithinScheduleAsWritten(FormatSchedule(days, sh, sm, spm, eh, em, epm), now) == Answer(false)
    ensures !WithinSchedule(FormatSchedule(days, sh, sm, spm, eh, em, epm), now)
  {
    if |days| > 0 {
      FormatScheduleTokens(days, sh, sm, spm, eh, em, epm);
    } else {
      assert Split("", ' ') == [""];
    }
  }

  /** The hour `convertTo24Hour` computes: PM adds twelve except at 12, and 12 AM is 0. */
  function Hour24(h: nat, pm: bool): (r: nat)
    requires HourOption(h)
    ensures r < 24
    ensures pm <==> r >= 12
    ensures r % 12 == h % 12
  {
    if pm && h != 12 then h + 12 else if !pm && h == 12 then 0 else h
  }

  /** `convertTo24Hour`: the two-digit 24-hour hour, ':', and the minute. */
  function ConvertTo24Hour(h: nat, m: nat, pm: bool): (r: string)
    requires HourOption(h) && MinuteOption(m)
    ensures |r| == 5 && r[2] == ':'
    ensures IsDigit(r[0]) && IsDigit(r[1]) && IsDigit(r[3]) && IsDigit(r[4])
    ensures DigitVal(r[0]) * 10 + DigitVal(r[1]) == Hour24(h, pm)
    ensures DigitVal(r[3]) * 10 + DigitVal(r[4]) == m
  {
    var hh, mm := TwoDigits(Hour24(h, pm)), TwoDigits(m);
    var r := hh + ":" + mm;
    assert r[0] == hh[0] && r[1] == hh[1] && r[3] == mm[0] && r[4] == mm[1];
    r
  }

  /** The form's 24-hour conversion and the engine's 12-hour reading agree on every selectable hour. */
  lemma Hour24AgreesWithParser(h: nat, pm: bool)
    requires HourOption(h)
    ensures Hour24(h, pm) == To24(h, pm)
  {
  }

  /** Removes every occurrence of a day (`filter(d => d !== day)`). */
  function Remove(days: seq<Day>, d: Day): (r: seq<Day>)
    ensures d !in r
    ensures forall x :: x != d ==> (x in r <==> x in days)
    ensures d !in days ==> r == days
  {
    if |days| == 0 then []
    else if days[0] == d then Remove(days[1..], d)
    else
      assert days == [days[0]] + days[1..];
      [days[0]] + Remove(days[1..], d)
  }

  /** The `toggleDay` updater: drops a selected day, appends an unselected one. */
  function ToggleDay(days: seq<Day>, d: Day): (r: seq<Day>)
    ensures d in r <==> d !in days
    ensures forall x :: x != d ==> (x in r <==> x in days)
  {
    if d in days then Remove(days, d) else days + [d]
  }

  /** Toggling a day twice restores which days are selected; starting from
      an unselected day it restores the list itself. */
  lemma ToggleTwice(days: seq<Day>, d: Day)
    ensures forall x :: x in ToggleDay(ToggleDay(days, d), d) <==> x in days
    ensures d !in days ==> ToggleDay(ToggleDay(days, d), d) == days
  {
    if d !in days {
      RemoveAppended(days, d);
    }
  }

  lemma {:induction false} RemoveAppended(days: seq<Day>, d: Day)
    requires d !in days
    ensures Remove(days + [d], d) == days
    decreases |days|
  {
    if |days| == 0 {
      assert Remove([d], d) == Remove([], d);
    } else {
      assert (days + [d])[1..] == days[1..] + [d];
      RemoveAppended(days[1..], d);
      assert [days[0]] + days[1..] == days;
    }
  }

  /** The checks `handleSubmit` makes, in order, before creating the class. */
  function SubmitCheck(edpCode: string, subjectCode: string, title: string, days: seq<Day>): (r: Result<(), string>)
    ensures r.Ok? <==> edpCode != "" && subjectCode != "" && title != "" && |days| > 0
    ensures edpCode == "" ==> r == Err("EDP Code is required.")
    ensures edpCode != "" && subjectCode == "" ==> r == Err("Subject Code is required.")
    ensures edpCode != "" && subjectCode != "" && title == "" ==> r == Err("Descriptive Title is required.")
    ensures edpCode != "" && subjectCode != "" && title != "" && |days| == 0 ==>
      r == Err("Please select at least one day of the week.")
  {
    if edpCode == "" then Err("EDP Code is required.")
    else if subjectCode == "" then Err("Subject Code is required.")
    else if title == "" then Err("Descriptive Title is required.")
    else if |days| == 0 then Err("Please select at least one day of the week.")
    else Ok(())
  }

  /** A form that passes the submit guard always yields a non-empty schedule. */
  lemma SubmittedScheduleNonEmpty(edpCode: string, subjectCode: string, title: string, days: seq<Day>,
                                  sh: nat, sm: nat, spm: bool, eh: nat, em: nat, epm: bool)
    requires HourOption(sh) && MinuteOption(sm) && HourOption(eh) && MinuteOption(em)
    requires SubmitCheck(edpCode, subjectCode, title, days).Ok?
    ensures FormatSchedule(days, sh, sm, spm, eh, em, epm) != ""
    ensures ParseStartTime(FormatSchedule(days, sh, sm, spm, eh, em, epm)).Ok?
  {
    FormatThenParseStart(days, sh, sm, spm, eh, em, epm);
  }
}
