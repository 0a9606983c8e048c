/** Helpers of app.go: `nullString`, `convertToInterfaceSlice`, the
    placeholder list of `GetRecentAttendance`, and the counting loop of
    `GetStudentDashboard`. */
module App {
  import opened Wrappers
  import opened Text

  /** `nullString`: the empty text becomes SQL NULL, any other text is kept. */
  function NullString(s: string): (r: Option<string>)
    ensures r.None? <==> s == ""
    ensures r.Some? ==> r.value == s
  {
    if s == "" then None else Some(s)
  }

  /** What a nullable column holds again reads back as text, NULL as "". */
  lemma NullStringRoundTrip(s: string)
    ensures NullString(s).GetOr("") == s
  {
  }

  /** A value handed to the SQL driver as a variadic argument. */
  datatype Arg = IntArg(n: int)

  /** `convertToInterfaceSlice`: boxes each id, keeping length and order. */
  method ToArgs(nums: seq<int>) returns (r: seq<Arg>)
    ensures |r| == |nums|
    ensures forall i :: 0 <= i < |nums| ==> r[i] == IntArg(nums[i])
  {
    var a := new Arg[|nums|](_ => IntArg(0));
    for i := 0 to |nums|
      invariant forall k :: 0 <= k < i ==> a[k] == IntArg(nums[k])
    {
      a[i] := IntArg(nums[i]);
    }
    r := a[..];
  }

  /** `n` copies of the placeholder "?". */
  function Marks(n: nat): (r: seq<string>)
    ensures |r| == n
  {
    seq(n, _ => "?")
  }

  lemma {:induction false} JoinMarksCount(n: nat)
    ensures Count(Join(Marks(n), ","), '?') == n
  {
    if n > 1 {
      JoinMarksCount(n - 1);
      assert Marks(n)[1..] == Marks(n - 1);
      CountAppend("?" + ",", Join(Marks(n - 1), ","), '?');
      CountAppend("?", ",", '?');
    }
  }

  /** The statement `GetRecentAttendance` would send: an id list whose
      placeholders are bound to the ids followed by the day count. */
  datatype RecentQuery = RecentQuery(placeholders: string, args: seq<Arg>)

  /** `GetRecentAttendance`: an empty id list returns an empty result
      without querying (`None`); otherwise builds one "?" per id, joined by
      commas, and binds the ids and then `days`. */
  method RecentAttendanceQuery(classIds: seq<int>, days: int) returns (r: Option<RecentQuery>)
    ensures r.None? <==> |classIds| == 0
    ensures r.Some? ==> r.value.placeholders == Join(Marks(|classIds|), ",")
    ensures r.Some? ==> Count(r.value.placeholders, '?') == |classIds|
    ensures r.Some? ==>
      |r.value.args| == |classIds| + 1
      && (forall i :: 0 <= i < |classIds| ==> r.value.args[i] == IntArg(classIds[i]))
      && r.value.args[|classIds|] == IntArg(days)
  {
    if |classIds| == 0 {
      return None;
    }
    var marks: seq<string> := [];
    var args: seq<Arg> := [];
    for i := 0 to |classIds|
      invariant marks == Marks(i)
      invariant |args| == i && forall k :: 0 <= k < i ==> args[k] == IntArg(classIds[k])
    {
      marks := marks + ["?"];
      args := args + [IntArg(classIds[i])];
    }
    JoinMarksCount(|classIds|);
    return Some(RecentQuery(Join(marks, ","), args + [IntArg(days)]));
  }

  /** One row of the student's attendance history as the dashboard scans
      it: the formatted date and the status text. */
  datatype HistoryRow = HistoryRow(date: string, status: string)

  /** Number of rows whose status is exactly `status` (Go's `==` is case-sensitive). */
  function CountStatus(rows: seq<HistoryRow>, status: string): (n: nat)
    ensures n <= |rows|
  {
    if |rows| == 0 then 0
    else CountStatus(rows[..|rows| - 1], status) + (if rows[|rows| - 1].status == status then 1 else 0)
  }

  lemma {:induction false} CountStatusNone(rows: seq<HistoryRow>, status: string)
    requires forall i :: 0 <= i < |rows| ==> rows[i].status != status
    ensures CountStatus(rows, status) == 0
  {
    if |rows| > 0 {
      CountStatusNone(rows[..|rows| - 1], status);
    }
  }

  lemma {:induction false} CountStatusAll(rows: seq<HistoryRow>, status: string)
    requires forall i :: 0 <= i < |rows| ==> rows[i].status == status
    ensures CountStatus(rows, status) == |rows|
  {
    if |rows| > 0 {
      CountStatusAll(rows[..|rows| - 1], status);
    }
  }

  /** Index of the first row, in query order, dated `today`. */
  function FirstOnDate(rows: seq<HistoryRow>, today: string): (r: Option<nat>)
    ensures r.None? <==> forall i :: 0 <= i < |rows| ==> rows[i].date != today
    ensures r.Some? ==>
      r.value < |rows| && rows[r.value].date == today
      && forall i :: 0 <= i < r.value ==> rows[i].date != today
  {
    if |rows| == 0 then None
    else match FirstOnDate(rows[..|rows| - 1], today)
      case Some(i) => Some(i)
      case None => if rows[|rows| - 1].date == today then Some(|rows| - 1) else None
  }

  /** The counting loop of `GetStudentDashboard`: counts the rows whose
      status equals `counted` and remembers the first record of today. */
  method Tally(rows: seq<HistoryRow>, today: string, counted: string) returns (present: nat, todayLog: Option<nat>)
    ensures present == CountStatus(rows, counted)
    ensures todayLog == FirstOnDate(rows, today)
  {
    present := 0;
    todayLog := None;
    var i := 0;
    while i < |rows|
      invariant 0 <= i <= |rows|
      invariant present == CountStatus(rows[..i], counted)
      invariant todayLog == FirstOnDate(rows[..i], today)
    {
      assert rows[..i + 1][..i] == rows[..i];
      if rows[i].status == counted {
        present := present + 1;
      }
      if rows[i].date == today && todayLog.None? {
        todayLog := Some(i);
      }
      i := i + 1;
    }
    assert rows[..i] == rows;
  }

  /** The statuses the attendance engine stores. */
  predicate EngineStatus(status: string) {
    status == "present" || status == "late" || status == "absent"
  }

  /** `GetStudentDashboard` as written compares with "Present", which no
      stored status equals: the present count of a history written by the
      engine is always zero. */
  method DashboardAsWritten(rows: seq<HistoryRow>, today: string) returns (present: nat, todayLog: Option<nat>)
    ensures (forall i :: 0 <= i < |rows| ==> EngineStatus(rows[i].status)) ==> present == 0
    ensures todayLog == FirstOnDate(rows, today)
  {
    present, todayLog := Tally(rows, today, "Present");
    if forall i :: 0 <= i < |rows| ==> EngineStatus(rows[i].status) {
      CountStatusNone(rows, "Present");
    }
  }

  /** One present record of today: the dashboard as written reports none. */
  lemma DashboardAsWrittenMissesPresent()
    ensures CountStatus([HistoryRow("2026-10-15", "present")], "Present") == 0
    ensures CountStatus([HistoryRow("2026-10-15", "present")], "present") == 1
  {
    var rows := [HistoryRow("2026-10-15", "present")];
    assert rows[..0] == [];
  }

  /** The dashboard counting the status the engine stores for a present student. */
  method Dashboard(rows: seq<HistoryRow>, today: string) returns (present: nat, todayLog: Option<nat>)
    ensures present == CountStatus(rows, "present") && present <= |rows|
    ensures (forall i :: 0 <= i < |rows| ==> rows[i].status == "present") ==> present == |rows|
    ensures todayLog == FirstOnDate(rows, today)
  {
    present, todayLog := Tally(rows, today, "present");
    if forall i :: 0 <= i < |rows| ==> rows[i].status == "present" {
      CountStatusAll(rows, "present");
    }
  }
}
