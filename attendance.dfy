/** The attendance engine of attendance.go: the attendance table keyed by
    (class, student, date), the present/late/absent classifier, the five
    upsert merge rules, sheet generation from login logs, initialization,
    the login-time paths and the sheet archive flag. */
module Attendance {
  import opened Wrappers
  import opened Text
  import opened Clock
  import opened Schedule
  import opened Classes
  import opened LoginLogs
  import opened App
  import opened Ordering

  /** Remark written on rows of students with no login. */
  const Sentinel := "Not yet logged in"
  const Present := "present"
  const Late := "late"
  const Absent := "absent"

  /** Minutes of grace after the start, in seconds. */
  const Grace := 600

  datatype Key = Key(classId: ClassId, student: UserId, date: Date)

  /** One attendance row; NULL columns are `None`. Time columns hold the
      "15:04:05" text the engine writes. */
  datatype Record = Record(
    timeIn: Option<string>,
    timeOut: Option<string>,
    pc: Option<string>,
    status: string,
    remarks: Option<string>,
    archived: bool)

  /** The values `GenerateAttendanceFromLogs` binds for one student, after
      `nullString`. */
  datatype Classified = Classified(
    timeIn: Option<string>,
    timeOut: Option<string>,
    pc: Option<string>,
    status: string,
    remarks: Option<string>)

  function Lookup(t: map<Key, Record>, k: Key): (r: Option<Record>)
    ensures r.Some? <==> k in t
    ensures r.Some? ==> r.value == t[k]
  {
    if k in t then Some(t[k]) else None
  }

  lemma MapsEqualByLookup(a: map<Key, Record>, b: map<Key, Record>)
    requires forall k :: Lookup(a, k) == Lookup(b, k)
    ensures a == b
  {
    assert forall k :: k in a <==> Lookup(a, k).Some?;
    assert a.Keys == b.Keys;
  }

  /** `COALESCE(a, b)`. */
  function Coalesce(a: Option<string>, b: Option<string>): (r: Option<string>)
    ensures r.Some? <==> a.Some? || b.Some?
    ensures a.Some? ==> r == a
  {
    if a.Some? then a else b
  }

  /** Hours, minutes and seconds of a time of day. */
  lemma SplitSeconds(t: int)
    requires 0 <= t < 86400
    ensures t / 3600 < 24 && t % 3600 / 60 < 60 && t % 3600 % 60 < 60
    ensures t / 3600 * 3600 + t % 3600 / 60 * 60 + t % 3600 % 60 == t
  {
  }

  /** The time of day a "hh:mm:ss" text stands for. */
  function TextSeconds(r: string): int
    requires |r| == 8 && IsDigit(r[0]) && IsDigit(r[1]) && IsDigit(r[3]) && IsDigit(r[4]) && IsDigit(r[6]) && IsDigit(r[7])
  {
    (DigitVal(r[0]) * 10 + DigitVal(r[1])) * 3600 + (DigitVal(r[3]) * 10 + DigitVal(r[4])) * 60
      + DigitVal(r[6]) * 10 + DigitVal(r[7])
  }

  /** Go's `Format("15:04:05")` of a time of day given in seconds (taken
      modulo a day). Reading the text back gives that time of day. */
  function TimeText(secs: int): (r: string)
    ensures |r| == 8 && r[2] == ':' && r[5] == ':'
    ensures IsDigit(r[0]) && IsDigit(r[1]) && IsDigit(r[3]) && IsDigit(r[4]) && IsDigit(r[6]) && IsDigit(r[7])
    ensures TextSeconds(r) == secs % 86400
  {
    var t := secs % 86400;
    SplitSeconds(t);
    var rem := t % 3600;
    var h, m, s := TwoDigits(t / 3600), TwoDigits(rem / 60), TwoDigits(rem % 60);
    var r := h + (":" + (m + (":" + s)));
    assert r[0] == h[0] && r[1] == h[1] && r[3] == m[0] && r[4] == m[1] && r[6] == s[0] && r[7] == s[1];
    r
  }

  /** Distinct times of day are written as distinct texts. */
  lemma TimeTextInjective(a: int, b: int)
    requires 0 <= a < 86400 && 0 <= b < 86400
    requires TimeText(a) == TimeText(b)
    ensures a == b
  {
    var ta, tb := TimeText(a), TimeText(b);
    assert TextSeconds(ta) == a % 86400 == a;
    assert TextSeconds(tb) == b % 86400 == b;
  }

  /** A successful login of `user` on day `d`. */
  predicate Qualifies(l: LogRow, user: UserId, d: Date) {
    l.userId == user && l.loginAt.date == d && l.status == Success
  }

  /** The login-log query of the generator: the user's earliest successful
      login on the day (`ORDER BY login_time ASC LIMIT 1`). */
  function FirstLogin(logs: seq<LogRow>, user: UserId, d: Date): (r: Option<LogRow>)
    ensures r.None? <==> forall i :: 0 <= i < |logs| ==> !Qualifies(logs[i], user, d)
    ensures r.Some? ==> r.value in logs && Qualifies(r.value, user, d)
    ensures r.Some? ==> forall i :: 0 <= i < |logs| && Qualifies(logs[i], user, d) ==>
      r.value.loginAt.secs <= logs[i].loginAt.secs
  {
    if |logs| == 0 then None
    else
      var rest := FirstLogin(logs[1..], user, d);
      assert forall i :: 1 <= i < |logs| ==> logs[i] == logs[1..][i - 1];
      if !Qualifies(logs[0], user, d) then rest
      else if rest.Some? && rest.value.loginAt.secs < logs[0].loginAt.secs then rest
      else Some(logs[0])
  }

  /** The classifier: no login is absent with the sentinel remark; a login
      at or before start + 10 minutes (seconds included) is present, a
      later one late, with the times and the PC taken from the login row. */
  function Classify(start: int, login: Option<LogRow>): (c: Classified)
    ensures login.None? <==> c.status == Absent
    ensures login.None? ==> c.timeIn.None? && c.timeOut.None? && c.pc.None? && c.remarks == Some(Sentinel)
    ensures login.Some? ==>
      (c.status == Present <==> login.value.loginAt.secs <= start + Grace)
      && (c.status == Late <==> login.value.loginAt.secs > start + Grace)
      && c.timeIn == Some(TimeText(login.value.loginAt.secs))
      && c.timeOut == (if login.value.logoutAt.Some? then Some(TimeText(login.value.logoutAt.value.secs)) else None)
      && (c.pc.Some? <==> login.value.pc.Some? && login.value.pc.value != "")
      && (c.pc.Some? ==> c.pc == login.value.pc)
      && c.remarks.None?
  {
    match login
    case None => Classified(None, None, None, Absent, Some(Sentinel))
    case Some(l) =>
      Classified(
        Some(TimeText(l.loginAt.secs)),
        if l.logoutAt.Some? then Some(TimeText(l.logoutAt.value.secs)) else None,
        NullString(l.pc.GetOr("")),
        if l.loginAt.secs <= start + Grace then Present else Late,
        None)
  }

  predicate BlankRemark(r: Option<string>) {
    r.None? || r == Some("") || r == Some(Sentinel)
  }

  /** The generator's `ON DUPLICATE KEY UPDATE`: the three nullable values
      keep the prev column when the new one is NULL, the status is always
      replaced, and the remark is cleared, kept or replaced by the CASE. */
  function MergeGenerated(prev: Option<Record>, c: Classified): (r: Record)
    ensures r.status == c.status
    ensures prev.None? ==> r == Record(c.timeIn, c.timeOut, c.pc, c.status, c.remarks, false)
    ensures prev.Some? ==>
      r.timeIn == (if c.timeIn.Some? then c.timeIn else prev.value.timeIn)
      && r.timeOut == (if c.timeOut.Some? then c.timeOut else prev.value.timeOut)
      && r.pc == (if c.pc.Some? then c.pc else prev.value.pc)
      && r.archived == prev.value.archived
    ensures prev.Some? && c.timeIn.Some? ==>
      (BlankRemark(prev.value.remarks) ==> r.remarks.None?)
      && (!BlankRemark(prev.value.remarks) ==> r.remarks == prev.value.remarks)
    ensures prev.Some? && c.timeIn.None? ==>
      r.remarks == (if c.remarks.Some? && c.remarks.value != "" then c.remarks else prev.value.remarks)
  {
    match prev
    case None => Record(c.timeIn, c.timeOut, c.pc, c.status, c.remarks, false)
    case Some(o) =>
      Record(
        Coalesce(c.timeIn, o.timeIn),
        Coalesce(c.timeOut, o.timeOut),
        Coalesce(c.pc, o.pc),
        c.status,
        if c.timeIn.Some? && BlankRemark(o.remarks) then None
        else if c.timeIn.Some? then o.remarks
        else if c.remarks.Some? && c.remarks.value != "" then c.remarks
        else o.remarks,
        o.archived)
  }

  /** Merging the same values twice gives the row that merging once gave,
      for values that never carry both a time in and a remark, as the
      classifier's never do. */
  lemma MergeGeneratedIdempotent(prev: Option<Record>, c: Classified)
    requires c.timeIn.Some? ==> c.remarks.None?
    ensures MergeGenerated(Some(MergeGenerated(prev, c)), c) == MergeGenerated(prev, c)
  {
  }

  /** On an existing row the generator keeps what the new values leave
      NULL, keeps the archive flag, and never clears a time or PC. */
  lemma MergeGeneratedKeeps(o: Record, c: Classified)
    ensures var r := MergeGenerated(Some(o), c);
      r.archived == o.archived
      && (c.timeIn.None? ==> r.timeIn == o.timeIn)
      && (c.timeOut.None? ==> r.timeOut == o.timeOut)
      && (c.pc.None? ==> r.pc == o.pc)
      && (o.timeIn.Some? ==> r.timeIn.Some?)
      && (o.pc.Some? ==> r.pc.Some?)
  {
  }

  /** The remark after generation: a student without a login always carries
      the sentinel; with a login, a new row has no remark, an existing row
      loses a NULL, empty or sentinel remark and keeps any other one. So a
      student with a login never carries the sentinel. */
  lemma GeneratedRemark(prev: Option<Record>, start: int, login: Option<LogRow>)
    ensures login.None? ==> MergeGenerated(prev, Classify(start, login)).remarks == Some(Sentinel)
    ensures login.Some? && prev.None? ==> MergeGenerated(prev, Classify(start, login)).remarks.None?
    ensures login.Some? && prev.Some? ==>
      MergeGenerated(prev, Classify(start, login)).remarks ==
        (if BlankRemark(prev.value.remarks) then None else prev.value.remarks)
    ensures login.Some? ==> MergeGenerated(prev, Classify(start, login)).remarks != Some(Sentinel)
  {
  }

  /** Regenerating a sheet after the student's login rows are gone turns a
      present row back to absent while its recorded time in stays. */
  lemma RegenerationRevertsToAbsent(o: Record, start: int)
    requires o.status == Present && o.timeIn.Some?
    ensures var r := MergeGenerated(Some(o), Classify(start, None));
      r.status == Absent && r.timeIn == o.timeIn && r.remarks == Some(Sentinel)
  {
  }

  /** `InitializeAttendanceForClass` per key: a missing row is inserted
      absent with the sentinel; an existing row only gains the sentinel,
      and only when it has no time in and a NULL or empty remark. */
  function MergeInitialize(prev: Option<Record>): (r: Record)
    ensures prev.None? ==> r == Record(None, None, None, Absent, Some(Sentinel), false)
    ensures prev.Some? ==> r == prev.value.(remarks := r.remarks)
    ensures prev.Some? && r.remarks != prev.value.remarks ==>
      prev.value.timeIn.None? && (prev.value.remarks.None? || prev.value.remarks == Some(""))
      && r.remarks == Some(Sentinel)
    ensures prev.Some? && prev.value.timeIn.None? && (prev.value.remarks.None? || prev.value.remarks == Some("")) ==>
      r.remarks == Some(Sentinel)
  {
    match prev
    case None => Record(None, None, None, Absent, Some(Sentinel), false)
    case Some(o) =>
      if o.timeIn.None? && (o.remarks.None? || o.remarks == Some("")) then o.(remarks := Some(Sentinel))
      else o
  }

  /** `RecordStudentLogin` per key: an existing time in is kept, the PC is
      overwritten (the raw text, not passed through `nullString`), the
      status becomes present and only the exact sentinel remark is cleared. */
  function MergeStudentLogin(prev: Option<Record>, nowSecs: int, pc: string): (r: Record)
    ensures r.status == Present && r.pc == Some(pc) && r.timeIn.Some?
    ensures prev.Some? && prev.value.timeIn.Some? ==> r.timeIn == prev.value.timeIn
    ensures (prev.None? || prev.value.timeIn.None?) ==> r.timeIn == Some(TimeText(nowSecs))
    ensures prev.None? ==> r.remarks.None? && r.timeOut.None? && !r.archived
    ensures prev.Some? ==>
      r.timeOut == prev.value.timeOut && r.archived == prev.value.archived
      && r.remarks == (if prev.value.remarks == Some(Sentinel) then None else prev.value.remarks)
  {
    match prev
    case None => Record(Some(TimeText(nowSecs)), None, Some(pc), Present, None, false)
    case Some(o) =>
      o.(timeIn := Coalesce(o.timeIn, Some(TimeText(nowSecs))), pc := Some(pc), status := Present,
         remarks := if o.remarks == Some(Sentinel) then None else o.remarks)
  }

  /** `RecordAttendance` per key: the given times fill in only when not
      empty, the status and the remark (empty meaning NULL) are replaced,
      the PC is untouched. */
  function MergeRecordAttendance(prev: Option<Record>, timeIn: string, timeOut: string, status: string, remarks: string): (r: Record)
    ensures r.status == status && r.remarks == NullString(remarks)
    ensures timeIn != "" ==> r.timeIn == Some(timeIn)
    ensures timeOut != "" ==> r.timeOut == Some(timeOut)
    ensures prev.Some? ==>
      (timeIn == "" ==> r.timeIn == prev.value.timeIn)
      && (timeOut == "" ==> r.timeOut == prev.value.timeOut)
      && r.pc == prev.value.pc && r.archived == prev.value.archived
    ensures prev.None? ==> r.pc.None? && !r.archived && (timeIn == "" ==> r.timeIn.None?)
  {
    match prev
    case None => Record(NullString(timeIn), NullString(timeOut), None, status, NullString(remarks), false)
    case Some(o) =>
      o.(timeIn := Coalesce(NullString(timeIn), o.timeIn), timeOut := Coalesce(NullString(timeOut), o.timeOut),
         status := status, remarks := NullString(remarks))
  }

  /** The auto-mark `UPDATE`: time in is overwritten with now, the PC is set,
      the status becomes present (never late); remarks, time out and the
      archive flag are left alone. */
  function AutoMarkUpdate(o: Record, nowSecs: int, pc: string): (r: Record)
    ensures r.status == Present && r.timeIn == Some(TimeText(nowSecs)) && r.pc == Some(pc)
    ensures r.remarks == o.remarks && r.timeOut == o.timeOut && r.archived == o.archived
  {
    o.(timeIn := Some(TimeText(nowSecs)), pc := Some(pc), status := Present)
  }

  /** Auto-mark and the generator disagree on a late login: auto-mark says
      present, the generator says late. */
  lemma AutoMarkIgnoresLateness(o: Record, start: int, login: LogRow, pc: string)
    requires login.loginAt.secs > start + Grace
    ensures AutoMarkUpdate(o, login.loginAt.secs, pc).status == Present
    ensures MergeGenerated(Some(o), Classify(start, Some(login))).status == Late
  {
  }

  /** The fixed inputs of one generation run. */
  datatype Run = Run(classId: ClassId, date: Date, start: int, logs: seq<LogRow>, failing: set<UserId>)

  /** What the generator computes for one student. */
  function Outcome(run: Run, s: UserId): Classified {
    Classify(run.start, FirstLogin(run.logs, s, run.date))
  }

  /** The table after the generator's upsert for one student; a student
      whose write fails is skipped. */
  function GenStep(t: map<Key, Record>, run: Run, s: UserId): map<Key, Record> {
    var k := Key(run.classId, s, run.date);
    if s in run.failing then t else t[k := MergeGenerated(Lookup(t, k), Outcome(run, s))]
  }

  /** The table after the generator's upserts for `ss`, in order. */
  function GenAll(t: map<Key, Record>, run: Run, ss: seq<UserId>): map<Key, Record>
    decreases |ss|
  {
    if |ss| == 0 then t else GenStep(GenAll(t, run, ss[..|ss| - 1]), run, ss[|ss| - 1])
  }

  predicate InRun(run: Run, ss: seq<UserId>, k: Key) {
    k.classId == run.classId && k.date == run.date && k.student in ss && k.student !in run.failing
  }

  /** Per key, generation merges the student's classification into the prev
      row exactly for the listed students of that class and date whose
      write succeeds, whatever their order or repetition; every other row
      is unchanged. */
  lemma {:induction false} GenAllAt(t: map<Key, Record>, run: Run, ss: seq<UserId>, k: Key)
    ensures Lookup(GenAll(t, run, ss), k) ==
      if InRun(run, ss, k) then Some(MergeGenerated(Lookup(t, k), Outcome(run, k.student))) else Lookup(t, k)
    decreases |ss|
  {
    if |ss| > 0 {
      var pre, s := ss[..|ss| - 1], ss[|ss| - 1];
      GenAllAt(t, run, pre, k);
      assert k.student in ss <==> k.student in pre || k.student == s;
      if k == Key(run.classId, s, run.date) && s !in run.failing && InRun(run, pre, k) {
        MergeGeneratedIdempotent(Lookup(t, k), Outcome(run, s));
      }
    }
  }

  /** Generating the same sheet twice from the same logs leaves the table
      as the first generation left it. */
  lemma GenAllTwice(t: map<Key, Record>, run: Run, ss: seq<UserId>)
    ensures GenAll(GenAll(t, run, ss), run, ss) == GenAll(t, run, ss)
  {
    var once := GenAll(t, run, ss);
    forall k
      ensures Lookup(GenAll(once, run, ss), k) == Lookup(once, k)
    {
      GenAllAt(once, run, ss, k);
      GenAllAt(t, run, ss, k);
      if InRun(run, ss, k) {
        MergeGeneratedIdempotent(Lookup(t, k), Outcome(run, k.student));
      }
    }
    MapsEqualByLookup(GenAll(once, run, ss), once);
  }

  datatype GenError = ScheduleLookupFailed | ScheduleNotSet | BadSchedule(reason: StartError) | BadDate

  /** The checks `GenerateAttendanceFromLogs` makes before writing, in
      order: the class row must exist, its schedule must be set and not
      empty, the start time must parse, and the date must be YYYY-MM-DD.
      On success, the start time of day in seconds and the date. */
  function Prepare(classes: map<ClassId, ClassRow>, classId: ClassId, date: string): (r: Result<(int, Date), GenError>)
    ensures r == Err(ScheduleLookupFailed) <==> classId !in classes
    ensures r == Err(ScheduleNotSet) <==>
      classId in classes && (classes[classId].schedule.None? || classes[classId].schedule.value == "")
    ensures r.Err? && r.error.BadSchedule? <==>
      classId in classes && classes[classId].schedule.Some? && classes[classId].schedule.value != ""
      && ParseStartTime(classes[classId].schedule.value).Err?
    ensures r.Err? && r.error.BadSchedule? ==> r.error.reason == ParseStartTime(classes[classId].schedule.value).error
    ensures r == Err(BadDate) <==>
      classId in classes && classes[classId].schedule.Some? && classes[classId].schedule.value != ""
      && ParseStartTime(classes[classId].schedule.value).Ok? && ParseDate(date).None?
    ensures r.Ok? <==>
      (classId in classes && classes[classId].schedule.Some? && classes[classId].schedule.value != ""
       && ParseStartTime(classes[classId].schedule.value).Ok? && ParseDate(date).Some?)
    ensures r.Ok? ==>
      r.value == (ParseStartTime(classes[classId].schedule.value).value, ParseDate(date).value)
      && 0 <= r.value.0 < 86400
  {
    if classId !in classes then Err(ScheduleLookupFailed)
    else
      var schedule := classes[classId].schedule;
      if schedule.None? || schedule.value == "" then Err(ScheduleNotSet)
      else match ParseStartTime(schedule.value)
        case Err(e) => Err(BadSchedule(e))
        case Ok(start) =>
          match ParseDate(date)
          case None => Err(BadDate)
          case Some(d) => Ok((start, d))
  }

  /** The rows `InitializeAttendanceForClass` targets: one per active
      enrollee of the class, on that date. */
  function InitKeys(cl: map<(ClassId, UserId), EnrollStatus>, classId: ClassId, d: Date): (r: set<Key>)
    ensures forall k :: k in r <==> k.classId == classId && k.date == d && IsActiveIn(cl, classId, k.student)
  {
    var r := set p | p in cl.Keys && p.0 == classId && cl[p] == Active :: Key(classId, p.1, d);
    assert forall k: Key :: k.classId == classId && k.date == d && IsActiveIn(cl, classId, k.student) ==>
      (classId, k.student) in cl.Keys && Key(classId, (classId, k.student).1, d) == k;
    r
  }

  function InitAll(t: map<Key, Record>, cl: map<(ClassId, UserId), EnrollStatus>, classId: ClassId, d: Date): (r: map<Key, Record>)
    ensures r.Keys == t.Keys + InitKeys(cl, classId, d)
  {
    map k | k in t.Keys + InitKeys(cl, classId, d) ::
      if k in InitKeys(cl, classId, d) then MergeInitialize(Lookup(t, k)) else t[k]
  }

  /** Initialization only inserts rows for active enrollees, inserts them
      absent with the sentinel, and on existing rows changes at most the
      remark; rows outside the class and date are untouched. */
  lemma InitAllEffect(t: map<Key, Record>, cl: map<(ClassId, UserId), EnrollStatus>, classId: ClassId, d: Date, k: Key)
    ensures k in InitAll(t, cl, classId, d) && k !in t ==>
      IsActiveIn(cl, classId, k.student) && k.classId == classId && k.date == d
      && InitAll(t, cl, classId, d)[k] == Record(None, None, None, Absent, Some(Sentinel), false)
    ensures k in t ==> InitAll(t, cl, classId, d)[k] == t[k].(remarks := InitAll(t, cl, classId, d)[k].remarks)
    ensures k in t && !(k.classId == classId && k.date == d) ==> InitAll(t, cl, classId, d)[k] == t[k]
  {
  }

  /** Initializing twice is the same as initializing once. */
  lemma InitAllIdempotent(t: map<Key, Record>, cl: map<(ClassId, UserId), EnrollStatus>, classId: ClassId, d: Date)
    ensures InitAll(InitAll(t, cl, classId, d), cl, classId, d) == InitAll(t, cl, classId, d)
  {
    var once := InitAll(t, cl, classId, d);
    var twice := InitAll(once, cl, classId, d);
    assert twice.Keys == once.Keys;
    forall k | k in once
      ensures twice[k] == once[k]
    {
    }
  }

  /** The sheet archive update: the flag of every row of (class, date) is
      set, and nothing else changes. */
  function SheetFlag(t: map<Key, Record>, classId: ClassId, d: Date, flag: bool): (r: map<Key, Record>)
    ensures r.Keys == t.Keys
    ensures forall k :: k in t ==> r[k].(archived := t[k].archived) == t[k]
    ensures forall k :: k in t && k.classId == classId && k.date == d ==> r[k].archived == flag
    ensures forall k :: k in t && !(k.classId == classId && k.date == d) ==> r[k] == t[k]
  {
    map k | k in t :: if k.classId == classId && k.date == d then t[k].(archived := flag) else t[k]
  }

  /** Archiving then unarchiving a sheet leaves it unarchived with every
      other field as it was: the same as unarchiving alone. */
  lemma ArchiveThenUnarchiveSheet(t: map<Key, Record>, classId: ClassId, d: Date)
    ensures SheetFlag(SheetFlag(t, classId, d, true), classId, d, false) == SheetFlag(t, classId, d, false)
  {
    var a := SheetFlag(SheetFlag(t, classId, d, true), classId, d, false);
    var b := SheetFlag(t, classId, d, false);
    assert a.Keys == b.Keys;
    forall k | k in a
      ensures a[k] == b[k]
    {
    }
  }

  /** Classes whose today's row auto-mark may touch: active enrollment,
      active class, and a row for today already present. */
  function Candidates(t: map<Key, Record>, classes: map<ClassId, ClassRow>, cl: map<(ClassId, UserId), EnrollStatus>,
                      student: UserId, today: Date): (r: set<ClassId>)
    ensures forall c :: c in r <==>
      c in classes && IsActiveIn(cl, c, student) && classes[c].isActive && Key(c, student, today) in t
  {
    set c | c in classes && IsActiveIn(cl, c, student) && classes[c].isActive && Key(c, student, today) in t
  }

  /** The window check of a class at `now`; a class with no schedule is
      not inside its window. */
  function WindowOf(row: ClassRow, now: Instant): WindowCheck
    requires ValidDate(now.date)
  {
    if row.schedule.None? then Answer(false) else WithinScheduleAsWritten(row.schedule.value, now)
  }

  /** The window check crashes on this class's schedule. */
  predicate Panics(classes: map<ClassId, ClassRow>, c: ClassId, now: Instant)
    requires ValidDate(now.date)
  {
    c in classes && WindowOf(classes[c], now) == IndexPanic
  }

  /** The window check accepts `now` for this class's schedule. */
  predicate Hits(classes: map<ClassId, ClassRow>, c: ClassId, now: Instant)
    requires ValidDate(now.date)
  {
    c in classes && WindowOf(classes[c], now) == Answer(true)
  }

  /** The window check of every class of `cs`. */
  function Windows(classes: map<ClassId, ClassRow>, cs: set<ClassId>, now: Instant): (r: map<ClassId, WindowCheck>)
    requires ValidDate(now.date) && cs <= classes.Keys
    ensures r.Keys == cs
  {
    map c | c in cs :: WindowOf(classes[c], now)
  }

  /** What the recorded checks mean: a crash of the window check, or its
      acceptance of `now`. */
  lemma WindowsMeaning(classes: map<ClassId, ClassRow>, cs: set<ClassId>, now: Instant, c: ClassId)
    requires ValidDate(now.date) && cs <= classes.Keys && c in cs
    ensures Windows(classes, cs, now)[c] == IndexPanic <==> Panics(classes, c, now)
    ensures Windows(classes, cs, now)[c] == Answer(true) <==> Hits(classes, c, now)
  {
  }

  /** Classes of `cs` whose window check accepts `now` and whose write succeeds. */
  function HitSet(checks: map<ClassId, WindowCheck>, cs: set<ClassId>, failing: set<ClassId>): (r: set<ClassId>)
    ensures r <= cs
  {
    set c | c in cs && c in checks && checks[c] == Answer(true) && c !in failing
  }

  /** Classes of `cs` whose window check crashes. */
  function PanicSet(checks: map<ClassId, WindowCheck>, cs: set<ClassId>): (r: set<ClassId>)
    ensures r <= cs
  {
    set c | c in cs && c in checks && checks[c] == IndexPanic
  }

  /** The table after auto-marking today's rows of the classes in `marked`. */
  function MarkAll(t: map<Key, Record>, student: UserId, now: Instant, marked: set<ClassId>, pc: string): (r: map<Key, Record>)
    ensures r.Keys == t.Keys
  {
    map k | k in t :: if k.student == student && k.date == now.date && k.classId in marked then AutoMarkUpdate(t[k], now.secs, pc) else t[k]
  }

  lemma MarkAllAdd(t: map<Key, Record>, student: UserId, now: Instant, marked: set<ClassId>, pc: string, c: ClassId)
    requires c !in marked && Key(c, student, now.date) in t
    ensures var k := Key(c, student, now.date);
      MarkAll(t, student, now, marked + {c}, pc)
      == MarkAll(t, student, now, marked, pc)[k := AutoMarkUpdate(MarkAll(t, student, now, marked, pc)[k], now.secs, pc)]
  {
    var k := Key(c, student, now.date);
    var a := MarkAll(t, student, now, marked + {c}, pc);
    var b := MarkAll(t, student, now, marked, pc)[k := AutoMarkUpdate(MarkAll(t, student, now, marked, pc)[k], now.secs, pc)];
    assert a.Keys == b.Keys;
    forall j | j in a
      ensures a[j] == b[j]
    {
    }
  }

  datatype AutoOutcome = Completed | Crashed

  datatype AttError = NotEnrolled

  class AttendanceBook {
    var table: map<Key, Record>
    var sheets: set<(ClassId, Date)>

    constructor(table: map<Key, Record>, sheets: set<(ClassId, Date)>)
      ensures this.table == table && this.sheets == sheets
    {
      this.table := table;
      this.sheets := sheets;
    }

    /** `GenerateAttendanceFromLogs`. Any failed check returns its error
        before anything is written. Otherwise the sheet row is recorded
        unless its write fails (which is not an error), and every student on
        the roster gets the generator's upsert; a student whose write fails
        is skipped. `students` is the roster the loop visited. */
    method Generate(cb: ClassBook, profiles: map<UserId, StudentName>, logs: seq<LogRow>, classId: ClassId, date: string,
                    sheetOk: bool, failing: set<UserId>) returns (r: Result<(), GenError>, students: seq<UserId>)
      modifies this
      ensures Prepare(cb.classes, classId, date).Err? ==>
        r == Err(Prepare(cb.classes, classId, date).error) && table == old(table) && sheets == old(sheets)
      ensures Prepare(cb.classes, classId, date).Ok? ==>
        var (start, d) := Prepare(cb.classes, classId, date).value;
        r.Ok?
        && (forall s :: s in students <==> s in cb.RosterIds(classId, profiles))
        && table == GenAll(old(table), Run(classId, d, start, logs, failing), students)
        && sheets == (if sheetOk then old(sheets) + {(classId, d)} else old(sheets))
    {
      students := [];
      var prep := Prepare(cb.classes, classId, date);
      if prep.Err? {
        return Err(prep.error), students;
      }
      var (start, d) := prep.value;
      if sheetOk {
        sheets := sheets + {(classId, d)};
      }
      students := RosterOf(cb, classId, profiles);
      GenerateRows(Run(classId, d, start, logs, failing), students);
      return Ok(()), students;
    }

    /** The students `GetClassStudents` lists, in its order. */
    static method RosterOf(cb: ClassBook, classId: ClassId, profiles: map<UserId, StudentName>) returns (students: seq<UserId>)
      ensures forall s :: s in students <==> s in cb.RosterIds(classId, profiles)
    {
      var roster := cb.ClassStudents(classId, profiles);
      students := seq(|roster|, i requires 0 <= i < |roster| => roster[i].student);
      forall s | s in students
        ensures exists i :: 0 <= i < |roster| && roster[i].student == s
      {
        var j :| 0 <= j < |students| && students[j] == s;
        assert roster[j].student == s;
      }
      forall s | exists i :: 0 <= i < |roster| && roster[i].student == s
        ensures s in students
      {
        var j :| 0 <= j < |roster| && roster[j].student == s;
        assert students[j] == s;
      }
    }

    /** The generator's loop over the roster: one upsert per student, a
        failed write skipping that student. */
    method GenerateRows(run: Run, students: seq<UserId>)
      modifies this
      ensures table == GenAll(old(table), run, students)
      ensures sheets == old(sheets)
    {
      var i := 0;
      while i < |students|
        invariant 0 <= i <= |students|
        invariant table == GenAll(old(table), run, students[..i])
        invariant sheets == old(sheets)
      {
        var s := students[i];
        assert students[..i + 1][..i] == students[..i];
        if s !in run.failing {
          var k := Key(run.classId, s, run.date);
          var c := Classify(run.start, FirstLogin(run.logs, s, run.date));
          table := table[k := MergeGenerated(Lookup(table, k), c)];
        }
        i := i + 1;
      }
      assert students[..i] == students;
    }

    /** `InitializeAttendanceForClass` for a date. */
    method Initialize(cb: ClassBook, classId: ClassId, d: Date)
      modifies this
      ensures table == InitAll(old(table), cb.classlist, classId, d)
      ensures sheets == old(sheets)
    {
      table := InitAll(table, cb.classlist, classId, d);
    }

    /** `RecordStudentLogin`: refused unless the student is actively
        enrolled; otherwise today's row gets the login upsert. */
    method RecordStudentLogin(cb: ClassBook, classId: ClassId, student: UserId, pc: string, now: Instant)
      returns (r: Result<(), AttError>)
      modifies this
      ensures r.Ok? <==> IsActiveIn(cb.classlist, classId, student)
      ensures r.Err? ==> table == old(table)
      ensures r.Ok? ==>
        var k := Key(classId, student, now.date);
        table == old(table)[k := MergeStudentLogin(Lookup(old(table), k), now.secs, pc)]
      ensures sheets == old(sheets)
    {
      if !IsActiveIn(cb.classlist, classId, student) {
        return Err(NotEnrolled);
      }
      var k := Key(classId, student, now.date);
      table := table[k := MergeStudentLogin(Lookup(table, k), now.secs, pc)];
      return Ok(());
    }

    /** `RecordAttendance`: refused unless the student is actively enrolled;
        otherwise today's row gets the manual upsert. */
    method RecordAttendance(cb: ClassBook, classId: ClassId, student: UserId, timeIn: string, timeOut: string,
                            status: string, remarks: string, now: Instant) returns (r: Result<(), AttError>)
      modifies this
      ensures r.Ok? <==> IsActiveIn(cb.classlist, classId, student)
      ensures r.Err? ==> table == old(table)
      ensures r.Ok? ==>
        var k := Key(classId, student, now.date);
        table == old(table)[k := MergeRecordAttendance(Lookup(old(table), k), timeIn, timeOut, status, remarks)]
      ensures sheets == old(sheets)
    {
      if !IsActiveIn(cb.classlist, classId, student) {
        return Err(NotEnrolled);
      }
      var k := Key(classId, student, now.date);
      table := table[k := MergeRecordAttendance(Lookup(table, k), timeIn, timeOut, status, remarks)];
      return Ok(());
    }

    /** The body of `autoRecordAttendanceOnLogin`, visiting the candidate
        classes in an unspecified order. A class whose window check
        accepts `now` and whose write succeeds is marked; a window check
        that crashes stops the run with what was marked so far. */
    method AutoMark(cb: ClassBook, student: UserId, pc: string, now: Instant, failing: set<ClassId>)
      returns (outcome: AutoOutcome, marked: set<ClassId>)
      requires ValidInstant(now)
      modifies this
      ensures var cands := Candidates(old(table), cb.classes, cb.classlist, student, now.date);
        var checks := Windows(cb.classes, cands, now);
        marked <= HitSet(checks, cands, failing)
        && (outcome == Crashed <==> PanicSet(checks, cands) != {})
        && (outcome == Completed ==> marked == HitSet(checks, cands, failing))
      ensures table == MarkAll(old(table), student, now, marked, pc)
      ensures sheets == old(sheets)
    {
      var cands := Candidates(table, cb.classes, cb.classlist, student, now.date);
      var checks := Windows(cb.classes, cands, now);
      outcome, marked := MarkLoop(student, pc, now, failing, cands, checks);
    }

    /** The loop of `autoRecordAttendanceOnLogin` over the candidate classes
        with their window checks, in an unspecified order; a crashing check
        stops it. */
    method MarkLoop(student: UserId, pc: string, now: Instant, failing: set<ClassId>,
                    cands: set<ClassId>, checks: map<ClassId, WindowCheck>)
      returns (outcome: AutoOutcome, marked: set<ClassId>)
      requires checks.Keys == cands
      requires forall c :: c in cands ==> Key(c, student, now.date) in table
      modifies this
      ensures marked <= HitSet(checks, cands, failing)
      ensures outcome == Crashed <==> PanicSet(checks, cands) != {}
      ensures outcome == Completed ==> marked == HitSet(checks, cands, failing)
      ensures table == MarkAll(old(table), student, now, marked, pc)
      ensures sheets == old(sheets)
    {
      var todo := cands;
      ghost var done: set<ClassId> := {};
      marked := {};
      ghost var t0 := table;
      while todo != {}
        invariant done + todo == cands && done !! todo
        invariant marked == HitSet(checks, done, failing)
        invariant PanicSet(checks, done) == {}
        invariant table == MarkAll(t0, student, now, marked, pc)
        invariant sheets == old(sheets)
        decreases |todo|
      {
        var c := Pick(todo);
        if checks[c] == IndexPanic {
          assert c in PanicSet(checks, cands);
          return Crashed, marked;
        }
        marked := Visit(t0, student, now, failing, pc, checks, done, marked, c);
        done := done + {c};
        todo := todo - {c};
      }
      return Completed, marked;
    }

    /** One pass of the auto-mark loop over a class whose window check did
        not crash: its row for today is updated when the check accepted
        `now` and the write succeeds. */
    method Visit(ghost t0: map<Key, Record>, student: UserId, now: Instant, failing: set<ClassId>, pc: string,
                 checks: map<ClassId, WindowCheck>, ghost done: set<ClassId>, marked: set<ClassId>, c: ClassId)
      returns (marked': set<ClassId>)
      requires c in checks && checks[c] != IndexPanic && c !in done && Key(c, student, now.date) in t0
      requires marked == HitSet(checks, done, failing)
      requires table == MarkAll(t0, student, now, marked, pc)
      modifies this
      ensures marked' == HitSet(checks, done + {c}, failing)
      ensures PanicSet(checks, done + {c}) == PanicSet(checks, done)
      ensures table == MarkAll(t0, student, now, marked', pc)
      ensures sheets == old(sheets)
    {
      marked' := marked;
      if checks[c] == Answer(true) && c !in failing {
        var k := Key(c, student, now.date);
        MarkAllAdd(t0, student, now, marked, pc, c);
        table := table[k := AutoMarkUpdate(table[k], now.secs, pc)];
        marked' := marked + {c};
      }
    }

    /** `ArchiveAttendanceSheet` / `UnarchiveAttendanceSheet`: sets the flag
        on every row of the sheet, with no precondition. */
    method SetSheetArchived(classId: ClassId, d: Date, flag: bool)
      modifies this
      ensures table == SheetFlag(old(table), classId, d, flag)
      ensures sheets == old(sheets)
    {
      table := SheetFlag(table, classId, d, flag);
    }
  }
}
