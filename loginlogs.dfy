/** The `login_logs` table (logs.go, and the rows auth.go writes): bulk
    archive and unarchive by date or by id with affected-row counts, the
    active-log listing, session open and close, and `truncateString`. */
module LoginLogs {
  import opened Wrappers
  import opened Text
  import opened Clock
  import opened Ordering

  datatype LoginStatus = Success | Failed

  /** One `login_logs` row; `archived` is the nullable `is_archived` column. */
  datatype LogRow = LogRow(
    id: int,
    userId: int,
    pc: Option<string>,
    loginAt: Instant,
    logoutAt: Option<Instant>,
    status: LoginStatus,
    archived: Option<bool>,
    archivedAt: Option<Instant>,
    archivedBy: Option<int>)

  /** The `WHERE` clauses of the bulk updates. */
  datatype Selector =
    | DateUnarchived(date: Date)     // DATE(login_time) = ? AND (is_archived = FALSE OR is_archived IS NULL)
    | DateArchived(date: Date)       // DATE(login_time) = ? AND is_archived = TRUE
    | IdsNotArchived(ids: set<int>)  // id IN (...) AND is_archived = FALSE
    | IdsArchived(ids: set<int>)     // id IN (...) AND is_archived = TRUE
    | Ids(ids: set<int>)             // id IN (...)

  /** The `SET` clauses of the bulk updates. */
  datatype Action = Archive(at: Instant, actor: int) | Unarchive

  predicate Selects(f: Selector, r: LogRow) {
    match f
    case DateUnarchived(d) => r.loginAt.date == d && r.archived != Some(true)
    case DateArchived(d) => r.loginAt.date == d && r.archived == Some(true)
    case IdsNotArchived(ids) => r.id in ids && r.archived == Some(false)
    case IdsArchived(ids) => r.id in ids && r.archived == Some(true)
    case Ids(ids) => r.id in ids
  }

  function Apply(a: Action, r: LogRow): LogRow {
    match a
    case Archive(at, actor) => r.(archived := Some(true), archivedAt := Some(at), archivedBy := Some(actor))
    case Unarchive => r.(archived := Some(false), archivedAt := None, archivedBy := None)
  }

  /** The table after `UPDATE ... SET a WHERE f`. */
  function UpdateAll(rows: seq<LogRow>, f: Selector, a: Action): (r: seq<LogRow>)
    ensures |r| == |rows|
  {
    seq(|rows|, i requires 0 <= i < |rows| => if Selects(f, rows[i]) then Apply(a, rows[i]) else rows[i])
  }

  /** Number of rows the `WHERE` clause selects; every selected row changes,
      so this is also the affected-row count. */
  function CountSel(rows: seq<LogRow>, f: Selector): (n: nat)
    ensures n <= |rows|
  {
    if |rows| == 0 then 0
    else CountSel(rows[..|rows| - 1], f) + (if Selects(f, rows[|rows| - 1]) then 1 else 0)
  }

  /** Every row the update selects differs from what it was, so MySQL
      counts it as affected. */
  lemma SelectedRowsChange(f: Selector, a: Action, r: LogRow)
    requires Selects(f, r) && !f.Ids?
    requires f.DateUnarchived? || f.IdsNotArchived? ==> a.Archive?
    requires f.DateArchived? || f.IdsArchived? ==> a.Unarchive?
    ensures Apply(a, r) != r
  {
  }

  lemma CountSelZero(rows: seq<LogRow>, f: Selector)
    requires forall i :: 0 <= i < |rows| ==> !Selects(f, rows[i])
    ensures CountSel(rows, f) == 0
  {
    if |rows| > 0 {
      CountSelZero(rows[..|rows| - 1], f);
    }
  }

  /** Counts of two selectors that split the rows of one date add up. */
  lemma {:induction false} CountSplitByDate(rows: seq<LogRow>, d: Date)
    ensures CountSel(rows, DateUnarchived(d)) + CountSel(rows, DateArchived(d))
         == CountDate(rows, d)
  {
    if |rows| > 0 {
      CountSplitByDate(rows[..|rows| - 1], d);
    }
  }

  /** Number of rows whose login falls on `d`. */
  function CountDate(rows: seq<LogRow>, d: Date): (n: nat)
    ensures n <= |rows|
  {
    if |rows| == 0 then 0
    else CountDate(rows[..|rows| - 1], d) + (if rows[|rows| - 1].loginAt.date == d then 1 else 0)
  }

  lemma UpdateAllPrefix(rows: seq<LogRow>, f: Selector, a: Action, n: nat)
    requires n <= |rows|
    ensures UpdateAll(rows, f, a)[..n] == UpdateAll(rows[..n], f, a)
  {
  }

  /** Archiving a date right after archiving it selects nothing and changes nothing. */
  lemma {:induction false} ArchiveDateTwice(rows: seq<LogRow>, d: Date, a1: Instant, b1: int, a2: Instant, b2: int)
    ensures CountSel(UpdateAll(rows, DateUnarchived(d), Archive(a1, b1)), DateUnarchived(d)) == 0
    ensures UpdateAll(UpdateAll(rows, DateUnarchived(d), Archive(a1, b1)), DateUnarchived(d), Archive(a2, b2))
         == UpdateAll(rows, DateUnarchived(d), Archive(a1, b1))
  {
    var once := UpdateAll(rows, DateUnarchived(d), Archive(a1, b1));
    CountSelZero(once, DateUnarchived(d));
  }

  /** Unarchiving a date right after archiving it counts every row of that
      date: the ones the archive call changed plus the ones that were
      already archived. The two counts agree exactly when no row of that
      date was archived beforehand. */
  lemma {:induction false} ArchiveThenUnarchiveCounts(rows: seq<LogRow>, d: Date, at: Instant, actor: int)
    ensures CountSel(UpdateAll(rows, DateUnarchived(d), Archive(at, actor)), DateArchived(d))
         == CountSel(rows, DateUnarchived(d)) + CountSel(rows, DateArchived(d))
    ensures (CountSel(UpdateAll(rows, DateUnarchived(d), Archive(at, actor)), DateArchived(d))
         == CountSel(rows, DateUnarchived(d))) <==> CountSel(rows, DateArchived(d)) == 0
    decreases |rows|
  {
    if |rows| > 0 {
      var n := |rows| - 1;
      UpdateAllPrefix(rows, DateUnarchived(d), Archive(at, actor), n);
      ArchiveThenUnarchiveCounts(rows[..n], d, at, actor);
    }
  }

  /** After archiving and then unarchiving a date, every row of that date is
      unarchived with both stamps cleared, and every other row is as it was. */
  lemma ArchiveThenUnarchiveRows(rows: seq<LogRow>, d: Date, at: Instant, actor: int)
    ensures var after := UpdateAll(UpdateAll(rows, DateUnarchived(d), Archive(at, actor)), DateArchived(d), Unarchive);
      |after| == |rows|
      && forall i :: 0 <= i < |rows| ==>
           if rows[i].loginAt.date == d
           then after[i] == rows[i].(archived := Some(false), archivedAt := None, archivedBy := None)
           else after[i] == rows[i]
  {
  }

  /** Go's `truncateString`: texts of at most `maxLen` bytes are kept; longer
      ones keep their first `maxLen - 3` bytes and gain "...". Texts are
      taken as byte sequences here, as Go's `len` and slicing count bytes. */
  function Truncate(s: seq<bv8>, maxLen: int): (r: seq<bv8>)
    requires |s| <= maxLen || maxLen >= 3
    ensures |s| <= maxLen ==> r == s
    ensures |s| > maxLen ==> |r| == maxLen && r[..maxLen - 3] == s[..maxLen - 3] && r[maxLen - 3..] == [0x2E, 0x2E, 0x2E]
    ensures |r| <= |s|
  {
    if |s| <= maxLen then s else s[..maxLen - 3] + [0x2E, 0x2E, 0x2E]
  }

  /** Rows `GetAllLogs` may show: the archive flag is FALSE or NULL. */
  function Unarchived(rows: seq<LogRow>): (r: seq<LogRow>)
    ensures forall i :: 0 <= i < |r| ==> r[i].archived != Some(true)
    ensures multiset(r) <= multiset(rows)
    ensures forall i :: 0 <= i < |rows| && rows[i].archived != Some(true) ==> rows[i] in r
  {
    if |rows| == 0 then []
    else
      var t := Unarchived(rows[..|rows| - 1]);
      assert rows == rows[..|rows| - 1] + [rows[|rows| - 1]];
      if rows[|rows| - 1].archived != Some(true) then t + [rows[|rows| - 1]] else t
  }

  function LoginNewestFirst(r: LogRow): seq<int> {
    [-r.loginAt.date.year, -r.loginAt.date.month, -r.loginAt.date.day, -r.loginAt.secs]
  }

  lemma NewestFirstOrder(a: LogRow, b: LogRow)
    ensures LexLeq(LoginNewestFirst(a), LoginNewestFirst(b)) ==> NotAfter(b.loginAt, a.loginAt)
  {
    var ka, kb := LoginNewestFirst(a), LoginNewestFirst(b);
    if LexLeq(ka, kb) && ka[0] == kb[0] {
      var ka1, kb1 := ka[1..], kb[1..];
      assert LexLeq(ka1, kb1);
      if ka1[0] == kb1[0] {
        var ka2, kb2 := ka1[1..], kb1[1..];
        assert LexLeq(ka2, kb2);
        if ka2[0] == kb2[0] {
          assert LexLeq(ka2[1..], kb2[1..]);
        }
      }
    }
  }

  /** `GetAllLogs`: unarchived rows, newest login first, at most 1000 of them. */
  function AllLogs(rows: seq<LogRow>): (r: seq<LogRow>)
    ensures |r| == if |Unarchived(rows)| <= 1000 then |Unarchived(rows)| else 1000
  {
    Limit(SortBy(Unarchived(rows), LoginNewestFirst), 1000)
  }

  /** Every row listed is an unarchived row of the table, each at most as
      often as it occurs there. */
  lemma AllLogsShowsUnarchived(rows: seq<LogRow>)
    ensures multiset(AllLogs(rows)) <= multiset(Unarchived(rows))
    ensures forall i :: 0 <= i < |AllLogs(rows)| ==> AllLogs(rows)[i].archived != Some(true)
  {
    var sorted := SortBy(Unarchived(rows), LoginNewestFirst);
    var r := AllLogs(rows);
    assert sorted == r + sorted[|r|..];
    assert multiset(sorted) == multiset(r) + multiset(sorted[|r|..]);
    forall i | 0 <= i < |r|
      ensures r[i].archived != Some(true)
    {
      assert r[i] in multiset(r);
      assert r[i] in multiset(Unarchived(rows));
    }
  }

  /** The listing is ordered newest login first. */
  lemma AllLogsNewestFirst(rows: seq<LogRow>)
    ensures forall i, j :: 0 <= i < j < |AllLogs(rows)| ==>
      NotAfter(AllLogs(rows)[j].loginAt, AllLogs(rows)[i].loginAt)
  {
    var sorted := SortBy(Unarchived(rows), LoginNewestFirst);
    var r := AllLogs(rows);
    forall i, j | 0 <= i < j < |r|
      ensures NotAfter(r[j].loginAt, r[i].loginAt)
    {
      NewestFirstOrder(sorted[i], sorted[j]);
    }
  }

  /** An unarchived row cut off by the limit is no newer than any row listed. */
  lemma AllLogsOmitsOnlyOlder(rows: seq<LogRow>, x: LogRow, i: int)
    requires x in multiset(Unarchived(rows)) - multiset(AllLogs(rows))
    requires 0 <= i < |AllLogs(rows)|
    ensures NotAfter(x.loginAt, AllLogs(rows)[i].loginAt)
  {
    var sorted := SortBy(Unarchived(rows), LoginNewestFirst);
    var r := AllLogs(rows);
    assert sorted == r + sorted[|r|..];
    assert multiset(sorted) == multiset(r) + multiset(sorted[|r|..]);
    assert x in multiset(sorted[|r|..]);
    var k :| 0 <= k < |sorted[|r|..]| && sorted[|r|..][k] == x;
    NewestFirstOrder(sorted[i], sorted[|r| + k]);
  }

  /** The login row `Logout` closes: an open row of the user with the latest login. */
  ghost predicate LatestOpen(rows: seq<LogRow>, user: int, k: int) {
    0 <= k < |rows| && rows[k].userId == user && rows[k].logoutAt.None?
    && forall j :: 0 <= j < |rows| && rows[j].userId == user && rows[j].logoutAt.None? ==>
         NotAfter(rows[j].loginAt, rows[k].loginAt)
  }

  class LoginLogBook {
    var rows: seq<LogRow>
    var nextId: int

    constructor(rows: seq<LogRow>, nextId: int)
      ensures this.rows == rows && this.nextId == nextId
    {
      this.rows := rows;
      this.nextId := nextId;
    }

    /** One `UPDATE login_logs SET a WHERE f`, applied row by row; returns
        the number of rows changed. */
    method Update(f: Selector, a: Action) returns (count: nat)
      modifies this
      ensures rows == UpdateAll(old(rows), f, a)
      ensures count == CountSel(old(rows), f)
      ensures nextId == old(nextId)
    {
      var out: seq<LogRow> := [];
      count := 0;
      var i := 0;
      while i < |rows|
        invariant 0 <= i <= |rows|
        invariant out == UpdateAll(rows[..i], f, a)
        invariant count == CountSel(rows[..i], f)
      {
        var r := rows[i];
        assert rows[..i + 1][..i] == rows[..i];
        if Selects(f, r) {
          out := out + [Apply(a, r)];
          count := count + 1;
        } else {
          out := out + [r];
        }
        i := i + 1;
      }
      assert rows[..i] == rows;
      rows := out;
    }

    /** `ArchiveLogsByDate`: archives that date's rows whose flag is FALSE or NULL. */
    method ArchiveByDate(d: Date, admin: int, now: Instant) returns (count: nat)
      modifies this
      ensures rows == UpdateAll(old(rows), DateUnarchived(d), Archive(now, admin))
      ensures count == CountSel(old(rows), DateUnarchived(d))
      ensures nextId == old(nextId)
    {
      count := Update(DateUnarchived(d), Archive(now, admin));
    }

    /** `UnarchiveLogSheet`: unarchives that date's archived rows and clears the stamps. */
    method UnarchiveByDate(d: Date) returns (count: nat)
      modifies this
      ensures rows == UpdateAll(old(rows), DateArchived(d), Unarchive)
      ensures count == CountSel(old(rows), DateArchived(d))
      ensures nextId == old(nextId)
    {
      count := Update(DateArchived(d), Unarchive);
    }

    /** `ArchiveLogs`: an empty id list is an error; otherwise archives the
        listed rows whose flag is FALSE (a NULL flag is not matched). */
    method ArchiveByIds(ids: seq<int>, admin: int, now: Instant) returns (r: Result<nat, string>)
      modifies this
      ensures |ids| == 0 ==> r == Err("no log IDs provided") && rows == old(rows)
      ensures |ids| > 0 ==>
        r == Ok(CountSel(old(rows), IdsNotArchived(set x | x in ids)))
        && rows == UpdateAll(old(rows), IdsNotArchived(set x | x in ids), Archive(now, admin))
      ensures nextId == old(nextId)
    {
      if |ids| == 0 {
        return Err("no log IDs provided");
      }
      var n := Update(IdsNotArchived(set x | x in ids), Archive(now, admin));
      return Ok(n);
    }

    /** `UnarchiveLogs` (the later, count-returning definition): an empty id
        list is an error; otherwise unarchives the listed archived rows. */
    method UnarchiveByIds(ids: seq<int>) returns (r: Result<nat, string>)
      modifies this
      ensures |ids| == 0 ==> r == Err("no log IDs provided") && rows == old(rows)
      ensures |ids| > 0 ==>
        r == Ok(CountSel(old(rows), IdsArchived(set x | x in ids)))
        && rows == UpdateAll(old(rows), IdsArchived(set x | x in ids), Unarchive)
      ensures nextId == old(nextId)
    {
      if |ids| == 0 {
        return Err("no log IDs provided");
      }
      var n := Update(IdsArchived(set x | x in ids), Unarchive);
      return Ok(n);
    }

    /** `ArchiveSelectedLogs`: an empty id list is an error; otherwise every
        listed row is (re)stamped as archived, whatever its flag was. */
    method ArchiveSelected(ids: seq<int>, admin: int, now: Instant) returns (r: Result<(), string>)
      modifies this
      ensures |ids| == 0 ==> r == Err("no log IDs provided") && rows == old(rows)
      ensures |ids| > 0 ==> r.Ok? && rows == UpdateAll(old(rows), Ids(set x | x in ids), Archive(now, admin))
      ensures nextId == old(nextId)
    {
      if |ids| == 0 {
        return Err("no log IDs provided");
      }
      var _ := Update(Ids(set x | x in ids), Archive(now, admin));
      return Ok(());
    }

    /** `createLoginLog`: appends a successful login and returns its id. */
    method AppendSuccess(user: int, pc: string, now: Instant) returns (id: int)
      modifies this
      ensures id == old(nextId) && nextId == old(nextId) + 1
      ensures rows == old(rows) + [LogRow(id, user, Some(pc), now, None, Success, Some(false), None, None)]
    {
      id := nextId;
      rows := rows + [LogRow(id, user, Some(pc), now, None, Success, Some(false), None, None)];
      nextId := nextId + 1;
    }

    /** `Logout`: sets the logout time on the user's open row with the latest
        login; with no open row nothing changes and it is not an error. */
    method CloseLatest(user: int, now: Instant) returns (closed: Option<int>)
      modifies this
      ensures closed.None? ==>
        rows == old(rows)
        && forall j :: 0 <= j < |rows| ==> !(rows[j].userId == user && rows[j].logoutAt.None?)
      ensures closed.Some? ==>
        LatestOpen(old(rows), user, closed.value)
        && rows == old(rows)[closed.value := old(rows)[closed.value].(logoutAt := Some(now))]
      ensures nextId == old(nextId)
    {
      closed := None;
      var i := 0;
      while i < |rows|
        invariant 0 <= i <= |rows|
        invariant rows == old(rows) && nextId == old(nextId)
        invariant closed.None? ==> forall j :: 0 <= j < i ==> !(rows[j].userId == user && rows[j].logoutAt.None?)
        invariant closed.Some? ==> LatestOpen(rows[..i], user, closed.value)
      {
        assert rows[..i + 1][..i] == rows[..i];
        if rows[i].userId == user && rows[i].logoutAt.None? {
          if closed.None? || NotAfter(rows[closed.value].loginAt, rows[i].loginAt) {
            if closed.Some? {
              forall j | 0 <= j < i && rows[j].userId == user && rows[j].logoutAt.None?
                ensures NotAfter(rows[j].loginAt, rows[i].loginAt)
              {
                NotAfterTrans(rows[j].loginAt, rows[closed.value].loginAt, rows[i].loginAt);
              }
            }
            closed := Some(i);
          } else {
            NotAfterTotal(rows[closed.value].loginAt, rows[i].loginAt);
          }
        }
        i := i + 1;
      }
      assert rows[..i] == rows;
      if closed.Some? {
        rows := rows[closed.value := rows[closed.value].(logoutAt := Some(now))];
      }
    }
  }
}
