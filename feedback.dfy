/** Equipment feedback of feedback.go: the condition mapping and comment
    building of `SaveEquipmentFeedback`, the pending-to-forwarded transition
    of `ForwardFeedbackToAdmin` and `ForwardMultipleFeedbackToAdmin`, the
    list filters and the student display name. */
module Feedback {
  import opened Wrappers
  import opened Text
  import opened Clock
  import opened App

  datatype FbStatus = Pending | Forwarded

  /** A row of the `feedback` table. */
  datatype FeedbackRow = FeedbackRow(
    student: int,
    pc: string,
    equipment: string,
    monitor: string,
    keyboard: string,
    mouse: string,
    comments: Option<string>,
    submittedAt: Instant,
    status: FbStatus,
    forwardedBy: Option<int>,
    forwardedAt: Option<Instant>,
    notes: Option<string>)

  /** The condition stored for one component: "no" means not working,
      every other answer means good. */
  function Condition(answer: string): (r: string)
    ensures r == "Not Working" <==> answer == "no"
    ensures r == "Good" <==> answer != "no"
  {
    if answer == "no" then "Not Working" else "Good"
  }

  /** The labelled comment part for one issue text, absent when the text is empty. */
  function Part(tag: string, text: string): (r: seq<string>)
    ensures |r| <= 1
    ensures |r| == 1 <==> text != ""
  {
    if text == "" then [] else [tag + text]
  }

  /** The non-empty comment parts in the order the code appends them. */
  function Parts(computer: string, monitor: string, keyboard: string, mouse: string, additional: string): (r: seq<string>)
    ensures |r| <= 5
    ensures |r| == 0 <==> computer == "" && monitor == "" && keyboard == "" && mouse == "" && additional == ""
    ensures computer != "" ==> r[0] == "Computer: " + computer
    ensures forall i :: 0 <= i < |r| ==> |r[i]| > 0
  {
    Part("Computer: ", computer) + Part("Monitor: ", monitor) + Part("Keyboard: ", keyboard)
    + Part("Mouse: ", mouse) + Part("Additional: ", additional)
  }

  /** The comment loop: the first part, then "; " and each further part. */
  method CombineComments(parts: seq<string>) returns (combined: string)
    ensures combined == Join(parts, "; ")
  {
    combined := "";
    if |parts| > 0 {
      combined := parts[0];
      var i := 1;
      while i < |parts|
        invariant 1 <= i <= |parts|
        invariant combined == Join(parts[..i], "; ")
      {
        JoinSnoc(parts[..i], parts[i], "; ");
        assert parts[..i + 1] == parts[..i] + [parts[i]];
        combined := combined + "; " + parts[i];
        i := i + 1;
      }
      assert parts[..i] == parts;
    }
  }

  /** Joining non-empty parts gives the empty text only for no parts, and
      the text starts with the first part. */
  lemma {:induction false} JoinNonEmpty(parts: seq<string>, sep: string)
    requires forall i :: 0 <= i < |parts| ==> |parts[i]| > 0
    ensures Join(parts, sep) == "" <==> |parts| == 0
    ensures |parts| > 0 ==> IsPrefix(parts[0], Join(parts, sep))
  {
    if |parts| > 1 {
      assert Join(parts, sep) == parts[0] + (sep + Join(parts[1..], sep));
    }
  }

  /** The stored comment is NULL exactly when the student wrote no issue
      text at all; otherwise it begins with the first labelled part. */
  lemma CommentsNullIffNoIssue(computer: string, monitor: string, keyboard: string, mouse: string, additional: string)
    ensures NullString(Join(Parts(computer, monitor, keyboard, mouse, additional), "; ")).None? <==>
      computer == "" && monitor == "" && keyboard == "" && mouse == "" && additional == ""
    ensures computer != "" ==>
      IsPrefix("Computer: " + computer, Join(Parts(computer, monitor, keyboard, mouse, additional), "; "))
  {
    JoinNonEmpty(Parts(computer, monitor, keyboard, mouse, additional), "; ");
  }

  /** A forwarded copy of a row: the status, the forwarder, the time and the notes. */
  function ForwardRow(row: FeedbackRow, actor: int, notes: string, now: Instant): (r: FeedbackRow)
    ensures r.status == Forwarded && r.forwardedBy == Some(actor) && r.forwardedAt == Some(now)
    ensures r.notes == NullString(notes)
    ensures r.(status := row.status, forwardedBy := row.forwardedBy, forwardedAt := row.forwardedAt, notes := row.notes) == row
  {
    row.(status := Forwarded, forwardedBy := Some(actor), forwardedAt := Some(now), notes := NullString(notes))
  }

  /** The listed rows that are still pending: those the UPDATE changes. */
  function PendingIn(rows: map<int, FeedbackRow>, ids: set<int>): (r: set<int>)
    ensures r <= ids && r <= rows.Keys
    ensures forall id :: id in r <==> id in ids && id in rows && rows[id].status == Pending
  {
    set id | id in ids && id in rows && rows[id].status == Pending
  }

  /** `UPDATE feedback SET status = 'forwarded', … WHERE id IN ids AND status = 'pending'`. */
  function ForwardRows(rows: map<int, FeedbackRow>, ids: set<int>, actor: int, notes: string, now: Instant): (r: map<int, FeedbackRow>)
    ensures r.Keys == rows.Keys
    ensures forall id :: id in PendingIn(rows, ids) ==> r[id] == ForwardRow(rows[id], actor, notes, now)
    ensures forall id :: id in rows && id !in PendingIn(rows, ids) ==> r[id] == rows[id]
  {
    map id | id in rows :: if id in ids && rows[id].status == Pending then ForwardRow(rows[id], actor, notes, now) else rows[id]
  }

  /** Rows listed by `GetPendingFeedback`. */
  function PendingIds(rows: map<int, FeedbackRow>): (r: set<int>)
    ensures forall id :: id in r <==> id in rows && rows[id].status == Pending
  {
    set id | id in rows && rows[id].status == Pending
  }

  /** Rows listed by `GetFeedback`. */
  function ForwardedIds(rows: map<int, FeedbackRow>): (r: set<int>)
    ensures forall id :: id in r <==> id in rows && rows[id].status == Forwarded
  {
    set id | id in rows && rows[id].status == Forwarded
  }

  /** Forwarding moves exactly the listed pending rows from the pending list
      to the forwarded list; no row ever goes back to pending and a row
      already forwarded keeps its forwarder, time and notes. */
  lemma ForwardMovesPending(rows: map<int, FeedbackRow>, ids: set<int>, actor: int, notes: string, now: Instant)
    ensures PendingIds(ForwardRows(rows, ids, actor, notes, now)) == PendingIds(rows) - ids
    ensures ForwardedIds(ForwardRows(rows, ids, actor, notes, now)) == ForwardedIds(rows) + PendingIn(rows, ids)
    ensures forall id :: id in ForwardedIds(rows) ==> ForwardRows(rows, ids, actor, notes, now)[id] == rows[id]
  {
    var r := ForwardRows(rows, ids, actor, notes, now);
    assert PendingIds(r) == PendingIds(rows) - ids;
    assert ForwardedIds(r) == ForwardedIds(rows) + PendingIn(rows, ids);
  }

  /** Forwarding the same rows again changes nothing and affects no row. */
  lemma ForwardTwice(rows: map<int, FeedbackRow>, ids: set<int>, actor: int, notes: string, now: Instant,
                     actor2: int, notes2: string, later: Instant)
    ensures PendingIn(ForwardRows(rows, ids, actor, notes, now), ids) == {}
    ensures ForwardRows(ForwardRows(rows, ids, actor, notes, now), ids, actor2, notes2, later) ==
      ForwardRows(rows, ids, actor, notes, now)
  {
    var once := ForwardRows(rows, ids, actor, notes, now);
    assert PendingIn(once, ids) == {};
    var twice := ForwardRows(once, ids, actor2, notes2, later);
    assert twice.Keys == once.Keys;
    assert forall id :: id in once ==> twice[id] == once[id];
  }

  /** The student's display name: "Last, First", then " Middle" when the middle name is not NULL. */
  function DisplayName(last: string, first: string, middle: Option<string>): (r: string)
    ensures IsPrefix(last + ", " + first, r)
    ensures middle.None? ==> r == last + ", " + first
    ensures middle.Some? ==> r[|last| + 2 + |first|..] == " " + middle.value
    ensures |r| == |last| + 2 + |first| + (if middle.Some? then 1 + |middle.value| else 0)
  {
    var base := last + ", " + first;
    if middle.Some? then base + " " + middle.value else base
  }

  /** When the last name has no comma, it is everything before the first comma. */
  lemma DisplayNameLastName(last: string, first: string, middle: Option<string>)
    requires ',' !in last
    ensures IndexOf(DisplayName(last, first, middle), ',') == |last|
  {
    var r := DisplayName(last, first, middle);
    assert r[..|last|] == last;
    assert r[|last|] == ',';
  }

  /** The forwarder's name as the listing's `CONCAT` builds it from the one
      profile (student, teacher or admin) its user type joins: the last name
      or "", ", " only when there is a last name, the first name or "", then
      " Middle" when there is a middle name. Every argument is coalesced, so
      the text is never NULL. */
  function ForwarderText(last: Option<string>, first: Option<string>, middle: Option<string>): (r: string)
    ensures last.Some? && first.Some? ==> r == DisplayName(last.value, first.value, middle)
    ensures last.None? ==> r == first.GetOr("") + (if middle.Some? then " " + middle.value else "")
    ensures last.Some? ==> IsPrefix(last.value + ", ", r)
  {
    var base := (if last.Some? then last.value + ", " else "") + first.GetOr("");
    if middle.Some? then base + " " + middle.value else base
  }

  /** The `forwarded_by_name` field: set only when the text is not empty, so
      a row with no forwarder profile has none. */
  function ForwardedByName(last: Option<string>, first: Option<string>, middle: Option<string>): (r: Option<string>)
    ensures last.None? && first.None? && middle.None? ==> r.None?
    ensures last.Some? || middle.Some? ==> r == Some(ForwarderText(last, first, middle))
    ensures r.Some? ==> r.value != "" && r.value == ForwarderText(last, first, middle)
    ensures r.None? <==> ForwarderText(last, first, middle) == ""
    ensures first.Some? && first.value != "" ==> r == Some(ForwarderText(last, first, middle))
  {
    var text := ForwarderText(last, first, middle);
    if text != "" then Some(text) else None
  }

  /** The ids an `IN (…)` list names, repetitions and order aside. */
  function ListedIds(ids: seq<int>): (r: set<int>)
    ensures forall i :: i in r <==> i in ids
  {
    set i | i in ids
  }

  class FeedbackBook {
    var rows: map<int, FeedbackRow>
    var nextId: int

    constructor(rows: map<int, FeedbackRow>, nextId: int)
      ensures this.rows == rows && this.nextId == nextId
    {
      this.rows := rows;
      this.nextId := nextId;
    }

    /** `SaveEquipmentFeedback`: one pending row with the four conditions and
        the combined comment (NULL when empty); a failed host-name lookup
        records the PC as "Unknown"; a failed insert is an error and stores nothing. */
    method Save(student: int, hostname: Option<string>,
                computerStatus: string, computerIssue: string, mouseStatus: string, mouseIssue: string,
                keyboardStatus: string, keyboardIssue: string, monitorStatus: string, monitorIssue: string,
                additional: string, now: Instant, insertFails: bool)
      returns (r: Result<int, string>)
      modifies this
      ensures insertFails ==> r == Err("failed to save feedback") && rows == old(rows) && nextId == old(nextId)
      ensures !insertFails ==>
        r == Ok(old(nextId)) && nextId == old(nextId) + 1
        && rows == old(rows)[old(nextId) := FeedbackRow(student, hostname.GetOr("Unknown"),
             Condition(computerStatus), Condition(monitorStatus), Condition(keyboardStatus), Condition(mouseStatus),
             NullString(Join(Parts(computerIssue, monitorIssue, keyboardIssue, mouseIssue, additional), "; ")),
             now, Pending, None, None, None)]
    {
      var pc := if hostname.Some? then hostname.value else "Unknown";
      var combined := CombineComments(Parts(computerIssue, monitorIssue, keyboardIssue, mouseIssue, additional));
      if insertFails {
        return Err("failed to save feedback");
      }
      var row := FeedbackRow(student, pc, Condition(computerStatus), Condition(monitorStatus),
                             Condition(keyboardStatus), Condition(mouseStatus), NullString(combined),
                             now, Pending, None, None, None);
      rows := rows[nextId := row];
      r := Ok(nextId);
      nextId := nextId + 1;
    }

    /** `ForwardFeedbackToAdmin`: forwards the row only when it is pending;
        when no row changes it is an error. */
    method Forward(id: int, actor: int, notes: string, now: Instant) returns (r: Result<(), string>)
      modifies this
      ensures r.Ok? <==> id in old(rows) && old(rows)[id].status == Pending
      ensures r.Err? ==> r.error == "feedback not found or already forwarded" && rows == old(rows)
      ensures rows == ForwardRows(old(rows), {id}, actor, notes, now)
      ensures nextId == old(nextId)
    {
      var changed := PendingIn(rows, {id});
      rows := ForwardRows(rows, {id}, actor, notes, now);
      if changed == {} {
        assert rows == old(rows);
        return Err("feedback not found or already forwarded");
      }
      assert id in changed;
      r := Ok(());
    }

    /** `ForwardMultipleFeedbackToAdmin`: an empty list is an error; otherwise
        the listed pending rows are forwarded and their number returned, and
        forwarding none of them is an error. */
    method ForwardMany(ids: seq<int>, actor: int, notes: string, now: Instant) returns (r: Result<nat, string>)
      modifies this
      ensures |ids| == 0 ==> r == Err("no feedback IDs provided") && rows == old(rows)
      ensures |ids| > 0 ==> rows == ForwardRows(old(rows), ListedIds(ids), actor, notes, now)
      ensures |ids| > 0 && PendingIn(old(rows), ListedIds(ids)) == {} ==>
        r == Err("no feedback items were forwarded (may already be forwarded or not found)")
      ensures r.Ok? ==> r.value == |PendingIn(old(rows), ListedIds(ids))| && r.value > 0
      ensures nextId == old(nextId)
    {
      if |ids| == 0 {
        return Err("no feedback IDs provided");
      }
      var listed := ListedIds(ids);
      var count := |PendingIn(rows, listed)|;
      rows := ForwardRows(rows, listed, actor, notes, now);
      if count == 0 {
        return Err("no feedback items were forwarded (may already be forwarded or not found)");
      }
      r := Ok(count);
    }
  }
}
