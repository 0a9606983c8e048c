/** User creation and bulk student import (users.go): the username rule and
    checks of `CreateUser`, header detection and column mapping of the
    CSV/text importers, `getColumnValue`, and the per-row accounting of
    `processBulkRecords` and `processBulkRecordsSimple`. */
module Users {
  import opened Wrappers
  import opened Text
  import opened App

  // ---------------------------------------------------------------- CreateUser

  predicate StudentRole(role: string) {
    role == "student" || role == "working_student"
  }

  /** The roles that get a row in a role-specific profile table. */
  predicate ProfileRole(role: string) {
    role == "admin" || role == "teacher" || StudentRole(role)
  }

  /** The warning sign and variation selector that open the duplicate messages. */
  const Warning: string := "\U{26A0}\U{FE0F}"

  function DuplicateMessage(role: string): (r: string)
    ensures IsPrefix(Warning + " This ", r)
  {
    var tail := if StudentRole(role) then
      "Student ID is already registered. If you already have an account, please use the login form instead"
    else
      role + " ID is already registered in the system";
    PrefixOfAppend(Warning + " This ", tail);
    Warning + " This " + tail
  }

  /** The login name a new account gets: the student ID for the two student
      roles, the employee ID for every other role. */
  function Username(role: string, employeeID: string, studentID: string): string {
    if StudentRole(role) then studentID else employeeID
  }

  /** `CreateUser` up to its inserts: the username rule, the fields a working
      student must give, and the duplicate-username check, in that order. */
  function CreateUserCheck(role: string, employeeID: string, studentID: string,
                           firstName: string, lastName: string, taken: set<string>): (r: Result<string, string>)
    ensures r.Ok? ==> r.value == Username(role, employeeID, studentID) && r.value !in taken
    ensures r.Ok? && StudentRole(role) ==> r.value != ""
    ensures r.Ok? <==>
      !(StudentRole(role) && studentID == "")
      && !(role == "working_student" && (firstName == "" || lastName == ""))
      && Username(role, employeeID, studentID) !in taken
  {
    var username := Username(role, employeeID, studentID);
    if StudentRole(role) && username == "" then Err("student ID is required for " + role + " role")
    else if role == "working_student" && studentID == "" then Err("student ID is required for working student")
    else if role == "working_student" && (firstName == "" || lastName == "") then Err("first name and last name are required")
    else if username in taken then Err(DuplicateMessage(role))
    else Ok(username)
  }

  /** Which message each refusal of `CreateUserCheck` carries. */
  lemma CreateUserCheckMessages(role: string, employeeID: string, studentID: string,
                                firstName: string, lastName: string, taken: set<string>)
    ensures var r := CreateUserCheck(role, employeeID, studentID, firstName, lastName, taken);
      && (StudentRole(role) && studentID == "" ==> r == Err("student ID is required for " + role + " role"))
      && (role == "working_student" && studentID != "" && (firstName == "" || lastName == "") ==>
            r == Err("first name and last name are required"))
      && (r.Err? && !(StudentRole(role) && studentID == "") && !(role == "working_student" && (firstName == "" || lastName == "")) ==>
            r == Err(DuplicateMessage(role)))
  {
  }

  /** The second student-ID check for working students can never fire: the
      username rule has already refused an empty student ID. */
  lemma WorkingStudentIdCheckUnreachable(role: string, employeeID: string, studentID: string,
                                         firstName: string, lastName: string, taken: set<string>)
    ensures CreateUserCheck(role, employeeID, studentID, firstName, lastName, taken)
      != Err("student ID is required for working student")
  {
    var r := CreateUserCheck(role, employeeID, studentID, firstName, lastName, taken);
    var m := "student ID is required for working student";
    CreateUserCheckMessages(role, employeeID, studentID, firstName, lastName, taken);
    if r.Err? {
      if StudentRole(role) && studentID == "" {
        var w := "student ID is required for " + role + " role";
        if role == "student" {
          assert |w| != |m|;
        } else {
          assert w[34] == '_' && m[34] == ' ';
        }
      } else if role == "working_student" && (firstName == "" || lastName == "") {
        assert |r.error| != |m|;
      } else {
        assert r.error[0] == Warning[0] != m[0];
      }
    }
  }

  /** The role-specific profile row (`admins`, `teachers` or `students`). */
  datatype Profile = Profile(role: string, firstName: string, middleName: Option<string>, lastName: string,
                             email: Option<string>, contact: Option<string>)

  /** The outcome of `CreateUser` and the accounts afterwards (username to
      profile; no profile when its insert failed or the role has no table).
      The two inserts are not one transaction: an account whose profile
      insert failed stays. */
  function CreateUserEffect(role: string, employeeID: string, studentID: string,
                            firstName: string, middleName: string, lastName: string, email: string, contact: string,
                            accounts: map<string, Option<Profile>>, userInsertFails: bool, profileInsertFails: bool)
    : (r: (Result<(), string>, map<string, Option<Profile>>))
    ensures var check := CreateUserCheck(role, employeeID, studentID, firstName, lastName, accounts.Keys);
      && (r.0.Ok? <==> check.Ok? && !userInsertFails && !(ProfileRole(role) && profileInsertFails))
      && (check.Ok? && !userInsertFails ==>
            r.1.Keys == accounts.Keys + {check.value} && forall u :: u in accounts ==> r.1[u] == accounts[u])
      && (!(check.Ok? && !userInsertFails) ==> r.1 == accounts)
    ensures var check := CreateUserCheck(role, employeeID, studentID, firstName, lastName, accounts.Keys);
      check.Ok? && !userInsertFails && (!ProfileRole(role) || profileInsertFails) ==> r.1[check.value] == None
    ensures r.0.Ok? && ProfileRole(role) && role != "admin" ==>
      r.1[Username(role, employeeID, studentID)]
        == Some(Profile(role, firstName, NullString(middleName), lastName, NullString(email), NullString(contact)))
    ensures r.0.Ok? && role == "admin" ==>
      r.1[Username(role, employeeID, studentID)]
        == Some(Profile(role, firstName, NullString(middleName), lastName, NullString(email), None))
  {
    match CreateUserCheck(role, employeeID, studentID, firstName, lastName, accounts.Keys)
    case Err(e) => (Err(e), accounts)
    case Ok(username) =>
      if userInsertFails then (Err("failed to create user account"), accounts)
      else if !ProfileRole(role) then (Ok(()), accounts[username := None])
      else if profileInsertFails then (Err("failed to create " + role + " profile"), accounts[username := None])
      else
        // the admins insert has no contact_number column
        var p := Profile(role, firstName, NullString(middleName), lastName, NullString(email),
                         if role == "admin" then None else NullString(contact));
        (Ok(()), accounts[username := Some(p)])
  }

  // ---------------------------------------------------------------- column detection

  /** The keys of the importer's column map. */
  datatype ColKey = StudentCode | FirstName | LastName | MiddleName | Email | Contact

  /** The importer's column map: the column index of each key it holds. */
  datatype Columns = Columns(studentCode: Option<nat>, firstName: Option<nat>, lastName: Option<nat>,
                             middleName: Option<nat>, email: Option<nat>, contact: Option<nat>)
  {
    function Get(k: ColKey): Option<nat> {
      match k
      case StudentCode => studentCode
      case FirstName => firstName
      case LastName => lastName
      case MiddleName => middleName
      case Email => email
      case Contact => contact
    }

    /** `len(columnMap) == 0`. */
    predicate IsEmpty() {
      studentCode.None? && firstName.None? && lastName.None? && middleName.None? && email.None? && contact.None?
    }
  }

  const NoColumns := Columns(None, None, None, None, None, None)

  /** A header cell as compared: trimmed and lower-cased. */
  function NormHeader(h: string): string {
    Lower(TrimSpace(h))
  }

  /** A header test as the source writes it: substring tests and
      equalities combined with `!`, `&&` and `||`. */
  datatype Test = Has(word: string) | Is(word: string) | Not(t: Test) | All(a: Test, b: Test) | Any(a: Test, b: Test)

  predicate Holds(t: Test, h: string) {
    match t
    case Has(w) => Contains(h, w)
    case Is(w) => h == w
    case Not(a) => !Holds(a, h)
    case All(a, b) => Holds(a, h) && Holds(b, h)
    case Any(a, b) => Holds(a, h) || Holds(b, h)
  }

  /** The test of each key in `detectColumns`, with Go's `&&` binding
      tighter than `||`. */
  function TestOf(k: ColKey): Test {
    match k
    case StudentCode =>
      Any(All(Has("student"), Any(Has("code"), Has("id"))),
      Any(Has("student_id"),
      Any(Has("student code"),
          All(Has("id"), All(Not(Has("email")), Not(Has("contact")))))))
    case FirstName =>
      Any(All(Has("first"), Has("name")), Any(Has("firstname"), Any(Has("fname"), Is("first"))))
    case LastName =>
      Any(All(Has("last"), Has("name")), Any(Has("lastname"), Any(Has("lname"), Any(Is("last"), Has("surname")))))
    case MiddleName =>
      Any(All(Has("middle"), Has("name")), Any(Has("middlename"), Any(Has("mname"), Any(Is("middle"), Has("mi")))))
    case Email =>
      Any(Has("email"), Any(Has("e-mail"), Has("mail")))
    case Contact =>
      Any(Has("contact"), Any(Has("phone"), Any(Has("mobile"), Any(Has("cell"),
          All(Has("number"), All(Not(Has("student")), Not(Has("id"))))))))
  }

  /** Whether a normalised header names the column `k`. */
  predicate Names(k: ColKey, h: string) {
    Holds(TestOf(k), h)
  }

  /** The test a normalised header passes to name the column `k`. */
  function Namer(k: ColKey): string -> bool {
    h => Names(k, h)
  }

  /** Every header cell normalised, in order. */
  function NormAll(headers: seq<string>): (r: seq<string>)
    ensures |r| == |headers|
  {
    if |headers| == 0 then [] else NormAll(headers[..|headers| - 1]) + [NormHeader(headers[|headers| - 1])]
  }

  lemma {:induction false} NormAllAt(headers: seq<string>, j: int)
    requires 0 <= j < |headers|
    ensures NormAll(headers)[j] == NormHeader(headers[j])
    decreases |headers|
  {
    if j < |headers| - 1 {
      NormAllAt(headers[..|headers| - 1], j);
    }
  }

  /** The first position whose element passes `p`, if any. */
  function FirstWhere(hs: seq<string>, p: string -> bool): Option<nat> {
    if |hs| == 0 then None
    else match FirstWhere(hs[..|hs| - 1], p)
      case Some(i) => Some(i)
      case None => if p(hs[|hs| - 1]) then Some(|hs| - 1) else None
  }

  lemma FirstWhereSnoc(hs: seq<string>, i: int, p: string -> bool)
    requires 0 <= i < |hs|
    ensures FirstWhere(hs[..i + 1], p) ==
      if FirstWhere(hs[..i], p).Some? then FirstWhere(hs[..i], p) else if p(hs[i]) then Some(i) else None
  {
    assert hs[..i + 1][..i] == hs[..i];
  }

  /** The position found passes the test and no earlier one does; none is
      found exactly when no position passes. */
  lemma {:induction false} FirstWhereMeaning(hs: seq<string>, p: string -> bool)
    ensures var r := FirstWhere(hs, p);
      && (r.Some? ==> r.value < |hs| && p(hs[r.value]) && forall j :: 0 <= j < r.value ==> !p(hs[j]))
      && (r.None? <==> forall j :: 0 <= j < |hs| ==> !p(hs[j]))
    decreases |hs|
  {
    if |hs| > 0 {
      var front := hs[..|hs| - 1];
      FirstWhereMeaning(front, p);
      assert forall j :: 0 <= j < |front| ==> front[j] == hs[j];
    }
  }

  /** The first header that names `k`, if any. */
  function FirstMatch(headers: seq<string>, k: ColKey): Option<nat> {
    FirstWhere(NormAll(headers), Namer(k))
  }

  /** Each key at the first header naming it, absent when none does. */
  function Detected(headers: seq<string>): Columns {
    Columns(FirstMatch(headers, StudentCode), FirstMatch(headers, FirstName), FirstMatch(headers, LastName),
            FirstMatch(headers, MiddleName), FirstMatch(headers, Email), FirstMatch(headers, Contact))
  }

  lemma DetectedGet(headers: seq<string>)
    ensures forall k :: Detected(headers).Get(k) == FirstMatch(headers, k)
  {
    forall k
      ensures Detected(headers).Get(k) == FirstMatch(headers, k)
    {
      match k
      case StudentCode =>
      case FirstName =>
      case LastName =>
      case MiddleName =>
      case Email =>
      case Contact =>
    }
  }

  /** What the detected map means: a key it holds sits at a header naming
      it, with no earlier header naming it; a key it lacks is named by no header. */
  lemma DetectedMeaning(headers: seq<string>)
    ensures forall k :: Detected(headers).Get(k).Some? ==>
      Detected(headers).Get(k).value < |headers| && Names(k, NormHeader(headers[Detected(headers).Get(k).value]))
    ensures forall k, j :: Detected(headers).Get(k).Some? && 0 <= j < Detected(headers).Get(k).value ==>
      !Names(k, NormHeader(headers[j]))
    ensures forall k :: Detected(headers).Get(k).None? ==>
      forall j :: 0 <= j < |headers| ==> !Names(k, NormHeader(headers[j]))
  {
    var cols := Detected(headers);
    var norm := NormAll(headers);
    DetectedGet(headers);
    forall k
      ensures var r := FirstWhere(norm, Namer(k));
        && (r.Some? ==> r.value < |norm| && Namer(k)(norm[r.value]) && forall j :: 0 <= j < r.value ==> !Namer(k)(norm[j]))
        && (r.None? <==> forall j :: 0 <= j < |norm| ==> !Namer(k)(norm[j]))
    {
      FirstWhereMeaning(norm, Namer(k));
    }
    forall k | cols.Get(k).Some?
      ensures cols.Get(k).value < |headers| && Names(k, NormHeader(headers[cols.Get(k).value]))
    {
      NormAllAt(headers, cols.Get(k).value);
      assert Namer(k)(norm[cols.Get(k).value]);
    }
    forall k, j | cols.Get(k).Some? && 0 <= j < cols.Get(k).value
      ensures !Names(k, NormHeader(headers[j]))
    {
      NormAllAt(headers, j);
      assert !Namer(k)(norm[j]);
    }
    forall k, j | cols.Get(k).None? && 0 <= j < |headers|
      ensures !Names(k, NormHeader(headers[j]))
    {
      NormAllAt(headers, j);
      assert !Namer(k)(norm[j]);
    }
  }

  /** The column map holds, for each key, the first of the normalised
      headers `norm` that names it. */
  predicate FirstOfEach(cols: Columns, norm: seq<string>) {
    && cols.studentCode == FirstWhere(norm, Namer(StudentCode))
    && cols.firstName == FirstWhere(norm, Namer(FirstName))
    && cols.lastName == FirstWhere(norm, Namer(LastName))
    && cols.middleName == FirstWhere(norm, Namer(MiddleName))
    && cols.email == FirstWhere(norm, Namer(Email))
    && cols.contact == FirstWhere(norm, Namer(Contact))
  }

  /** One header more: a key not yet placed is placed at it when it names the key. */
  lemma FirstStep(o: Option<nat>, norm: seq<string>, i: int, k: ColKey)
    requires 0 <= i < |norm| && o == FirstWhere(norm[..i], Namer(k))
    ensures FirstWhere(norm[..i + 1], Namer(k)) == if o.None? && Names(k, norm[i]) then Some(i) else o
  {
    FirstWhereSnoc(norm, i, Namer(k));
  }

  /** `detectColumns`: each key, once, at the first header naming it. */
  method DetectColumns(headers: seq<string>) returns (cols: Columns)
    ensures cols == Detected(headers)
  {
    cols := NoColumns;
    ghost var norm := NormAll(headers);
    var i := 0;
    while i < |headers|
      invariant 0 <= i <= |headers|
      invariant FirstOfEach(cols, norm[..i])
    {
      var h := NormHeader(headers[i]);
      NormAllAt(headers, i);
      FirstStep(cols.studentCode, norm, i, StudentCode);
      FirstStep(cols.firstName, norm, i, FirstName);
      FirstStep(cols.lastName, norm, i, LastName);
      FirstStep(cols.middleName, norm, i, MiddleName);
      FirstStep(cols.email, norm, i, Email);
      FirstStep(cols.contact, norm, i, Contact);
      if cols.studentCode.None? && Names(StudentCode, h) { cols := cols.(studentCode := Some(i)); }
      if cols.firstName.None? && Names(FirstName, h) { cols := cols.(firstName := Some(i)); }
      if cols.lastName.None? && Names(LastName, h) { cols := cols.(lastName := Some(i)); }
      if cols.middleName.None? && Names(MiddleName, h) { cols := cols.(middleName := Some(i)); }
      if cols.email.None? && Names(Email, h) { cols := cols.(email := Some(i)); }
      if cols.contact.None? && Names(Contact, h) { cols := cols.(contact := Some(i)); }
      i := i + 1;
    }
    assert norm[..i] == norm;
  }

  /** The first row, lower-cased, as the header tests see it. */
  function FirstRowText(row: seq<string>): string {
    Lower(Join(row, " "))
  }

  /** `processBulkRecords` takes the first row for a header when it mentions
      any of six words. */
  predicate LooksLikeHeader(row: seq<string>) {
    var t := FirstRowText(row);
    Contains(t, "student") || Contains(t, "code") || Contains(t, "id")
    || Contains(t, "name") || Contains(t, "email") || Contains(t, "contact")
  }

  /** `processBulkRecordsSimple` uses three of them. */
  predicate LooksLikeHeaderSimple(row: seq<string>) {
    var t := FirstRowText(row);
    Contains(t, "student") || Contains(t, "code") || Contains(t, "name")
  }

  /** A text in which the first letter of `sub` never occurs does not contain `sub`. */
  lemma {:induction false} LacksFirstLetter(s: string, sub: string)
    requires |sub| > 0 && sub[0] !in s
    ensures !Contains(s, sub)
    decreases |s|
  {
    if |s| > 0 {
      assert s[0] != sub[0];
      assert s[1..] <= s[1..] && forall c :: c in s[1..] ==> c in s;
      LacksFirstLetter(s[1..], sub);
    }
  }

  /** The positional map used when no header was detected: middle name and
      contact only when the first row is wide enough, never an email column. */
  function Fallback(records: seq<seq<string>>): (c: Columns)
    ensures c.studentCode == Some(0) && c.firstName == Some(1) && c.lastName == Some(2) && c.email.None?
    ensures c.middleName.Some? <==> |records| > 0 && |records[0]| > 3
    ensures c.contact.Some? <==> |records| > 0 && |records[0]| > 4
  {
    Columns(Some(0), Some(1), Some(2),
            if |records| > 0 && |records[0]| > 3 then Some(3) else None,
            None,
            if |records| > 0 && |records[0]| > 4 then Some(4) else None)
  }

  /** The column map of `processBulkRecords`: the detected one after a
      header row, or the fallback when nothing was detected. */
  function ColumnsFor(records: seq<seq<string>>): (c: Columns)
    ensures !(|records| > 0 && LooksLikeHeader(records[0])) ==> c == Fallback(records)
    ensures |records| > 0 && LooksLikeHeader(records[0]) && Detected(records[0]).IsEmpty() ==>
      c == Fallback(records)
    ensures |records| > 0 && LooksLikeHeader(records[0]) && !Detected(records[0]).IsEmpty() ==>
      c == Detected(records[0])
    ensures c.studentCode.Some? || c.firstName.Some? || c.lastName.Some? || c.middleName.Some?
      || c.email.Some? || c.contact.Some?
  {
    var detected := if |records| > 0 && LooksLikeHeader(records[0]) then Detected(records[0]) else NoColumns;
    if detected.IsEmpty() then Fallback(records) else detected
  }

  // ---------------------------------------------------------------- field extraction

  /** `getColumnValue`: the trimmed cell when the column was found and lies
      inside the row, else the empty text. */
  function GetColumnValue(record: seq<string>, colIdx: int, found: bool): (r: string)
    ensures found && 0 <= colIdx < |record| ==> r == TrimSpace(record[colIdx])
    ensures !(found && 0 <= colIdx < |record|) ==> r == ""
  {
    if found && 0 <= colIdx < |record| then TrimSpace(record[colIdx]) else ""
  }

  /** Go's map index: a missing key reads as 0. */
  function Lookup(cols: Columns, k: ColKey): (r: int)
    ensures cols.Get(k).Some? ==> r == cols.Get(k).value
    ensures cols.Get(k).None? ==> r == 0
  {
    match cols.Get(k)
    case Some(i) => i
    case None => 0
  }

  /** The fields of one import row. */
  datatype Fields = Fields(code: string, first: string, last: string, middle: string, email: string, contact: string)

  /** A short row padded with empty cells to three columns. */
  function Pad3(record: seq<string>): (r: seq<string>)
    ensures |r| == if |record| < 3 then 3 else |record|
    ensures r[..|record|] == record
    ensures forall i :: |record| <= i < |r| ==> r[i] == ""
  {
    if |record| < 3 then record + seq(3 - |record|, _ => "") else record
  }

  /** The extraction as written: every key is looked up with a missing key
      reading as column 0, and `found` is `index >= 0`, which always holds. */
  function ExtractAsWritten(record: seq<string>, cols: Columns): Fields {
    Fields(GetColumnValue(record, Lookup(cols, StudentCode), true),
           GetColumnValue(record, Lookup(cols, FirstName), true),
           GetColumnValue(record, Lookup(cols, LastName), true),
           GetColumnValue(record, Lookup(cols, MiddleName), Lookup(cols, MiddleName) >= 0),
           GetColumnValue(record, Lookup(cols, Email), Lookup(cols, Email) >= 0),
           GetColumnValue(record, Lookup(cols, Contact), Lookup(cols, Contact) >= 0))
  }

  /** The extraction with the optional columns found only when the map has them. */
  function Extract(record: seq<string>, cols: Columns): (f: Fields)
    ensures cols.middleName.None? ==> f.middle == ""
    ensures cols.email.None? ==> f.email == ""
    ensures cols.contact.None? ==> f.contact == ""
  {
    Fields(GetColumnValue(record, Lookup(cols, StudentCode), true),
           GetColumnValue(record, Lookup(cols, FirstName), true),
           GetColumnValue(record, Lookup(cols, LastName), true),
           GetColumnValue(record, Lookup(cols, MiddleName), cols.middleName.Some?),
           GetColumnValue(record, Lookup(cols, Email), cols.email.Some?),
           GetColumnValue(record, Lookup(cols, Contact), cols.contact.Some?))
  }

  /** Where the map has every optional column, the two extractions agree;
      where it lacks one, the written one reads that field from column 0. */
  lemma ExtractAgrees(record: seq<string>, cols: Columns)
    requires |record| > 0
    ensures cols.middleName.Some? && cols.email.Some? && cols.contact.Some? ==>
      ExtractAsWritten(record, cols) == Extract(record, cols)
    ensures cols.email.None? ==> ExtractAsWritten(record, cols).email == TrimSpace(record[0])
    ensures cols.middleName.None? ==> ExtractAsWritten(record, cols).middle == TrimSpace(record[0])
    ensures cols.contact.None? ==> ExtractAsWritten(record, cols).contact == TrimSpace(record[0])
  {
  }

  lemma SampleRowText()
    ensures FirstRowText(["1", "Al", "Roy"]) == "1 al roy"
  {
    assert Join(["1", "Al", "Roy"], " ") == "1 Al Roy";
  }

  /** A text without the letters s, c, i, n and e mentions none of the
      header words. */
  lemma NoHeaderWord(t: string)
    requires 's' !in t && 'c' !in t && 'i' !in t && 'n' !in t && 'e' !in t
    ensures !Contains(t, "student") && !Contains(t, "code") && !Contains(t, "id")
    ensures !Contains(t, "name") && !Contains(t, "email") && !Contains(t, "contact")
  {
    LacksFirstLetter(t, "student");
    LacksFirstLetter(t, "code");
    LacksFirstLetter(t, "id");
    LacksFirstLetter(t, "name");
    LacksFirstLetter(t, "email");
    LacksFirstLetter(t, "contact");
  }

  /** The sample row `1, Al, Roy` mentions none of the header words. */
  lemma SampleRowNotHeader()
    ensures !LooksLikeHeader(["1", "Al", "Roy"])
  {
    SampleRowText();
    NoHeaderWord("1 al roy");
  }

  /** A cell with no white space at either end trims to itself. */
  lemma TrimPlain(c: string)
    requires |c| > 0 && !IsSpace(c[0]) && !IsSpace(c[|c| - 1])
    ensures TrimSpace(c) == c
  {
  }

  /** The columns used for a file whose only row is `1, Al, Roy`. */
  lemma SampleColumns()
    ensures ColumnsFor([["1", "Al", "Roy"]]) == Columns(Some(0), Some(1), Some(2), None, None, None)
  {
    SampleRowNotHeader();
  }

  /** With the three-column fallback map, the written extraction copies the
      first cell into the middle name, email and contact fields. */
  lemma ThreeColumnExtract(row: seq<string>, cols: Columns)
    requires |row| == 3 && cols == Columns(Some(0), Some(1), Some(2), None, None, None)
    ensures var c, f, l := TrimSpace(row[0]), TrimSpace(row[1]), TrimSpace(row[2]);
      && ExtractAsWritten(row, cols) == Fields(c, f, l, c, c, c)
      && Extract(row, cols) == Fields(c, f, l, "", "", "")
  {
  }

  lemma TrimOne() ensures TrimSpace("1") == "1" { TrimPlain("1"); }
  lemma TrimAl() ensures TrimSpace("Al") == "Al" { TrimPlain("Al"); }
  lemma TrimRoy() ensures TrimSpace("Roy") == "Roy" { TrimPlain("Roy"); }

  /** A headerless file of three-column rows, e.g. the row `1, Al, Roy`:
      as written, the student code is also stored as middle name, email and
      contact number; corrected, those are empty. */
  lemma HeaderlessRowCopiesCode()
    ensures var records := [["1", "Al", "Roy"]];
      && ExtractAsWritten(Pad3(records[0]), ColumnsFor(records)) == Fields("1", "Al", "Roy", "1", "1", "1")
      && Extract(Pad3(records[0]), ColumnsFor(records)) == Fields("1", "Al", "Roy", "", "", "")
  {
    SampleColumns();
    var row := ["1", "Al", "Roy"];
    assert Pad3(row) == row;
    ThreeColumnExtract(row, ColumnsFor([row]));
    TrimOne();
    TrimAl();
    TrimRoy();
  }

  /** The headerless row `1, Al, Roy` reaches account creation with the code
      as middle name, email and contact as written, and with those fields
      empty when corrected. */
  lemma HeaderlessRowPrepared(records: seq<seq<string>>)
    requires records == [["1", "Al", "Roy"]]
    ensures PrepareBulk(records[0], 1, ColumnsFor(records)) == Ok(Fields("1", "Al", "Roy", "1", "1", "1"))
    ensures PrepareBulkCorrected(records[0], 1, ColumnsFor(records)) == Ok(Fields("1", "Al", "Roy", "", "", ""))
  {
    HeaderlessRowCopiesCode();
  }

  /** A data row is taken for a header as soon as any cell contains "id",
      as a first name like "David" does; that row is then skipped. */
  lemma NameWithIdIsHeader()
    ensures LooksLikeHeader(["7", "David", "Cruz"])
  {
    var t := FirstRowText(["7", "David", "Cruz"]);
    assert t == "7 david cruz" by {
      assert Join(["7", "David", "Cruz"], " ") == "7 David Cruz";
    }
    assert OccursAt(t, "id", 5);
    ContainsIff(t, "id");
  }

  // ---------------------------------------------------------------- row accounting

  /** The outcome of one imported row. */
  datatype Outcome = Created(username: string) | Refused(message: string)

  function RowLabel(rowNum: nat): string {
    "Row " + NatText(rowNum)
  }

  /** A row of `processBulkRecords` before account creation, as written:
      padded, its fields extracted with a missing column reading as column 0,
      and refused when a required field is empty. */
  function PrepareBulk(record: seq<string>, rowNum: nat, cols: Columns): (r: Result<Fields, string>)
    ensures var f := ExtractAsWritten(Pad3(record), cols);
      && (r.Ok? <==> f.code != "" && f.first != "" && f.last != "")
      && (r.Ok? ==> r.value == f)
    ensures r.Err? ==> r.error == RowLabel(rowNum) + ": Missing required field"
  {
    var f := ExtractAsWritten(Pad3(record), cols);
    if f.code == "" || f.first == "" || f.last == "" then Err(RowLabel(rowNum) + ": Missing required field")
    else Ok(f)
  }

  /** The same preparation with the corrected extraction: an optional field
      the column map lacks is left empty. */
  function PrepareBulkCorrected(record: seq<string>, rowNum: nat, cols: Columns): (r: Result<Fields, string>)
    ensures var f := Extract(Pad3(record), cols);
      && (r.Ok? <==> f.code != "" && f.first != "" && f.last != "")
      && (r.Ok? ==> r.value == f)
    ensures r.Ok? ==>
      (cols.middleName.None? ==> r.value.middle == "")
      && (cols.email.None? ==> r.value.email == "")
      && (cols.contact.None? ==> r.value.contact == "")
    ensures r.Err? ==> r.error == RowLabel(rowNum) + ": Missing required field"
  {
    var f := Extract(Pad3(record), cols);
    if f.code == "" || f.first == "" || f.last == "" then Err(RowLabel(rowNum) + ": Missing required field")
    else Ok(f)
  }

  /** The two preparations agree whenever the column map has every optional
      column, which a header naming them all gives. */
  lemma PrepareBulkAgrees(record: seq<string>, rowNum: nat, cols: Columns)
    requires cols.middleName.Some? && cols.email.Some? && cols.contact.Some?
    ensures PrepareBulk(record, rowNum, cols) == PrepareBulkCorrected(record, rowNum, cols)
  {
    ExtractAgrees(Pad3(record), cols);
  }

  /** A row of `processBulkRecordsSimple` before account creation: at least
      three cells, positional trimmed fields, no email. */
  function PrepareSimple(record: seq<string>, rowNum: nat): (r: Result<Fields, string>)
    ensures |record| < 3 ==> r == Err(RowLabel(rowNum) + ": Insufficient columns")
    ensures r.Ok? <==>
      (|record| >= 3 && TrimSpace(record[0]) != "" && TrimSpace(record[1]) != "" && TrimSpace(record[2]) != "")
    ensures |record| >= 3 && r.Err? ==> r.error == RowLabel(rowNum) + ": Missing required field"
    ensures r.Ok? ==>
      && r.value.code == TrimSpace(record[0]) && r.value.first == TrimSpace(record[1])
      && r.value.last == TrimSpace(record[2]) && r.value.email == ""
      && r.value.middle == (if |record| >= 4 then TrimSpace(record[3]) else "")
      && r.value.contact == (if |record| >= 5 then TrimSpace(record[4]) else "")
  {
    if |record| < 3 then Err(RowLabel(rowNum) + ": Insufficient columns")
    else
      var f := Fields(TrimSpace(record[0]), TrimSpace(record[1]), TrimSpace(record[2]),
                      if |record| >= 4 then TrimSpace(record[3]) else "", "",
                      if |record| >= 5 then TrimSpace(record[4]) else "");
      if f.code == "" || f.first == "" || f.last == "" then Err(RowLabel(rowNum) + ": Missing required field")
      else Ok(f)
  }

  /** One row through `CreateUser` as a student whose username and password
      are the student code; `userFails` and `profileFails` are the row
      numbers whose inserts the store refuses. */
  function Step(rowNum: nat, pre: Result<Fields, string>, accounts: map<string, Option<Profile>>,
                userFails: set<int>, profileFails: set<int>): (r: (Outcome, map<string, Option<Profile>>))
    ensures pre.Err? ==> r == (Refused(pre.error), accounts)
  {
    match pre
    case Err(m) => (Refused(m), accounts)
    case Ok(f) =>
      var e := CreateUserEffect("student", "", f.code, f.first, f.middle, f.last, f.email, f.contact,
                                accounts, rowNum in userFails, rowNum in profileFails);
      if e.0.Ok? then (Created(f.code), e.1)
      else (Refused(RowLabel(rowNum) + " (" + f.code + "): " + e.0.error), e.1)
  }

  /** A row keeps every existing account, and a created row adds its
      student code as a new username. */
  lemma StepKeeps(rowNum: nat, pre: Result<Fields, string>, accounts: map<string, Option<Profile>>,
                  userFails: set<int>, profileFails: set<int>)
    ensures var r := Step(rowNum, pre, accounts, userFails, profileFails);
      && accounts.Keys <= r.1.Keys
      && (forall u :: u in accounts ==> r.1[u] == accounts[u])
      && (r.0.Created? ==>
        && pre.Ok? && r.0.username == pre.value.code && r.0.username !in accounts && r.0.username in r.1)
  {
  }

  lemma StepOfRow(rowNum: nat, f: Fields, accounts: map<string, Option<Profile>>,
                  userFails: set<int>, profileFails: set<int>)
    ensures var e := CreateUserEffect("student", "", f.code, f.first, f.middle, f.last, f.email, f.contact,
                                      accounts, rowNum in userFails, rowNum in profileFails);
      Step(rowNum, Ok(f), accounts, userFails, profileFails)
      == (if e.0.Ok? then Created(f.code) else Refused(RowLabel(rowNum) + " (" + f.code + "): " + e.0.error), e.1)
  {
  }

  /** The rows in order, the accounts threading through; `first` is the row
      number of `pres[0]`. */
  function Run(pres: seq<Result<Fields, string>>, first: nat, accounts: map<string, Option<Profile>>,
               userFails: set<int>, profileFails: set<int>): (r: (seq<Outcome>, map<string, Option<Profile>>))
    ensures |r.0| == |pres|
    decreases |pres|, 1
  {
    if |pres| == 0 then ([], accounts) else RunLast(pres, first, accounts, userFails, profileFails)
  }

  /** A non-empty run: the run over all rows but the last, then the last row. */
  function RunLast(pres: seq<Result<Fields, string>>, first: nat, accounts: map<string, Option<Profile>>,
                   userFails: set<int>, profileFails: set<int>): (r: (seq<Outcome>, map<string, Option<Profile>>))
    requires |pres| > 0
    ensures |r.0| == |pres|
    decreases |pres|, 0
  {
    var before := Run(pres[..|pres| - 1], first, accounts, userFails, profileFails);
    var s := Step(first + |pres| - 1, pres[|pres| - 1], before.1, userFails, profileFails);
    (before.0 + [s.0], s.1)
  }

  /** Created rows name distinct new accounts, and no existing account changes. */
  lemma {:induction false} RunCreatesDistinct(pres: seq<Result<Fields, string>>, first: nat,
                                               accounts: map<string, Option<Profile>>, userFails: set<int>, profileFails: set<int>)
    ensures var r := Run(pres, first, accounts, userFails, profileFails);
      && accounts.Keys <= r.1.Keys
      && (forall u :: u in accounts ==> r.1[u] == accounts[u])
      && (forall i :: 0 <= i < |r.0| && r.0[i].Created? ==> r.0[i].username !in accounts && r.0[i].username in r.1)
      && (forall i, j :: 0 <= i < j < |r.0| && r.0[i].Created? && r.0[j].Created? ==> r.0[i].username != r.0[j].username)
    decreases |pres|
  {
    if |pres| > 0 {
      var before := Run(pres[..|pres| - 1], first, accounts, userFails, profileFails);
      assert Run(pres, first, accounts, userFails, profileFails) == RunLast(pres, first, accounts, userFails, profileFails);
      RunCreatesDistinct(pres[..|pres| - 1], first, accounts, userFails, profileFails);
      StepKeeps(first + |pres| - 1, pres[|pres| - 1], before.1, userFails, profileFails);
    }
  }

  /** The number of created rows. */
  function CountCreated(o: seq<Outcome>): (n: nat)
    ensures n <= |o|
  {
    if |o| == 0 then 0 else CountCreated(o[..|o| - 1]) + (if o[|o| - 1].Created? then 1 else 0)
  }

  /** The error list: the messages of the refused rows, in order. */
  function Messages(o: seq<Outcome>): (r: seq<string>)
    ensures |r| <= |o|
  {
    if |o| == 0 then []
    else Messages(o[..|o| - 1]) + (if o[|o| - 1].Refused? then [o[|o| - 1].message] else [])
  }

  /** Every row is either counted as created or listed as an error. */
  lemma {:induction false} CountsCover(o: seq<Outcome>)
    ensures CountCreated(o) + |Messages(o)| == |o|
  {
    if |o| > 0 {
      CountsCover(o[..|o| - 1]);
    }
  }

  lemma RunSnoc(pres: seq<Result<Fields, string>>, i: int, first: nat, accounts: map<string, Option<Profile>>,
                 userFails: set<int>, profileFails: set<int>)
    requires 0 <= i < |pres|
    ensures var before := Run(pres[..i], first, accounts, userFails, profileFails);
      var s := Step(first + i, pres[i], before.1, userFails, profileFails);
      Run(pres[..i + 1], first, accounts, userFails, profileFails) == (before.0 + [s.0], s.1)
  {
    assert pres[..i + 1][..i] == pres[..i];
    assert Run(pres[..i + 1], first, accounts, userFails, profileFails)
      == RunLast(pres[..i + 1], first, accounts, userFails, profileFails);
  }

  /** One more row: the run over `i + 1` rows is the run over `i` rows
      followed by one step. */
  lemma RunStep(pres: seq<Result<Fields, string>>, i: int, first: nat, accounts: map<string, Option<Profile>>,
                userFails: set<int>, profileFails: set<int>, outs: seq<Outcome>, prev: map<string, Option<Profile>>,
                o: Outcome, after: map<string, Option<Profile>>)
    requires 0 <= i < |pres|
    requires (outs, prev) == Run(pres[..i], first, accounts, userFails, profileFails)
    requires (o, after) == Step(first + i, pres[i], prev, userFails, profileFails)
    ensures (outs + [o], after) == Run(pres[..i + 1], first, accounts, userFails, profileFails)
  {
    RunSnoc(pres, i, first, accounts, userFails, profileFails);
  }

  lemma TallySnoc(o: seq<Outcome>, x: Outcome)
    ensures CountCreated(o + [x]) == CountCreated(o) + (if x.Created? then 1 else 0)
    ensures Messages(o + [x]) == Messages(o) + (if x.Refused? then [x.message] else [])
  {
    assert (o + [x])[..|o|] == o;
  }

  /** The summary both importers return. */
  datatype BulkReport = BulkReport(success: nat, errorCount: nat, total: int, errors: seq<string>)

  /** The first row index the importer processes. */
  function BulkStart(records: seq<seq<string>>): (s: nat)
    ensures s <= |records|
  {
    if |records| > 0 && LooksLikeHeader(records[0]) then 1 else 0
  }

  function SimpleStart(records: seq<seq<string>>): (s: nat)
    ensures s <= |records|
  {
    if |records| > 0 && LooksLikeHeaderSimple(records[0]) then 1 else 0
  }

  /** The rows from `start` on, each prepared with its one-based row number. */
  function PreparedFrom(records: seq<seq<string>>, start: nat, cols: Columns): (r: seq<Result<Fields, string>>)
    requires start <= |records|
    ensures |r| == |records| - start
  {
    seq(|records| - start, i requires 0 <= i < |records| - start =>
      PrepareBulk(records[start + i], start + i + 1, cols))
  }

  function BulkPrepared(records: seq<seq<string>>): (r: seq<Result<Fields, string>>)
    ensures |r| == |records| - BulkStart(records)
  {
    PreparedFrom(records, BulkStart(records), ColumnsFor(records))
  }

  function SimplePreparedFrom(records: seq<seq<string>>, start: nat): (r: seq<Result<Fields, string>>)
    requires start <= |records|
    ensures |r| == |records| - start
  {
    seq(|records| - start, i requires 0 <= i < |records| - start => PrepareSimple(records[start + i], start + i + 1))
  }

  function SimplePrepared(records: seq<seq<string>>): (r: seq<Result<Fields, string>>)
    ensures |r| == |records| - SimpleStart(records)
  {
    SimplePreparedFrom(records, SimpleStart(records))
  }

  /** The header decision and column map of `processBulkRecords`: a detected
      header row is skipped and supplies the map; otherwise, or when no
      column was recognised, the positional fallback applies. */
  method ChooseColumns(records: seq<seq<string>>) returns (start: nat, cols: Columns)
    ensures start == BulkStart(records) && start <= |records|
    ensures cols == ColumnsFor(records)
  {
    start := 0;
    cols := NoColumns;
    if |records| > 0 && LooksLikeHeader(records[0]) {
      start := 1;
      cols := DetectColumns(records[0]);
    }
    if cols.IsEmpty() {
      cols := Columns(Some(0), Some(1), Some(2), None, None, None);
      if |records| > 0 && |records[0]| > 3 {
        cols := cols.(middleName := Some(3));
      }
      if |records| > 0 && |records[0]| > 4 {
        cols := cols.(contact := Some(4));
      }
    }
  }

  class UserStore {
    /** Accounts by username, with their profile row when there is one. */
    var accounts: map<string, Option<Profile>>

    constructor(accounts: map<string, Option<Profile>>)
      ensures this.accounts == accounts
    {
      this.accounts := accounts;
    }

    /** `CreateUser`. */
    method CreateUser(role: string, employeeID: string, studentID: string, firstName: string, middleName: string,
                      lastName: string, email: string, contact: string, userInsertFails: bool, profileInsertFails: bool)
      returns (r: Result<(), string>)
      modifies this
      ensures (r, accounts) == CreateUserEffect(role, employeeID, studentID, firstName, middleName, lastName, email, contact,
                                                old(accounts), userInsertFails, profileInsertFails)
    {
      var check := CreateUserCheck(role, employeeID, studentID, firstName, lastName, accounts.Keys);
      if check.Err? {
        return Err(check.error);
      }
      if userInsertFails {
        return Err("failed to create user account");
      }
      var username := check.value;
      if !ProfileRole(role) {
        accounts := accounts[username := None];
        return Ok(());
      }
      if profileInsertFails {
        accounts := accounts[username := None];
        return Err("failed to create " + role + " profile");
      }
      var contactColumn := if role == "admin" then None else NullString(contact);
      accounts := accounts[username := Some(Profile(role, firstName, NullString(middleName), lastName,
                                                    NullString(email), contactColumn))];
      r := Ok(());
    }

    /** One prepared row: a refused row is reported as it is, a complete one
        goes through `CreateUser` and a failure is prefixed with the row
        number and student code. */
    method ImportRow(rowNum: nat, pre: Result<Fields, string>, userFails: set<int>, profileFails: set<int>)
      returns (o: Outcome)
      modifies this
      ensures (o, accounts) == Step(rowNum, pre, old(accounts), userFails, profileFails)
    {
      if pre.Err? {
        return Refused(pre.error);
      }
      var f := pre.value;
      StepOfRow(rowNum, f, accounts, userFails, profileFails);
      var r := CreateUser("student", "", f.code, f.first, f.middle, f.last, f.email, f.contact,
                          rowNum in userFails, rowNum in profileFails);
      if r.Err? {
        o := Refused(RowLabel(rowNum) + " (" + f.code + "): " + r.error);
      } else {
        o := Created(f.code);
      }
    }

    /** The next row of a run: the run over one more row. */
    method ImportNext(pres: seq<Result<Fields, string>>, i: nat, first: nat, userFails: set<int>, profileFails: set<int>,
                      ghost start: map<string, Option<Profile>>, ghost outs: seq<Outcome>) returns (o: Outcome)
      requires i < |pres|
      requires (outs, accounts) == Run(pres[..i], first, start, userFails, profileFails)
      modifies this
      ensures (outs + [o], accounts) == Run(pres[..i + 1], first, start, userFails, profileFails)
    {
      ghost var prev := accounts;
      o := ImportRow(first + i, pres[i], userFails, profileFails);
      RunStep(pres, i, first, start, userFails, profileFails, outs, prev, o, accounts);
    }

    /** One pass over the prepared rows, counting and collecting errors. */
    method ImportRows(pres: seq<Result<Fields, string>>, first: nat, userFails: set<int>, profileFails: set<int>)
      returns (success: nat, errorCount: nat, errors: seq<string>)
      modifies this
      ensures var run := Run(pres, first, old(accounts), userFails, profileFails);
        success == CountCreated(run.0) && errors == Messages(run.0) && accounts == run.1
      ensures errorCount == |errors| && success + errorCount == |pres|
    {
      success, errorCount, errors := 0, 0, [];
      ghost var start := accounts;
      ghost var outs: seq<Outcome> := [];
      var i := 0;
      while i < |pres|
        invariant 0 <= i <= |pres|
        invariant (outs, accounts) == Run(pres[..i], first, start, userFails, profileFails)
        invariant success == CountCreated(outs) && errors == Messages(outs)
        invariant errorCount == |errors|
      {
        var o := ImportNext(pres, i, first, userFails, profileFails, start, outs);
        TallySnoc(outs, o);
        if o.Created? {
          success := success + 1;
        } else {
          errorCount := errorCount + 1;
          errors := errors + [o.message];
        }
        outs := outs + [o];
        i := i + 1;
      }
      assert pres[..i] == pres;
      CountsCover(Run(pres, first, old(accounts), userFails, profileFails).0);
    }

    /** `processBulkRecords`: header detection, column mapping, padding and
        the per-row accounting. */
    method ProcessBulkRecords(records: seq<seq<string>>, userFails: set<int>, profileFails: set<int>)
      returns (report: BulkReport)
      modifies this
      ensures report.total == |records| - BulkStart(records)
      ensures report.success + report.errorCount == report.total
      ensures var run := Run(BulkPrepared(records), BulkStart(records) + 1, old(accounts), userFails, profileFails);
        report.success == CountCreated(run.0) && report.errors == Messages(run.0) && accounts == run.1
    {
      var start, cols := ChooseColumns(records);
      var pres := PreparedFrom(records, start, cols);
      assert pres == BulkPrepared(records);
      var success, errorCount, errors := ImportRows(pres, start + 1, userFails, profileFails);
      report := BulkReport(success, errorCount, |records| - start, errors);
    }

    /** `processBulkRecordsSimple`. */
    method ProcessBulkRecordsSimple(records: seq<seq<string>>, userFails: set<int>, profileFails: set<int>)
      returns (report: BulkReport)
      modifies this
      ensures report.total == |records| - SimpleStart(records)
      ensures report.success + report.errorCount == report.total
      ensures var run := Run(SimplePrepared(records), SimpleStart(records) + 1, old(accounts), userFails, profileFails);
        report.success == CountCreated(run.0) && report.errors == Messages(run.0) && accounts == run.1
    {
      var start := if |records| > 0 && LooksLikeHeaderSimple(records[0]) then 1 else 0;
      assert start == SimpleStart(records);
      var pres := SimplePreparedFrom(records, start);
      assert pres == SimplePrepared(records);
      var success, errorCount, errors := ImportRows(pres, start + 1, userFails, profileFails);
      report := BulkReport(success, errorCount, |records| - start, errors);
    }
  }
}
