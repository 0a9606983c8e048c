/** Student self-registration (registration.go): the field checks of
    `validateRegistration` in their fixed order, the duplicate checks and
    the all-or-nothing insert of `SubmitRegistration`, and the
    pending-to-active or pending-to-rejected decision of `ProcessRegistration`. */
module Registration {
  import opened Wrappers
  import opened Text
  import opened Clock
  import opened App

  /** A submitted form. */
  datatype Request = Request(
    studentId: string,
    lastName: string,
    firstName: string,
    middleName: string,
    contact: string,
    email: string,
    password: string,
    confirm: string)

  // ---------------------------------------------------------------- e-mail pattern

  predicate AsciiLetter(c: char) {
    'a' <= c <= 'z' || 'A' <= c <= 'Z'
  }

  predicate LocalChar(c: char) {
    AsciiLetter(c) || IsDigit(c) || c == '.' || c == '_' || c == '%' || c == '+' || c == '-'
  }

  predicate DomainChar(c: char) {
    AsciiLetter(c) || IsDigit(c) || c == '.' || c == '-'
  }

  /** `e` reads as local part `e[..at]`, "@", domain `e[at + 1..dot]`, ".",
      and a top-level part `e[dot + 1..]` of at least two letters. */
  predicate EmailSplit(e: string, at: int, dot: int) {
    && 0 < at && at + 1 < dot && dot + 2 < |e|
    && e[at] == '@' && e[dot] == '.'
    && (forall i :: 0 <= i < at ==> LocalChar(e[i]))
    && (forall i :: at < i < dot ==> DomainChar(e[i]))
    && (forall i :: dot < i < |e| ==> AsciiLetter(e[i]))
  }

  /** The language of `^[a-zA-Z0-9._%+\-]+@[a-zA-Z0-9.\-]+\.[a-zA-Z]{2,}$`:
      some way of splitting the text fits the pattern. */
  ghost predicate EmailPattern(e: string) {
    exists at, dot :: EmailSplit(e, at, dot)
  }

  /** The e-mail test, deciding the pattern at the only possible split: the
      single "@" and the last ".". */
  predicate EmailOk(e: string) {
    EmailSplit(e, IndexOf(e, '@'), LastIndexOf(e, '.'))
  }

  lemma EmailOkIff(e: string)
    ensures EmailOk(e) <==> EmailPattern(e)
  {
    if EmailPattern(e) {
      var at, dot :| EmailSplit(e, at, dot);
      IndexOfFirst(e, '@', at);
      LastIndexOfLast(e, '.', dot);
      assert IndexOf(e, '@') == at;
      assert LastIndexOf(e, '.') == dot;
    }
  }

  // ---------------------------------------------------------------- contact number

  /** `strings.ReplaceAll(s, string(c), "")`. */
  function Remove(s: string, c: char): (r: string)
    ensures forall x :: x in r <==> x in s && x != c
    ensures |r| <= |s|
  {
    if |s| == 0 then ""
    else if s[0] == c then Remove(s[1..], c)
    else
      assert forall x :: x in s <==> x == s[0] || x in s[1..];
      [s[0]] + Remove(s[1..], c)
  }

  /** The contact number with dashes and spaces deleted. */
  function CleanPhone(s: string): (r: string)
    ensures forall x :: x in r <==> x in s && x != '-' && x != ' '
  {
    Remove(Remove(s, '-'), ' ')
  }

  predicate AllDigits(s: string) {
    forall i :: 0 <= i < |s| ==> IsDigit(s[i])
  }

  /** `^(09\d{9}|\d{7,15})$`: a Philippine mobile number or 7 to 15 digits. */
  predicate PhoneOk(p: string) {
    AllDigits(p) && ((|p| == 11 && p[0] == '0' && p[1] == '9') || 7 <= |p| <= 15)
  }

  /** The mobile alternative adds nothing: eleven digits are within 7 to 15. */
  lemma PhoneOkIff(p: string)
    ensures PhoneOk(p) <==> AllDigits(p) && 7 <= |p| <= 15
  {
  }

  /** A contact number is accepted when it holds only digits, dashes and
      spaces, with 7 to 15 digits in all. */
  lemma ContactAccepted(s: string)
    ensures PhoneOk(CleanPhone(s)) <==>
      (forall x :: x in s ==> IsDigit(x) || x == '-' || x == ' ') && 7 <= |CleanPhone(s)| <= 15
  {
    var p := CleanPhone(s);
    assert AllDigits(p) <==> forall x :: x in p ==> IsDigit(x) by {
      if AllDigits(p) {
        forall x | x in p
          ensures IsDigit(x)
        {
          var i :| 0 <= i < |p| && p[i] == x;
        }
      }
    }
  }

  // ---------------------------------------------------------------- validation

  /** What the identity checks demand, independently of their order. The
      blank tests of e-mail and contact number are implied by their
      patterns; that of the student id is not, since its length counts
      white space. */
  ghost predicate IdentityAcceptable(studentId: string, firstName: string, lastName: string, email: string, contact: string) {
    && !Blank(studentId) && 4 <= ByteLen(studentId) <= 50
    && !Blank(firstName) && !Blank(lastName)
    && EmailPattern(email)
    && (forall x :: x in contact ==> IsDigit(x) || x == '-' || x == ' ')
    && 7 <= |CleanPhone(contact)| <= 15
  }

  /** What the password checks demand. */
  predicate PasswordAcceptable(password: string, confirm: string) {
    !Blank(password) && ByteLen(password) >= 8 && password == confirm
  }

  /** Everything a registration form must satisfy. */
  ghost predicate Acceptable(req: Request) {
    && IdentityAcceptable(req.studentId, req.firstName, req.lastName, req.email, req.contact)
    && PasswordAcceptable(req.password, req.confirm)
  }

  /** A text with a character outside white space is not blank. */
  lemma NotBlankAt(s: string, i: int)
    requires 0 <= i < |s| && !IsSpace(s[i])
    ensures !Blank(s)
  {
    BlankIffAllSpace(s);
  }

  /** An e-mail or contact number that fits its pattern is not blank. */
  lemma PatternsNotBlank(email: string, contact: string)
    ensures EmailOk(email) ==> !Blank(email)
    ensures PhoneOk(CleanPhone(contact)) ==> !Blank(contact)
  {
    if EmailOk(email) {
      NotBlankAt(email, 0);
    }
    if PhoneOk(CleanPhone(contact)) {
      var p := CleanPhone(contact);
      assert p[0] in p;
      var i :| 0 <= i < |contact| && contact[i] == p[0];
      NotBlankAt(contact, i);
    }
  }

  /** The checks of e-mail and contact number, in that order. */
  function ContactError(email: string, contact: string): (r: Option<string>)
    ensures r.None? <==> EmailPattern(email) && (forall x :: x in contact ==> IsDigit(x) || x == '-' || x == ' ')
                         && 7 <= |CleanPhone(contact)| <= 15
    ensures r.Some? ==> r.value in {"email is required", "invalid email format",
                                    "contact number is required", "invalid contact number format"}
  {
    EmailOkIff(email);
    ContactAccepted(contact);
    PatternsNotBlank(email, contact);
    if Blank(email) then Some("email is required")
    else if !EmailOk(email) then Some("invalid email format")
    else if Blank(contact) then Some("contact number is required")
    else if !PhoneOk(CleanPhone(contact)) then Some("invalid contact number format")
    else None
  }

  /** The checks of the student id: present, and 4 to 50 bytes long. */
  function StudentIdError(studentId: string): (r: Option<string>)
    ensures r.None? <==> !Blank(studentId) && 4 <= ByteLen(studentId) <= 50
    ensures r.Some? ==> r.value in {"student ID is required", "student ID must be between 4 and 50 characters"}
  {
    if Blank(studentId) then Some("student ID is required")
    else if ByteLen(studentId) < 4 || ByteLen(studentId) > 50 then
      Some("student ID must be between 4 and 50 characters")
    else None
  }

  /** The checks of first and last name, in that order. */
  function NameError(firstName: string, lastName: string): (r: Option<string>)
    ensures r.None? <==> !Blank(firstName) && !Blank(lastName)
    ensures r.Some? ==> r.value in {"first name is required", "last name is required"}
  {
    if Blank(firstName) then Some("first name is required")
    else if Blank(lastName) then Some("last name is required")
    else None
  }

  /** The checks of student id, first name, last name, e-mail and contact
      number, in that order: the first failing one, if any. */
  function IdentityError(studentId: string, firstName: string, lastName: string, email: string, contact: string)
    : (r: Option<string>)
    ensures r.None? <==> IdentityAcceptable(studentId, firstName, lastName, email, contact)
    ensures r.Some? ==> r.value in {
      "student ID is required", "student ID must be between 4 and 50 characters",
      "first name is required", "last name is required", "email is required", "invalid email format",
      "contact number is required", "invalid contact number format"}
  {
    var id := StudentIdError(studentId);
    var name := NameError(firstName, lastName);
    if id.Some? then id
    else if name.Some? then name
    else ContactError(email, contact)
  }

  /** The checks of the password and its confirmation, in that order. */
  function PasswordError(password: string, confirm: string): (r: Option<string>)
    ensures r.None? <==> PasswordAcceptable(password, confirm)
    ensures r.Some? ==> r.value in {
      "password is required", "password must be at least 8 characters long", "passwords do not match"}
    ensures r == Some("passwords do not match") <==>
      !Blank(password) && ByteLen(password) >= 8 && password != confirm
  {
    if Blank(password) then Some("password is required")
    else if ByteLen(password) < 8 then Some("password must be at least 8 characters long")
    else if password != confirm then Some("passwords do not match")
    else None
  }

  /** `validateRegistration`: the first failing check, in the order student
      id, first name, last name, e-mail, contact number, password. */
  function Validate(req: Request): (r: Result<(), string>)
    ensures r.Ok? <==> Acceptable(req)
    ensures IdentityError(req.studentId, req.firstName, req.lastName, req.email, req.contact).Some? ==>
      r == Err(IdentityError(req.studentId, req.firstName, req.lastName, req.email, req.contact).value)
    ensures IdentityAcceptable(req.studentId, req.firstName, req.lastName, req.email, req.contact) ==>
      r == (if PasswordAcceptable(req.password, req.confirm) then Ok(()) else Err(PasswordError(req.password, req.confirm).value))
  {
    var identity := IdentityError(req.studentId, req.firstName, req.lastName, req.email, req.contact);
    if identity.Some? then Err(identity.value)
    else
      var password := PasswordError(req.password, req.confirm);
      if password.Some? then Err(password.value) else Ok(())
  }

  /** Every refusal carries one of the eleven messages of the form checks. */
  lemma ValidateMessages(req: Request)
    ensures Validate(req).Err? ==> Validate(req).error in {
      "student ID is required", "student ID must be between 4 and 50 characters",
      "first name is required", "last name is required", "email is required", "invalid email format",
      "contact number is required", "invalid contact number format", "password is required",
      "password must be at least 8 characters long", "passwords do not match"}
  {
  }

  /** A blank password fails as missing, whatever its length. */
  lemma BlankPasswordIsMissing(req: Request, p: string)
    requires Validate(req).Ok? && Blank(p)
    ensures Validate(req.(password := p, confirm := p)) == Err("password is required")
  {
  }

  /** Eight spaces are blank. */
  lemma EightSpacesBlank()
    ensures Blank("        ")
  {
    BlankIffAllSpace("        ");
  }

  /** Eight spaces are eight bytes long. */
  lemma EightSpacesLength()
    ensures ByteLen("        ") == 8
  {
  }

  /** Eight spaces pass the length test, so a password of spaces fails as
      missing, not as too short. */
  lemma SpacesPasswordIsMissing(req: Request)
    requires Validate(req).Ok?
    ensures var p := "        ";
      && ByteLen(p) == 8
      && Validate(req.(password := p, confirm := p)) == Err("password is required")
  {
    EightSpacesBlank();
    EightSpacesLength();
    BlankPasswordIsMissing(req, "        ");
  }

  /** A short password that is not blank fails on its length. */
  lemma ShortPasswordIsTooShort(req: Request, p: string)
    requires Validate(req).Ok? && !Blank(p) && ByteLen(p) < 8
    ensures Validate(req.(password := p, confirm := p)) == Err("password must be at least 8 characters long")
  {
  }

  /** A mismatched confirmation is reported only once every other check passes. */
  lemma MismatchReportedLast(req: Request, c: string)
    requires Validate(req).Ok? && c != req.password
    ensures Validate(req.(confirm := c)) == Err("passwords do not match")
  {
  }

  // ---------------------------------------------------------------- the store

  datatype AccountStatus = Pending | Active | Rejected

  /** A `users` row as registration writes and updates it. */
  datatype UserRow = UserRow(username: string, password: string, userType: string, status: AccountStatus, isActive: bool)

  /** A `students` profile row. */
  datatype StudentRow = StudentRow(studentNumber: string, firstName: string, middleName: Option<string>,
                                   lastName: string, email: string, contact: string, working: bool)

  /** A `registration_approvals` row. */
  datatype Approval = Approval(userId: int, status: string, approvedBy: Option<int>, reason: Option<string>,
                               processedAt: Option<Instant>)

  predicate UsernameTaken(users: map<int, UserRow>, name: string) {
    exists id :: id in users && users[id].username == name
  }

  predicate EmailTaken(students: map<int, StudentRow>, email: string) {
    exists id :: id in students && students[id].email == email
  }

  /** The `users` update of a decision: a pending account becomes active and
      enabled, or rejected and disabled; any other account is left alone. */
  function Decide(users: map<int, UserRow>, id: int, approve: bool): (r: map<int, UserRow>)
    ensures r.Keys == users.Keys
    ensures forall j :: j in users && j != id ==> r[j] == users[j]
    ensures id in users && users[id].status == Pending ==>
      r[id] == users[id].(status := if approve then Active else Rejected, isActive := approve)
    ensures id in users && users[id].status != Pending ==> r[id] == users[id]
  {
    if id in users && users[id].status == Pending then
      users[id := users[id].(status := if approve then Active else Rejected, isActive := approve)]
    else users
  }

  /** A decision is final: a second one for the same account changes nothing. */
  lemma DecideFinal(users: map<int, UserRow>, id: int, first: bool, second: bool)
    ensures Decide(Decide(users, id, first), id, second) == Decide(users, id, first)
  {
  }

  /** The `registration_approvals` update: every pending row of the user
      takes the new status, the approver, the reason and the time. */
  function Settle(rows: seq<Approval>, userId: int, status: string, approver: int, reason: Option<string>, at: Instant)
    : (r: seq<Approval>)
    ensures |r| == |rows|
    ensures forall i :: 0 <= i < |rows| && !(rows[i].userId == userId && rows[i].status == "pending") ==>
      r[i] == rows[i]
    ensures forall i :: 0 <= i < |rows| && rows[i].userId == userId && rows[i].status == "pending" ==>
      r[i] == Approval(userId, status, Some(approver), reason, Some(at))
  {
    seq(|rows|, i requires 0 <= i < |rows| =>
      if rows[i].userId == userId && rows[i].status == "pending" then Approval(userId, status, Some(approver), reason, Some(at))
      else rows[i])
  }

  /** Settling leaves the user no pending row, so settling again changes nothing. */
  lemma SettleFinal(rows: seq<Approval>, userId: int, status: string, approver: int, reason: Option<string>, at: Instant,
                    status2: string, approver2: int, reason2: Option<string>, at2: Instant)
    requires status != "pending"
    ensures var once := Settle(rows, userId, status, approver, reason, at);
      Settle(once, userId, status2, approver2, reason2, at2) == once
  {
  }

  class RegistrationBook {
    var users: map<int, UserRow>
    var students: map<int, StudentRow>
    var approvals: seq<Approval>
    var nextId: int

    /** Ids handed out so far lie below `nextId`. */
    ghost predicate Valid()
      reads this
    {
      (forall id :: id in users ==> id < nextId) && (forall id :: id in students ==> id < nextId)
    }

    constructor(users: map<int, UserRow>, students: map<int, StudentRow>, approvals: seq<Approval>, nextId: int)
      requires forall id :: id in users ==> id < nextId
      requires forall id :: id in students ==> id < nextId
      ensures Valid()
      ensures this.users == users && this.students == students && this.approvals == approvals && this.nextId == nextId
    {
      this.users := users;
      this.students := students;
      this.approvals := approvals;
      this.nextId := nextId;
    }

    /** `SubmitRegistration`: a failed check, a taken student id or a taken
        e-mail writes nothing; otherwise a pending, disabled student account
        holding the password hash, its profile and a pending approval are
        inserted together. A failure inside the transaction (`txError`)
        rolls all three back. */
    method SubmitRegistration(req: Request, hash: string, txError: Option<string>) returns (r: Result<int, string>)
      requires Valid()
      modifies this
      ensures Valid()
      ensures Validate(req).Err? ==> r == Err(Validate(req).error)
      ensures Validate(req).Ok? && UsernameTaken(old(users), req.studentId) ==>
        r == Err("student ID already registered")
      ensures Validate(req).Ok? && !UsernameTaken(old(users), req.studentId) && EmailTaken(old(students), req.email) ==>
        r == Err("email already registered")
      ensures r.Ok? <==>
        Validate(req).Ok? && !UsernameTaken(old(users), req.studentId) && !EmailTaken(old(students), req.email)
        && txError.None?
      ensures r.Err? ==>
        users == old(users) && students == old(students) && approvals == old(approvals) && nextId == old(nextId)
      ensures r.Ok? ==>
        && r.value == old(nextId) && r.value !in old(users) && nextId == old(nextId) + 1
        && users == old(users)[r.value := UserRow(req.studentId, hash, "student", Pending, false)]
        && students == old(students)[r.value := StudentRow(req.studentId, req.firstName, NullString(req.middleName),
                                                           req.lastName, req.email, req.contact, false)]
        && approvals == old(approvals) + [Approval(r.value, "pending", None, None, None)]
    {
      var check := Validate(req);
      if check.Err? {
        return Err(check.error);
      }
      if UsernameTaken(users, req.studentId) {
        return Err("student ID already registered");
      }
      if EmailTaken(students, req.email) {
        return Err("email already registered");
      }
      if txError.Some? {
        return Err(txError.value);
      }
      var id := Insert(req, hash);
      r := Ok(id);
    }

    /** The three inserts of an accepted registration, under the next id. */
    method Insert(req: Request, hash: string) returns (id: int)
      requires Valid()
      modifies this
      ensures Valid()
      ensures id == old(nextId) && id !in old(users) && nextId == old(nextId) + 1
      ensures users == old(users)[id := UserRow(req.studentId, hash, "student", Pending, false)]
      ensures students == old(students)[id := StudentRow(req.studentId, req.firstName, NullString(req.middleName),
                                                         req.lastName, req.email, req.contact, false)]
      ensures approvals == old(approvals) + [Approval(id, "pending", None, None, None)]
    {
      id := nextId;
      users := users[id := UserRow(req.studentId, hash, "student", Pending, false)];
      students := students[id := StudentRow(req.studentId, req.firstName, NullString(req.middleName),
                                           req.lastName, req.email, req.contact, false)];
      approvals := approvals + [Approval(id, "pending", None, None, None)];
      nextId := nextId + 1;
    }

    /** `ProcessRegistration`: an action other than "approve" or "reject", or
        a rejection without a reason, is refused before any write; otherwise
        the account is decided if it is still pending and its pending
        approval rows are settled. Deciding an account that is not pending
        is not an error and changes no account. */
    method ProcessRegistration(userId: int, approvedBy: int, action: string, reason: string, now: Instant)
      returns (r: Result<(), string>)
      modifies this
      ensures action != "approve" && action != "reject" ==>
        r == Err("invalid action: must be 'approve' or 'reject'")
      ensures action == "reject" && Blank(reason) ==> r == Err("rejection reason is required")
      ensures r.Ok? <==> action == "approve" || (action == "reject" && !Blank(reason))
      ensures r.Err? ==> users == old(users) && approvals == old(approvals)
      ensures r.Ok? ==>
        && users == Decide(old(users), userId, action == "approve")
        && approvals == Settle(old(approvals), userId, if action == "approve" then "approved" else "rejected", approvedBy,
                               if action == "reject" then Some(reason) else None, now)
      ensures students == old(students) && nextId == old(nextId)
      ensures old(Valid()) ==> Valid()
    {
      if action != "approve" && action != "reject" {
        return Err("invalid action: must be 'approve' or 'reject'");
      }
      if action == "reject" && Blank(reason) {
        return Err("rejection reason is required");
      }
      users := Decide(users, userId, action == "approve");
      var rejection := if action == "reject" then Some(reason) else None;
      var status := if action == "approve" then "approved" else "rejected";
      approvals := Settle(approvals, userId, status, approvedBy, rejection, now);
      r := Ok(());
    }
  }
}
