/** Authentication (auth.go): the signature sniffing of profile photos, the
    credential check of `Login` and the login-log row it appends, `Logout`,
    which closes the user's latest open session, and `ChangePassword`. */
module Auth {
  import opened Wrappers
  import opened Clock
  import opened LoginLogs

  // ---------------------------------------------------------------- image signatures

  predicate JpegMagic(data: seq<bv8>) {
    |data| >= 3 && data[0] == 0xFF && data[1] == 0xD8 && data[2] == 0xFF
  }

  predicate PngMagic(data: seq<bv8>) {
    |data| >= 4 && data[0] == 0x89 && data[1] == 0x50 && data[2] == 0x4E && data[3] == 0x47
  }

  predicate GifMagic(data: seq<bv8>) {
    |data| >= 3 && data[0] == 0x47 && data[1] == 0x49 && data[2] == 0x46
  }

  /** "RIFF" in bytes 0-3 and "WEBP" in bytes 8-11. */
  predicate WebpMagic(data: seq<bv8>) {
    && |data| >= 12 && data[0] == 0x52 && data[1] == 0x49 && data[2] == 0x46 && data[3] == 0x46
    && data[8] == 0x57 && data[9] == 0x45 && data[10] == 0x42 && data[11] == 0x50
  }

  /** `detectImageMimeType`: inputs shorter than four bytes are opaque; then
      JPEG, PNG, GIF and WebP signatures are tried in that order, and any
      other input is taken for a JPEG. The signatures begin with different
      bytes, so the order of the tests does not decide the answer. */
  function DetectImageMimeType(data: seq<bv8>): (r: string)
    ensures r in {"application/octet-stream", "image/jpeg", "image/png", "image/gif", "image/webp"}
    ensures r == "application/octet-stream" <==> |data| < 4
    ensures r == "image/png" <==> |data| >= 4 && PngMagic(data)
    ensures r == "image/gif" <==> |data| >= 4 && GifMagic(data)
    ensures r == "image/webp" <==> WebpMagic(data)
    ensures r == "image/jpeg" <==> |data| >= 4 && !PngMagic(data) && !GifMagic(data) && !WebpMagic(data)
    ensures |data| >= 4 && JpegMagic(data) ==> r == "image/jpeg"
  {
    if |data| < 4 then "application/octet-stream"
    else if data[0] == 0xFF && data[1] == 0xD8 && data[2] == 0xFF then "image/jpeg"
    else if data[0] == 0x89 && data[1] == 0x50 && data[2] == 0x4E && data[3] == 0x47 then "image/png"
    else if data[0] == 0x47 && data[1] == 0x49 && data[2] == 0x46 then "image/gif"
    else if |data| >= 12 && data[0] == 0x52 && data[1] == 0x49 && data[2] == 0x46 && data[3] == 0x46
            && data[8] == 0x57 && data[9] == 0x45 && data[10] == 0x42 && data[11] == 0x50 then "image/webp"
    else "image/jpeg"
  }

  /** A three-byte JPEG start is too short to be recognised. */
  lemma ShortJpegIsOpaque()
    ensures DetectImageMimeType([0xFF, 0xD8, 0xFF]) == "application/octet-stream"
  {
  }

  /** The eight-byte PNG file signature is recognised. */
  lemma PngSignatureSniffed()
    ensures DetectImageMimeType([0x89, 0x50, 0x4E, 0x47, 0x0D, 0x0A, 0x1A, 0x0A]) == "image/png"
  {
  }

  // ---------------------------------------------------------------- accounts and sessions

  /** A `users` row as `Login` reads it, keyed by username. */
  datatype Account = Account(id: int, password: string, role: string)

  /** The stored password of a known user equals the one given. */
  predicate Authenticates(users: map<string, Account>, username: string, password: string) {
    username in users && users[username].password == password
  }

  /** The roles for which a login starts the automatic attendance mark. */
  predicate RecordsAttendance(role: string) {
    role == "student" || role == "working_student"
  }

  /** What a successful `Login` hands back: the user, the PC name it logged,
      the id of the log row (0 when the row could not be written) and
      whether the attendance mark was started. */
  datatype Session = Session(userId: int, role: string, pc: string, loginLogId: int, autoAttendance: bool)

  /** The row `createLoginLog` appends. */
  function LoginRow(id: int, userId: int, pc: string, now: Instant): LogRow {
    LogRow(id, userId, Some(pc), now, None, Success, Some(false), None, None)
  }

  /** A session just appended for a user, later than every other open
      session of theirs, is the one and only session `Logout` may close. */
  lemma {:induction false} FreshLoginIsLatest(rows: seq<LogRow>, id: int, userId: int, pc: string, now: Instant)
    requires forall j :: 0 <= j < |rows| && rows[j].userId == userId && rows[j].logoutAt.None? ==>
      !NotAfter(now, rows[j].loginAt)
    ensures LatestOpen(rows + [LoginRow(id, userId, pc, now)], userId, |rows|)
    ensures forall k :: LatestOpen(rows + [LoginRow(id, userId, pc, now)], userId, k) ==> k == |rows|
  {
    var all := rows + [LoginRow(id, userId, pc, now)];
    forall j | 0 <= j < |all| && all[j].userId == userId && all[j].logoutAt.None?
      ensures NotAfter(all[j].loginAt, now)
    {
      if j < |rows| {
        NotAfterTotal(now, rows[j].loginAt);
      }
    }
  }

  class AccountBook {
    var users: map<string, Account>

    constructor(users: map<string, Account>)
      ensures this.users == users
    {
      this.users := users;
    }

    /** `Login`: an unknown username or a different stored password is
        "invalid credentials" and writes nothing. Otherwise one successful
        login row is appended under the host name ("Unknown" when it cannot
        be read); a failed append does not fail the login. */
    method Login(username: string, password: string, hostname: Option<string>, logFails: bool, now: Instant,
                 logs: LoginLogBook) returns (r: Result<Session, string>)
      modifies logs
      ensures r.Ok? <==> Authenticates(users, username, password)
      ensures r.Err? ==> r.error == "invalid credentials" && logs.rows == old(logs.rows) && logs.nextId == old(logs.nextId)
      ensures r.Ok? ==>
        && r.value.userId == users[username].id && r.value.role == users[username].role
        && r.value.pc == hostname.GetOr("Unknown")
        && (r.value.autoAttendance <==> RecordsAttendance(users[username].role))
      ensures r.Ok? && !logFails ==>
        && r.value.loginLogId == old(logs.nextId) && logs.nextId == old(logs.nextId) + 1
        && logs.rows == old(logs.rows) + [LoginRow(r.value.loginLogId, r.value.userId, r.value.pc, now)]
      ensures r.Ok? && logFails ==>
        r.value.loginLogId == 0 && logs.rows == old(logs.rows) && logs.nextId == old(logs.nextId)
    {
      if username !in users || users[username].password != password {
        return Err("invalid credentials");
      }
      var account := users[username];
      var pc := hostname.GetOr("Unknown");
      var logId := 0;
      if !logFails {
        logId := logs.AppendSuccess(account.id, pc, now);
      }
      r := Ok(Session(account.id, account.role, pc, logId, RecordsAttendance(account.role)));
    }

    /** `ChangePassword`: an unknown user or a wrong current password is an
        error and changes nothing; a failing update is reported with its
        prefix; otherwise only that user's password is replaced. */
    method ChangePassword(username: string, oldPassword: string, newPassword: string, updateFails: bool)
      returns (r: Result<(), string>)
      modifies this
      ensures username !in old(users) ==> r == Err("user not found")
      ensures username in old(users) && old(users)[username].password != oldPassword ==>
        r == Err("current password is incorrect")
      ensures r.Ok? <==> Authenticates(old(users), username, oldPassword) && !updateFails
      ensures Authenticates(old(users), username, oldPassword) && updateFails ==>
        r == Err("failed to update password")
      ensures r.Err? ==> users == old(users)
      ensures r.Ok? ==> users == old(users)[username := old(users)[username].(password := newPassword)]
    {
      if username !in users {
        return Err("user not found");
      }
      if users[username].password != oldPassword {
        return Err("current password is incorrect");
      }
      if updateFails {
        return Err("failed to update password");
      }
      users := users[username := users[username].(password := newPassword)];
      r := Ok(());
    }
  }

  /** After a password change the new password authenticates, a different
      old one no longer does, and every other user is unaffected. */
  lemma ChangedPasswordAuthenticates(users: map<string, Account>, username: string, oldPassword: string,
                                     newPassword: string, other: string, p: string)
    requires Authenticates(users, username, oldPassword)
    ensures var after := users[username := users[username].(password := newPassword)];
      && Authenticates(after, username, newPassword)
      && (oldPassword != newPassword ==> !Authenticates(after, username, oldPassword))
      && (other != username ==> (Authenticates(after, other, p) <==> Authenticates(users, other, p)))
  {
  }

  /** `Logout` (and `RecordTimeoutLogout`, which calls it): closes the
      user's open session with the latest login; with none open, nothing
      changes and it is not an error. Returns the number of rows changed. */
  method Logout(logs: LoginLogBook, userId: int, now: Instant) returns (affected: nat)
    modifies logs
    ensures affected <= 1
    ensures affected == 0 ==>
      && logs.rows == old(logs.rows)
      && forall j :: 0 <= j < |logs.rows| ==> !(logs.rows[j].userId == userId && logs.rows[j].logoutAt.None?)
    ensures affected == 1 ==> exists k ::
      && LatestOpen(old(logs.rows), userId, k)
      && logs.rows == old(logs.rows)[k := old(logs.rows)[k].(logoutAt := Some(now))]
    ensures logs.nextId == old(logs.nextId)
  {
    var closed := logs.CloseLatest(userId, now);
    affected := if closed.Some? then 1 else 0;
  }
}
