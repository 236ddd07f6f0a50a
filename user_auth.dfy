/** Account registration, password and Google login, and the
    confirmation-code state machine behind account activation and password
    reset. A user's status moves from INACTIVE to ACTIVE when a code is
    verified; a code moves from UNUSED to USED when verified and is deleted
    once spent on a password reset. Password hashing and matching are
    functions the service is given; tokens and mail are not modelled. */
module UserAuth {
  import opened Common
  import opened Users

  datatype CodeStatus = Unused | Used

  datatype Confirmation = Confirmation(email: string, code: string, status: CodeStatus, expireAt: int)

  /** A code lives three minutes, in milliseconds. */
  const CodeLifetime := 3 * 60 * 1000

  const Normal := "normal"
  const Google := "google"

  /** The user and confirmation collections. */
  datatype Accounts = Accounts(users: seq<UserRecord>, confirmations: seq<Confirmation>)

  /** What an operation throws, if anything, and the collections it leaves. */
  datatype Change = Change(error: Option<Error>, after: Accounts)

  /** The first confirmation for the email, or -1. */
  function ConfirmationIndex(cs: seq<Confirmation>, email: string): int {
    FirstWhere(cs, (c: Confirmation) => c.email == email)
  }

  /** The first confirmation for the email holding the code, or -1. */
  function ConfirmationIndexWithCode(cs: seq<Confirmation>, email: string, code: string): int {
    FirstWhere(cs, (c: Confirmation) => c.email == email && c.code == code)
  }

  predicate OnePerEmail(cs: seq<Confirmation>) {
    forall i, j :: 0 <= i < j < |cs| ==> cs[i].email != cs[j].email
  }

  // ---------------------------------------------------------------------------
  // Issuing codes
  // ---------------------------------------------------------------------------

  /** createOrUpdateConfirmationInfo: a new confirmation is UNUSED; an
      existing one gets the new code and expiry and keeps its status. Either
      way the email's confirmation then holds the code and expires three
      minutes from now, no other email's confirmation changes, and there is
      still at most one confirmation per email. */
  function Upserted(cs: seq<Confirmation>, email: string, code: string, now: int): (r: seq<Confirmation>)
    ensures OnePerEmail(cs) ==> OnePerEmail(r)
    ensures var k := ConfirmationIndex(r, email);
            k >= 0 && r[k].code == code && r[k].expireAt == now + CodeLifetime
            && r[k].status == (if ConfirmationIndex(cs, email) < 0 then Unused else cs[ConfirmationIndex(cs, email)].status)
    ensures |cs| <= |r| <= |cs| + 1
    ensures forall i :: 0 <= i < |cs| && cs[i].email != email ==> r[i] == cs[i]
  {
    var k := ConfirmationIndex(cs, email);
    if k < 0 then
      var r := cs + [Confirmation(email, code, Unused, now + CodeLifetime)];
      assert forall j :: 0 <= j < |cs| ==> r[j] == cs[j];
      assert r[|cs|].email == email;
      assert ConfirmationIndex(r, email) == |cs|;
      r
    else
      var r := cs[k := cs[k].(code := code, expireAt := now + CodeLifetime)];
      assert r[k].email == email;
      assert ConfirmationIndex(r, email) == k;
      r
  }

  /** sendCodeToRegister: a code is issued only to an INACTIVE user. */
  function RegisterCode(a: Accounts, email: string, code: string, now: int): Change {
    var i := UserIndexByEmail(a.users, email);
    if i >= 0 && a.users[i].status == Some(Inactive) then
      Change(None, a.(confirmations := Upserted(a.confirmations, email, code, now)))
    else if i >= 0 && a.users[i].status == Some(Active) then Change(Some(Rejected("User already Active")), a)
    else Change(Some(Rejected("Not Found User with email")), a)
  }

  /** sendCodeForgotPassword: a code is issued only to an account registered with a password. */
  function ResetCode(a: Accounts, email: string, code: string, now: int): Change {
    if UserIndexByEmailAndAuth(a.users, email, Normal) < 0 then Change(Some(NotFound("User with email " + email)), a)
    else Change(None, a.(confirmations := Upserted(a.confirmations, email, code, now)))
  }

  // ---------------------------------------------------------------------------
  // Verifying codes and resetting passwords
  // ---------------------------------------------------------------------------

  /** verifyCodeByEmail: the email's confirmation and user must exist, the
      code must match, and the code must not have expired; the confirmation
      then becomes USED and the user ACTIVE. */
  function VerifyCode(a: Accounts, code: string, email: string, now: int): Change {
    var k := ConfirmationIndex(a.confirmations, email);
    if k < 0 then Change(Some(NotFound("Confirmation data with email " + email)), a)
    else
      var i := UserIndexByEmail(a.users, email);
      if i < 0 then Change(Some(NotFound("User with email " + email)), a)
      else if code != a.confirmations[k].code then Change(Some(Rejected("Code is incorrect")), a)
      else if now > a.confirmations[k].expireAt then Change(Some(Rejected("Code has expired")), a)
      else Change(None, Accounts(a.users[i := a.users[i].(status := Some(Active))],
                                 a.confirmations[k := a.confirmations[k].(status := Used)]))
  }

  /** changePasswordForgot: the user must exist and hold a USED confirmation
      with this code; that confirmation is deleted and the new password
      stored encoded. */
  function PasswordReset(a: Accounts, email: string, code: string, password: string,
                                encode: string -> string): Change
  {
    var i := UserIndexByEmail(a.users, email);
    if i < 0 then Change(Some(NotFound("User with email " + email)), a)
    else
      var k := ConfirmationIndexWithCode(a.confirmations, email, code);
      if k < 0 || a.confirmations[k].status != Used then Change(Some(Unauthorized("Email has not been verified")), a)
      else Change(None, Accounts(a.users[i := a.users[i].(password := Some(encode(password)))],
                                 a.confirmations[..k] + a.confirmations[k + 1..]))
  }

  /** A code is accepted exactly when the email's confirmation and user
      exist, the code is the one issued and it has not expired; it then
      activates the first user with that email and spends the confirmation.
      A rejected code changes nothing. */
  lemma VerifyActivates(a: Accounts, code: string, email: string, now: int)
    ensures var c := VerifyCode(a, code, email, now);
            var k := ConfirmationIndex(a.confirmations, email);
            var i := UserIndexByEmail(a.users, email);
            (c.error.None? <==> k >= 0 && i >= 0 && a.confirmations[k].code == code && now <= a.confirmations[k].expireAt)
            && (c.error.Some? ==> c.after == a)
            && (c.error.None? ==>
                  c.after.users[i].status == Some(Active) && c.after.confirmations[k].status == Used
                  && |c.after.users| == |a.users| && |c.after.confirmations| == |a.confirmations|
                  && (forall j :: 0 <= j < |a.users| && j != i ==> c.after.users[j] == a.users[j])
                  && (forall j :: 0 <= j < |a.confirmations| && j != k ==> c.after.confirmations[j] == a.confirmations[j]))
  {
  }

  /** With one confirmation per email, a verified code resets the password
      once: the reset succeeds, removes the confirmation and keeps one
      confirmation per email, and the same code is refused afterwards. */
  lemma {:induction false} VerifiedCodeResetsOnce(a: Accounts, code: string, email: string, now: int,
                                                password: string, again: string, encode: string -> string)
    requires OnePerEmail(a.confirmations)
    requires VerifyCode(a, code, email, now).error.None?
    ensures var verified := VerifyCode(a, code, email, now).after;
            var reset := PasswordReset(verified, email, code, password, encode);
            var i := UserIndexByEmail(a.users, email);
            reset.error.None?
            && reset.after.users[i].password == Some(encode(password))
            && ConfirmationIndex(reset.after.confirmations, email) < 0
            && OnePerEmail(reset.after.confirmations)
            && PasswordReset(reset.after, email, code, again, encode).error
               == Some(Unauthorized("Email has not been verified"))
  {
    VerifiedCodeIsUsed(a, code, email, now);
    UsedCodeResetsOnce(VerifyCode(a, code, email, now).after, email, code, password, again, encode);
  }

  /** After a successful verification the code is found, USED, for the
      same user, and there is still one confirmation per email. */
  lemma {:induction false} VerifiedCodeIsUsed(a: Accounts, code: string, email: string, now: int)
    requires OnePerEmail(a.confirmations)
    requires VerifyCode(a, code, email, now).error.None?
    ensures var verified := VerifyCode(a, code, email, now).after;
            var k := ConfirmationIndexWithCode(verified.confirmations, email, code);
            OnePerEmail(verified.confirmations)
            && UserIndexByEmail(verified.users, email) == UserIndexByEmail(a.users, email)
            && k >= 0 && verified.confirmations[k].status == Used
  {
    var verified := VerifyCode(a, code, email, now).after;
    var k := ConfirmationIndex(a.confirmations, email);
    var i := UserIndexByEmail(a.users, email);
    assert verified == Accounts(a.users[i := a.users[i].(status := Some(Active))],
                                a.confirmations[k := a.confirmations[k].(status := Used)]);
    assert ConfirmationIndexWithCode(verified.confirmations, email, code) == k by {
      assert forall j :: 0 <= j < k ==> verified.confirmations[j] == a.confirmations[j];
      assert verified.confirmations[k].email == email && verified.confirmations[k].code == code;
    }
    assert UserIndexByEmail(verified.users, email) == i by {
      assert forall j :: 0 <= j < i ==> verified.users[j] == a.users[j];
      assert verified.users[i].email == email;
    }
    assert forall j :: 0 <= j < |a.confirmations| ==> verified.confirmations[j].email == a.confirmations[j].email;
  }

  /** A USED code resets the password once: the reset deletes it, and the
      same code is refused afterwards. */
  lemma {:induction false} UsedCodeResetsOnce(v: Accounts, email: string, code: string, password: string,
                                              again: string, encode: string -> string)
    requires OnePerEmail(v.confirmations)
    requires UserIndexByEmail(v.users, email) >= 0
    requires var k := ConfirmationIndexWithCode(v.confirmations, email, code);
             k >= 0 && v.confirmations[k].status == Used
    ensures var reset := PasswordReset(v, email, code, password, encode);
            var i := UserIndexByEmail(v.users, email);
            reset.error.None?
            && reset.after.users[i].password == Some(encode(password))
            && ConfirmationIndex(reset.after.confirmations, email) < 0
            && OnePerEmail(reset.after.confirmations)
            && PasswordReset(reset.after, email, code, again, encode).error
               == Some(Unauthorized("Email has not been verified"))
  {
    var k := ConfirmationIndexWithCode(v.confirmations, email, code);
    var i := UserIndexByEmail(v.users, email);
    var after := PasswordReset(v, email, code, password, encode).after;
    RemovedEmailGone(v.confirmations, k);
    assert UserIndexByEmail(after.users, email) == i by {
      assert forall j :: 0 <= j < i ==> after.users[j] == v.users[j];
      assert after.users[i].email == email;
    }
  }

  /** Deleting a confirmation from a collection with one per email leaves
      one per email and none for the deleted one's email. */
  lemma {:induction false} RemovedEmailGone(cs: seq<Confirmation>, k: nat)
    requires OnePerEmail(cs) && k < |cs|
    ensures var r := cs[..k] + cs[k + 1..];
            OnePerEmail(r) && forall j :: 0 <= j < |r| ==> r[j].email != cs[k].email
  {
    var r := cs[..k] + cs[k + 1..];
    assert forall j :: 0 <= j < |r| ==> r[j] == cs[if j < k then j else j + 1];
  }

  // ---------------------------------------------------------------------------
  // Registration and login
  // ---------------------------------------------------------------------------

  datatype RegisterUserRequest = RegisterUserRequest(email: string, password: string, fullname: string, role: Role)

  /** registerUser: an email already in use, by any kind of account, is
      refused; a new account is INACTIVE, registered with a password, and
      stores the password encoded. */
  function Register(a: Accounts, req: RegisterUserRequest, newId: string, encode: string -> string): Change {
    if UserIndexByEmail(a.users, req.email) >= 0 then Change(Some(Rejected("Email already registered")), a)
    else
      var user := UserRecord(newId, req.email, Some(encode(req.password)), req.fullname, req.role, Some(Inactive), Normal);
      Change(None, a.(users := a.users + [user]))
  }

  /** A new registration can be activated: it succeeds exactly for an
      unused email, and a code can then be sent to that email. Once a code
      is verified the account is ACTIVE and no further registration code is
      issued. */
  lemma RegistrationActivation(a: Accounts, req: RegisterUserRequest, newId: string, encode: string -> string,
                               code: string, now: int, later: string, after: int)
    ensures var reg := Register(a, req, newId, encode);
            (reg.error.None? <==> UserIndexByEmail(a.users, req.email) < 0)
            && (reg.error.None? ==>
                  var sent := RegisterCode(reg.after, req.email, code, now);
                  var verified := VerifyCode(sent.after, code, req.email, now);
                  sent.error.None? && verified.error.None?
                  && RegisterCode(verified.after, req.email, later, after).error == Some(Rejected("User already Active")))
  {
    var reg := Register(a, req, newId, encode);
    if reg.error.None? {
      var users := reg.after.users;
      assert UserIndexByEmail(users, req.email) == |a.users| by {
        assert forall j :: 0 <= j < |a.users| ==> users[j] == a.users[j];
        assert users[|a.users|].email == req.email;
      }
      var sent := RegisterCode(reg.after, req.email, code, now);
      var k := ConfirmationIndex(sent.after.confirmations, req.email);
      assert sent.after.confirmations[k].code == code && sent.after.confirmations[k].expireAt == now + CodeLifetime;
      var verified := VerifyCode(sent.after, code, req.email, now);
      VerifyActivates(sent.after, code, req.email, now);
      assert UserIndexByEmail(verified.after.users, req.email) == |a.users| by {
        assert forall j :: 0 <= j < |a.users| ==> verified.after.users[j] == a.users[j];
        assert verified.after.users[|a.users|].email == req.email;
      }
    }
  }

  /** The login response: the role, a null status read as INACTIVE, and
      whether a teacher or student profile is attached. The Google login
      response carries no role. */
  datatype LoginResponse = LoginResponse(role: Option<Role>, status: UserStatus, teacherProfile: bool,
                                         studentProfile: bool)

  datatype LoginStep = LoginStep(outcome: Outcome<LoginResponse>, users: seq<UserRecord>)

  /** loginGoogleUser: reuse the Google account for the email, or create an
      ACTIVE USER account for it; a teacher without a teacher profile, or an
      account without a status, cannot log in. */
  function GoogleLogin(users: seq<UserRecord>, email: string, name: string, newId: string,
                       teachers: set<string>, students: set<string>): LoginStep
  {
    var i := UserIndexByEmailAndAuth(users, email, Google);
    var saved := if i >= 0 then users
                 else users + [UserRecord(newId, email, None, name, User, Some(Active), Google)];
    var user := if i >= 0 then users[i] else saved[|users|];
    if user.status.None? then LoginStep(Fail(NullReference), saved)
    else if user.role == Teacher && user.id !in teachers then LoginStep(Fail(Rejected("Teacher not found")), saved)
    else LoginStep(Ok(LoginResponse(None, user.status.value, user.role == Teacher,
                                    user.role == User && user.id in students)), saved)
  }

  /** A first Google login creates one ACTIVE USER account that later Google
      logins with the same email reuse, without creating another. */
  lemma GoogleAccountReused(users: seq<UserRecord>, email: string, name: string, newId: string,
                            teachers: set<string>, students: set<string>, name2: string, newId2: string)
    requires UserIndexByEmailAndAuth(users, email, Google) < 0
    ensures var first := GoogleLogin(users, email, name, newId, teachers, students);
            var second := GoogleLogin(first.users, email, name2, newId2, teachers, students);
            first.outcome.Ok? && first.outcome.value.status == Active
            && first.users == users + [UserRecord(newId, email, None, name, User, Some(Active), Google)]
            && second.users == first.users && second.outcome == first.outcome
  {
    var first := GoogleLogin(users, email, name, newId, teachers, students);
    assert UserIndexByEmailAndAuth(first.users, email, Google) == |users| by {
      assert forall j :: 0 <= j < |users| ==> first.users[j] == users[j];
    }
  }

  // ---------------------------------------------------------------------------
  // The service
  // ---------------------------------------------------------------------------

  class UserAuthService {
    /** The password encoder: `encode` hashes, `matches` checks a raw
        password against an encoded one. */
    const encode: string -> string
    const matches: (string, string) -> bool
    /** Ids of the users with a teacher profile and with a student profile. */
    const teachers: set<string>
    const students: set<string>
    var users: seq<UserRecord>
    var confirmations: seq<Confirmation>

    constructor(encode: string -> string, matches: (string, string) -> bool, teachers: set<string>,
                students: set<string>, users: seq<UserRecord>, confirmations: seq<Confirmation>)
      ensures this.encode == encode && this.matches == matches && this.teachers == teachers
      ensures this.students == students && this.users == users && this.confirmations == confirmations
    {
      this.encode := encode;
      this.matches := matches;
      this.teachers := teachers;
      this.students := students;
      this.users := users;
      this.confirmations := confirmations;
    }

    method RegisterUser(req: RegisterUserRequest, newId: string) returns (r: Outcome<string>)
      modifies this
      ensures var c := Register(Accounts(old(users), old(confirmations)), req, newId, encode);
              (if c.error.Some? then r == Fail(c.error.value) else r == Ok(newId))
              && users == c.after.users && confirmations == c.after.confirmations
    {
      if UserIndexByEmail(users, req.email) >= 0 {
        return Fail(Rejected("Email already registered"));
      }
      users := users + [UserRecord(newId, req.email, Some(encode(req.password)), req.fullname, req.role,
                                   Some(Inactive), Normal)];
      r := Ok(newId);
    }

    /** loginUser: authenticateUser, then the login response. An account
        without a password never matches. */
    method LoginUser(email: string, password: string) returns (r: Outcome<LoginResponse>)
      ensures UserIndexByEmail(users, email) < 0 ==> r == Fail(Rejected("Account not found"))
      ensures var i := UserIndexByEmail(users, email);
              i >= 0 && (users[i].password.None? || !matches(password, users[i].password.value)) ==>
                r == Fail(Rejected("Password is incorrect"))
      ensures var i := UserIndexByEmail(users, email);
              i >= 0 && users[i].password.Some? && matches(password, users[i].password.value) ==>
                var user := users[i];
                r == Ok(LoginResponse(Some(user.role), user.status.GetOr(Inactive),
                                      user.role == Teacher && user.id in teachers,
                                      user.role == User && user.id in students))
    {
      var i := UserIndexByEmail(users, email);
      if i < 0 {
        return Fail(Rejected("Account not found"));
      }
      var user := users[i];
      if user.password.None? || !matches(password, user.password.value) {
        return Fail(Rejected("Password is incorrect"));
      }
      var status := if user.status.None? then Inactive else user.status.value;
      var teacher := false;
      var student := false;
      if user.role == Teacher {
        teacher := user.id in teachers;
      } else if user.role == User {
        student := user.id in students;
      }
      r := Ok(LoginResponse(Some(user.role), status, teacher, student));
    }

    method LoginGoogleUser(email: string, name: string, newId: string) returns (r: Outcome<LoginResponse>)
      modifies this
      ensures var step := GoogleLogin(old(users), email, name, newId, teachers, students);
              r == step.outcome && users == step.users && confirmations == old(confirmations)
    {
      var i := UserIndexByEmailAndAuth(users, email, Google);
      var user: UserRecord;
      if i >= 0 {
        user := users[i];
      } else {
        user := UserRecord(newId, email, None, name, User, Some(Active), Google);
        users := users + [user];
      }
      if user.status.None? {
        return Fail(NullReference);
      }
      if user.role == Teacher && user.id !in teachers {
        return Fail(Rejected("Teacher not found"));
      }
      r := Ok(LoginResponse(None, user.status.value, user.role == Teacher, user.role == User && user.id in students));
    }

    method CreateOrUpdateConfirmationInfo(email: string, code: string, now: int)
      modifies this
      ensures confirmations == Upserted(old(confirmations), email, code, now) && users == old(users)
    {
      var k := ConfirmationIndex(confirmations, email);
      if k < 0 {
        confirmations := confirmations + [Confirmation(email, code, Unused, now + CodeLifetime)];
      } else {
        var confirmation := confirmations[k].(code := code, expireAt := now + CodeLifetime);
        confirmations := confirmations[k := confirmation];
      }
    }

    /** sendCodeToRegister, with the generated code and the clock as parameters. */
    method SendCodeToRegister(email: string, code: string, now: int) returns (error: Option<Error>)
      modifies this
      ensures var c := RegisterCode(Accounts(old(users), old(confirmations)), email, code, now);
              error == c.error && users == c.after.users && confirmations == c.after.confirmations
    {
      var i := UserIndexByEmail(users, email);
      if i >= 0 && users[i].status == Some(Inactive) {
        CreateOrUpdateConfirmationInfo(email, code, now);
        return None;
      } else if i >= 0 && users[i].status == Some(Active) {
        return Some(Rejected("User already Active"));
      }
      return Some(Rejected("Not Found User with email"));
    }

    method SendCodeForgotPassword(email: string, code: string, now: int) returns (error: Option<Error>)
      modifies this
      ensures var c := ResetCode(Accounts(old(users), old(confirmations)), email, code, now);
              error == c.error && users == c.after.users && confirmations == c.after.confirmations
    {
      if UserIndexByEmailAndAuth(users, email, Normal) < 0 {
        return Some(NotFound("User with email " + email));
      }
      CreateOrUpdateConfirmationInfo(email, code, now);
      error := None;
    }

    method VerifyCodeByEmail(code: string, email: string, now: int) returns (error: Option<Error>)
      modifies this
      ensures var c := VerifyCode(Accounts(old(users), old(confirmations)), code, email, now);
              error == c.error && users == c.after.users && confirmations == c.after.confirmations
    {
      var k := ConfirmationIndex(confirmations, email);
      if k < 0 {
        return Some(NotFound("Confirmation data with email " + email));
      }
      var i := UserIndexByEmail(users, email);
      if i < 0 {
        return Some(NotFound("User with email " + email));
      }
      var confirmation := confirmations[k];
      if code != confirmation.code {
        return Some(Rejected("Code is incorrect"));
      }
      if now > confirmation.expireAt {
        return Some(Rejected("Code has expired"));
      }
      users := users[i := users[i].(status := Some(Active))];
      confirmations := confirmations[k := confirmation.(status := Used)];
      error := None;
    }

    method ChangePasswordForgot(email: string, code: string, password: string) returns (error: Option<Error>)
      modifies this
      ensures var c := PasswordReset(Accounts(old(users), old(confirmations)), email, code, password, encode);
              error == c.error && users == c.after.users && confirmations == c.after.confirmations
    {
      var i := UserIndexByEmail(users, email);
      if i < 0 {
        return Some(NotFound("User with email " + email));
      }
      var k := ConfirmationIndexWithCode(confirmations, email, code);
      if k < 0 || confirmations[k].status != Used {
        return Some(Unauthorized("Email has not been verified"));
      }
      confirmations := confirmations[..k] + confirmations[k + 1..];
      users := users[i := users[i].(password := Some(encode(password)))];
      error := None;
    }
  }
}
