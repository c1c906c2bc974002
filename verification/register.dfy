/** The registration endpoint (`POST /api/auth/register`): a fixed chain of guards, each with
    its own status, followed by one atomic write of the user and its role profile. */
module Register {
  import opened Wrappers
  import opened Text
  import opened Roles
  import opened Store

  /** The parsed request body; every field may be absent, `null` or present. */
  datatype RegisterBody = RegisterBody(email: Js<string>, password: Js<string>, role: Js<string>,
                                       username: Js<string>, fullname: Js<string>)

  /** `SafeUserResponse`: the user as returned to the client, without the password digest. */
  datatype SafeUser = SafeUser(id: UserId, username: string, fullname: string, email: string,
                               role: Role, createdAt: int)

  datatype Payload = ErrorMessage(error: string) | Registered(message: string, data: SafeUser)

  datatype Response = Response(status: nat, payload: Payload)

  /** The request once every guard has passed: normalized e-mail and username, the raw
      full name and password, and the requested role. */
  datatype Registration = Registration(email: string, username: string, fullname: string,
                                       password: string, role: Role)

  const MinPasswordLength: nat := 8

  const RequiredFields := Response(400, ErrorMessage("All fields are required"))
  const InvalidRole := Response(403, ErrorMessage("Invalid role for registration"))
  const InvalidEmail := Response(400, ErrorMessage("Invalid email format"))
  const WeakPassword := Response(400, ErrorMessage("Password must be at least 8 characters long"))
  const EmailConflict := Response(409, ErrorMessage("Email already registered"))
  const UsernameConflict := Response(409, ErrorMessage("Username already taken"))
  const InternalError := Response(500, ErrorMessage("Internal server error"))

  // ---------------------------------------------------------------------------------------
  // The e-mail pattern ^[^\s@]+@[^\s@]+\.[^\s@]+$

  /** A character of the class `[^\s@]`. */
  predicate Plain(c: char) {
    !IsSpace(c) && c != '@'
  }

  predicate AllPlain(s: string) {
    forall i :: 0 <= i < |s| ==> Plain(s[i])
  }

  /** The language of the pattern, stated as the regular-expression engine reads it: some `@` at
      `at` and some `.` at `dot` cut the string into three non-empty runs of `[^\s@]`. */
  ghost predicate MatchesEmailPattern(s: string) {
    exists at, dot :: 0 < at && at + 1 < dot && dot + 1 < |s| && s[at] == '@' && s[dot] == '.'
                      && AllPlain(s[..at]) && AllPlain(s[at + 1..dot]) && AllPlain(s[dot + 1..])
  }

  /** Position of the first `c` in `s`, or `|s|` when there is none. */
  function IndexOf(s: string, c: char): (r: nat)
    ensures r <= |s| && (r < |s| ==> s[r] == c)
    ensures forall i :: 0 <= i < r ==> s[i] != c
  {
    if s == [] then 0 else if s[0] == c then 0 else 1 + IndexOf(s[1..], c)
  }

  /** `emailRegex.test(s)` computed directly: a non-empty local part up to the first `@`, and a
      domain with no white space and no further `@` holding a `.` that is neither its first nor
      its last character. */
  function EmailValid(s: string): (ok: bool)
    ensures ok ==> forall i :: 0 <= i < |s| ==> !IsSpace(s[i])
    ensures ok ==> exists at :: 0 < at < |s| && s[at] == '@'
                                && forall i :: 0 <= i < |s| && s[i] == '@' ==> i == at
  {
    var at := IndexOf(s, '@');
    var domain := if at < |s| then s[at + 1..] else [];
    && 0 < at < |s|
    && AllPlain(s[..at])
    && AllPlain(domain)
    && (exists k :: 0 < k < |domain| - 1 && domain[k] == '.')
  }

  /** The direct check accepts exactly the strings the regular expression matches. */
  lemma EmailValidMatchesPattern(s: string)
    ensures EmailValid(s) <==> MatchesEmailPattern(s)
  {
    if EmailValid(s) {
      EmailValidIsMatch(s);
    }
    if MatchesEmailPattern(s) {
      var a, d :| 0 < a && a + 1 < d && d + 1 < |s| && s[a] == '@' && s[d] == '.'
                  && AllPlain(s[..a]) && AllPlain(s[a + 1..d]) && AllPlain(s[d + 1..]);
      MatchIsEmailValid(s, a, d);
    }
  }

  lemma EmailValidIsMatch(s: string)
    requires EmailValid(s)
    ensures MatchesEmailPattern(s)
  {
    var at := IndexOf(s, '@');
    var domain := s[at + 1..];
    var k :| 0 < k < |domain| - 1 && domain[k] == '.';
    var dot := at + 1 + k;
    PlainAfter(s, at);
    PlainRun(s, 0, at);
    PlainRun(s, at + 1, dot);
    PlainRun(s, dot + 1, |s|);
    assert s[dot + 1..|s|] == s[dot + 1..];
    assert s[..at] == s[0..at];
    PatternWitness(s, at, dot);
  }

  /** Every character after position `at` is plain when the suffix after it is. */
  lemma PlainAfter(s: string, at: nat)
    requires at < |s| && AllPlain(s[at + 1..])
    ensures forall m :: at < m < |s| ==> Plain(s[m])
  {
    forall m | at < m < |s| ensures Plain(s[m]) {
      assert s[m] == s[at + 1..][m - at - 1];
    }
  }

  lemma PlainRun(s: string, i: nat, j: nat)
    requires i <= j <= |s| && forall m :: i <= m < j ==> Plain(s[m])
    ensures AllPlain(s[i..j])
  {
    forall m | 0 <= m < j - i ensures Plain(s[i..j][m]) {
      assert s[i..j][m] == s[i + m];
    }
  }

  lemma PatternWitness(s: string, at: nat, dot: nat)
    requires 0 < at && at + 1 < dot && dot + 1 < |s| && s[at] == '@' && s[dot] == '.'
    requires AllPlain(s[..at]) && AllPlain(s[at + 1..dot]) && AllPlain(s[dot + 1..])
    ensures MatchesEmailPattern(s)
  {
  }

  lemma MatchIsEmailValid(s: string, a: nat, d: nat)
    requires 0 < a && a + 1 < d && d + 1 < |s| && s[a] == '@' && s[d] == '.'
    requires AllPlain(s[..a]) && AllPlain(s[a + 1..d]) && AllPlain(s[d + 1..])
    ensures EmailValid(s)
  {
    assert forall i :: 0 <= i < a ==> s[..a][i] == s[i];
    var at := IndexOf(s, '@');
    assert at == a;
    var domain := s[a + 1..];
    forall i | 0 <= i < |domain| ensures Plain(domain[i]) {
      if i < d - a - 1 {
        assert domain[i] == s[a + 1..d][i];
      } else if i > d - a - 1 {
        assert domain[i] == s[d + 1..][i - (d - a)];
      }
    }
    assert domain[d - a - 1] == '.';
  }

  // ---------------------------------------------------------------------------------------
  // The guard chain

  predicate AllPresent(body: RegisterBody) {
    && TruthyString(body.email) && TruthyString(body.password) && TruthyString(body.role)
    && TruthyString(body.username) && TruthyString(body.fullname)
  }

  /** The four guards that look at the request alone, in the handler's order: required
      fields, role, e-mail pattern, password length. */
  function CheckFormat(body: RegisterBody): (r: Result<Registration, Response>)
    ensures r.Ok? <==>
              && AllPresent(body)
              && ParseRegisterRole(body.role.value).Some?
              && EmailValid(Normalize(body.email.value))
              && |body.password.value| >= MinPasswordLength
    ensures r.Ok? ==>
              && r.value.email == Normalize(body.email.value)
              && r.value.username == Normalize(body.username.value)
              && r.value.fullname == body.fullname.value
              && r.value.password == body.password.value
              && Registrable(r.value.role) && Name(r.value.role) == body.role.value
    ensures r.Err? ==> r.error.status in {400, 403}
  {
    if !AllPresent(body) then Err(RequiredFields)
    else
      var email := Normalize(body.email.value);
      var username := Normalize(body.username.value);
      match ParseRegisterRole(body.role.value)
      case None => Err(InvalidRole)
      case Some(role) =>
        if !EmailValid(email) then Err(InvalidEmail)
        else if |body.password.value| < MinPasswordLength then Err(WeakPassword)
        else Ok(Registration(email, username, body.fullname.value, body.password.value, role))
  }

  /** A step after the format guards that can throw: the `findUnique` by e-mail, the
      `findUnique` by username, or `bcrypt.hash`. Each ends in the `catch` block. */
  datatype EarlyFault = NoEarlyFault | EmailLookupFails | UsernameLookupFails | HashFails

  /** The two uniqueness tests and the hash, in the handler's order, against the user table as
      it is when the request arrives; `early` says which throwing step, if any, fails. */
  function CheckTable(reg: Registration, users: seq<User>, early: EarlyFault): (r: Result<Registration, Response>)
    ensures r.Ok? <==>
              early == NoEarlyFault && !EmailTaken(users, reg.email) && !UsernameTaken(users, reg.username)
    ensures r.Ok? ==> r.value == reg
    ensures r.Err? ==> r.error in {EmailConflict, UsernameConflict, InternalError}
    ensures r == Err(InternalError) ==> early != NoEarlyFault
  {
    if early.EmailLookupFails? then Err(InternalError)
    else if EmailTaken(users, reg.email) then Err(EmailConflict)
    else if early.UsernameLookupFails? then Err(InternalError)
    else if UsernameTaken(users, reg.username) then Err(UsernameConflict)
    else if early.HashFails? then Err(InternalError)
    else Ok(reg)
  }

  /** The table stage run on the outcome of the format stage: a refusal is passed on, an
      accepted request goes on to the lookups and the hash. */
  function AfterFormat(format: Result<Registration, Response>, users: seq<User>, early: EarlyFault)
    : (r: Result<Registration, Response>)
    ensures format.Err? ==> r == format
    ensures r.Ok? <==>
              format.Ok? && early.NoEarlyFault?
              && !EmailTaken(users, format.value.email) && !UsernameTaken(users, format.value.username)
    ensures r.Ok? ==> r == format
  {
    match format
    case Err(e) => Err(e)
    case Ok(reg) => CheckTable(reg, users, early)
  }

  /** Every step of the handler up to the transaction. */
  function Screen(body: RegisterBody, users: seq<User>, early: EarlyFault): (r: Result<Registration, Response>)
    ensures r.Ok? <==>
              && early == NoEarlyFault
              && CheckFormat(body).Ok?
              && !EmailTaken(users, Normalize(body.email.value))
              && !UsernameTaken(users, Normalize(body.username.value))
    ensures r.Ok? ==> r == CheckFormat(body)
    ensures r.Err? ==> r.error.status in {400, 403, 409, 500}
    ensures r.Err? && r.error.status == 500 ==> early != NoEarlyFault && r.error == InternalError
  {
    AfterFormat(CheckFormat(body), users, early)
  }

  /** The guard chain when no step throws. */
  function Validate(body: RegisterBody, users: seq<User>): (r: Result<Registration, Response>)
    ensures r.Err? ==> r.error.status in {400, 403, 409}
  {
    Screen(body, users, NoEarlyFault)
  }

  /** The three throwing steps, stated on any refusal the format stage can give: each answers
      500 unless a guard that runs before it has already answered. */
  lemma ThrowingStepsAfterFormat(format: Result<Registration, Response>, users: seq<User>)
    requires format.Err? ==> format.error.status in {400, 403}
    ensures var v := AfterFormat(format, users, NoEarlyFault);
            AfterFormat(format, users, EmailLookupFails)
            == if v.Err? && v.error.status != 409 then v else Err(InternalError)
    ensures var v := AfterFormat(format, users, NoEarlyFault);
            AfterFormat(format, users, UsernameLookupFails)
            == if v.Err? && v.error != UsernameConflict then v else Err(InternalError)
    ensures var v := AfterFormat(format, users, NoEarlyFault);
            AfterFormat(format, users, HashFails) == if v.Err? then v else Err(InternalError)
  {
  }

  /** A throwing step answers 500 unless a guard before it has already answered: the e-mail
      lookup runs after the four format guards, the username lookup after the e-mail conflict
      test, and the hash after both conflict tests. */
  lemma EarlyFaultIsInternalError(body: RegisterBody, users: seq<User>)
    ensures var v := Validate(body, users);
            Screen(body, users, EmailLookupFails)
            == if v.Err? && v.error.status != 409 then v else Err(InternalError)
    ensures var v := Validate(body, users);
            Screen(body, users, UsernameLookupFails)
            == if v.Err? && v.error != UsernameConflict then v else Err(InternalError)
    ensures var v := Validate(body, users);
            Screen(body, users, HashFails) == if v.Err? then v else Err(InternalError)
  {
    ThrowingStepsAfterFormat(CheckFormat(body), users);
  }

  /** The redacted view returned on success. */
  function Redact(u: User): (v: SafeUser)
    ensures v.id == u.id && v.username == u.username && v.fullname == u.fullname
    ensures v.email == u.email && v.role == u.role && v.createdAt == u.createdAt
  {
    SafeUser(u.id, u.username, u.fullname, u.email, u.role, u.createdAt)
  }

  /** The handler. `hashed` is what `bcrypt.hash(password, 10)` returns for this request (the
      hash is salted, so the caller supplies it), `now` the creation time the database stamps,
      `early` says whether a lookup or the hash throws, and `fault` whether a write of the
      transaction fails. */
  method Post(store: AccountStore, body: RegisterBody, hashed: string, now: int, early: EarlyFault,
              fault: Fault)
    returns (response: Response)
    requires store.Valid()
    modifies store
    ensures store.Valid()
    ensures Screen(body, old(store.users), early).Err? ==>
              response == Screen(body, old(store.users), early).error
    ensures Screen(body, old(store.users), early).Ok? && fault != NoFault ==> response == InternalError
    ensures response.status != 201 ==>
              store.users == old(store.users) && store.hrProfiles == old(store.hrProfiles)
              && store.candidateProfiles == old(store.candidateProfiles) && store.jobs == old(store.jobs)
    ensures response.status == 201 <==> Screen(body, old(store.users), early).Ok? && fault == NoFault
    ensures response.status == 201 ==>
              var reg := Validate(body, old(store.users)).value;
              var user := User(|old(store.users)|, reg.email, reg.username, reg.fullname, hashed, reg.role, now);
              && response == Response(201, Registered("Registeration successfully", Redact(user)))
              && store.users == old(store.users) + [user]
              && store.hrProfiles == old(store.hrProfiles)
                   + (if reg.role == HR then [Profile(|old(store.hrProfiles)|, user.id)] else [])
              && store.candidateProfiles == old(store.candidateProfiles)
                   + (if reg.role == CANDIDATE then [Profile(|old(store.candidateProfiles)|, user.id)] else [])
              && store.jobs == old(store.jobs)
  {
    var checked := Screen(body, store.users, early);
    if checked.Err? {
      return checked.error;
    }
    var reg := checked.value;
    var created := store.CreateAccount(reg.email, reg.username, reg.fullname, hashed, reg.role, now, fault);
    if created.None? {
      return InternalError;
    }
    response := Response(201, Registered("Registeration successfully", Redact(created.value)));
  }

  // ---------------------------------------------------------------------------------------
  // Properties of the guard chain

  /** A missing or empty field is reported before anything else is looked at. */
  lemma MissingFieldFirst(body: RegisterBody, users: seq<User>, early: EarlyFault)
    requires !AllPresent(body)
    ensures Screen(body, users, early) == Err(RequiredFields)
  {
  }

  /** The administrative role, or any string other than "HR" and "CANDIDATE", is refused with
      403 whatever the e-mail, password and existing users. */
  lemma ForbiddenRoleBeforeFormatChecks(body: RegisterBody, users: seq<User>, early: EarlyFault)
    requires AllPresent(body) && body.role.value != "HR" && body.role.value != "CANDIDATE"
    ensures Screen(body, users, early) == Err(InvalidRole)
  {
  }

  /** An e-mail that fails the pattern once normalized is refused with 400 whatever the
      password and the existing users. */
  lemma InvalidEmailBeforePassword(body: RegisterBody, users: seq<User>, early: EarlyFault)
    requires AllPresent(body) && ParseRegisterRole(body.role.value).Some?
    requires !EmailValid(Normalize(body.email.value))
    ensures Screen(body, users, early) == Err(InvalidEmail)
  {
  }

  /** A password shorter than eight characters is refused with 400 before the user table is
      read. */
  lemma ShortPasswordBeforeLookups(body: RegisterBody, users: seq<User>, early: EarlyFault)
    requires AllPresent(body) && ParseRegisterRole(body.role.value).Some?
    requires EmailValid(Normalize(body.email.value)) && |body.password.value| < MinPasswordLength
    ensures Screen(body, users, early) == Err(WeakPassword)
  {
  }

  /** No accepted registration carries the administrative role. */
  lemma NoAdminByRegistration(body: RegisterBody, users: seq<User>)
    ensures Validate(body, users).Ok? ==> Validate(body, users).value.role != ADMIN
  {
  }

  /** A taken e-mail is reported before the username is looked up, even when both are taken. */
  lemma EmailConflictBeforeUsername(body: RegisterBody, users: seq<User>)
    requires AllPresent(body) && ParseRegisterRole(body.role.value).Some?
    requires EmailValid(Normalize(body.email.value)) && |body.password.value| >= MinPasswordLength
    requires EmailTaken(users, Normalize(body.email.value))
    ensures Validate(body, users) == Err(EmailConflict)
  {
  }

  /** A free e-mail with a taken username is refused with the username's 409. */
  lemma UsernameConflictWhenEmailFree(body: RegisterBody, users: seq<User>)
    requires AllPresent(body) && ParseRegisterRole(body.role.value).Some?
    requires EmailValid(Normalize(body.email.value)) && |body.password.value| >= MinPasswordLength
    requires !EmailTaken(users, Normalize(body.email.value))
    requires UsernameTaken(users, Normalize(body.username.value))
    ensures Validate(body, users) == Err(UsernameConflict)
  {
  }

  /** Registering again with an e-mail that differs from a stored one only in letter case and
      surrounding white space is a conflict. */
  lemma CaseAndSpaceVariantConflicts(body: RegisterBody, users: seq<User>, i: nat, x: string,
                                     pre: string, post: string)
    requires i < |users| && AllSpace(pre) && AllSpace(post)
    requires body.email == Val(pre + x + post) && Lower(x) == users[i].email
    requires users[i].email == Normalize(users[i].email) && EmailValid(users[i].email)
    requires AllPresent(body) && ParseRegisterRole(body.role.value).Some?
    requires |body.password.value| >= MinPasswordLength
    ensures Validate(body, users) == Err(EmailConflict)
  {
    var e := users[i].email;
    NormalizedVariant(e, x, pre, post);
    assert Normalize(body.email.value) == e;
    assert EmailTaken(users, e);
    EmailConflictBeforeUsername(body, users);
  }

  /** The required-field test looks at the raw username, so a username of white space alone is
      accepted and stored as the empty string. */
  lemma BlankUsernameStoredEmpty(body: RegisterBody, users: seq<User>)
    requires AllPresent(body) && AllSpace(body.username.value)
    requires Validate(body, users).Ok?
    ensures Validate(body, users).value.username == ""
  {
    TrimUnique(body.username.value, [], []);
    assert body.username.value + [] + [] == body.username.value;
  }

  /** A plain address such as "ana@example.com" passes the e-mail pattern. */
  lemma ExampleEmailValid()
    ensures EmailValid("ana@example.com")
  {
    var e := "ana@example.com";
    assert e[..3] == "ana" && e[4..11] == "example" && e[12..] == "com";
    MatchIsEmailValid(e, 3, 11);
  }

  /** The redacted view does not depend on the stored password digest. */
  lemma RedactionIgnoresPassword(u: User, digest: string)
    ensures Redact(u) == Redact(u.(password := digest))
  {
  }
}
