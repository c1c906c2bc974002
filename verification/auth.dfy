/** The credentials provider and the two NextAuth callbacks: `authorize` turns an identifier and
    a password into the five session claims, `jwt` copies them into the token, `session`
    passes the session through. */
module Auth {
  import opened Wrappers
  import opened Text
  import opened Roles
  import opened Store

  /** The submitted login form; `credentials` itself may be missing. */
  datatype Credentials = Credentials(identifier: Js<string>, password: Js<string>)

  /** `AuthorizedUser`: the claims `authorize` returns. The password digest is not among them. */
  datatype Claims = Claims(id: UserId, email: string, username: string, fullname: string, role: Role)

  /** `null`, the claims, or the error `authorize` throws. */
  datatype AuthResult = NoUser | SignedIn(user: Claims) | Thrown(message: string)

  /** A repository or bcrypt call inside `authorize` that throws, with the message of its error:
      the `findFirst` lookup, or `bcrypt.compare`. */
  datatype SignInFault = NoSignInFault | LookupThrows(error: string) | CompareThrows(error: string)

  const UserNotFound := "User not found"
  const IncorrectPassword := "Incorrect password"

  /** `session.maxAge`: thirty days, in seconds. */
  const SessionMaxAge: nat := 30 * 24 * 60 * 60

  /** One of the two alternatives of the `OR` filter. */
  predicate IdentifiedBy(u: User, identifier: string) {
    u.email == identifier || u.username == identifier
  }

  /** `findFirst` with the `OR` filter: the position of the first user, in table order, whose
      e-mail or username is `identifier`. */
  function FindFirst(users: seq<User>, identifier: string): (r: Option<nat>)
    ensures r.Some? ==> r.value < |users| && IdentifiedBy(users[r.value], identifier)
    ensures r.Some? ==> forall j :: 0 <= j < r.value ==> !IdentifiedBy(users[j], identifier)
    ensures r.None? ==> forall j :: 0 <= j < |users| ==> !IdentifiedBy(users[j], identifier)
  {
    if users == [] then None
    else if IdentifiedBy(users[0], identifier) then Some(0)
    else
      match FindFirst(users[1..], identifier)
      case None => None
      case Some(k) => Some(k + 1)
  }

  /** The record `authorize` builds from the stored row. */
  function ClaimsOf(u: User): (c: Claims)
    ensures c.id == u.id && c.email == u.email && c.username == u.username
    ensures c.fullname == u.fullname && c.role == u.role
  {
    Claims(u.id, u.email, u.username, u.fullname, u.role)
  }

  predicate CredentialsPresent(credentials: Option<Credentials>) {
    credentials.Some? && TruthyString(credentials.value.identifier)
    && TruthyString(credentials.value.password)
  }

  /** `authorize`. `matches(plain, digest)` is `bcrypt.compare`, and `fault` says which call, if
      any, throws when it is reached. The `catch` block rethrows the message of the error it
      caught, so its own two messages and those of a failing call reach the caller unchanged. */
  function Authorize(credentials: Option<Credentials>, users: seq<User>,
                     matches: (string, string) -> bool, fault: SignInFault): (r: AuthResult)
    ensures r.NoUser? <==> !CredentialsPresent(credentials)
    ensures r.SignedIn? <==>
              && CredentialsPresent(credentials)
              && fault.NoSignInFault?
              && var found := FindFirst(users, Normalize(credentials.value.identifier.value));
                 found.Some? && matches(credentials.value.password.value, users[found.value].password)
    ensures r.SignedIn? ==>
              r.user == ClaimsOf(users[FindFirst(users, Normalize(credentials.value.identifier.value)).value])
    ensures r.Thrown? && fault.LookupThrows? ==> r.message == fault.error
    ensures r.Thrown? && !fault.LookupThrows?
            && FindFirst(users, Normalize(credentials.value.identifier.value)).None?
            ==> r.message == UserNotFound
    ensures r.Thrown? && fault.CompareThrows?
            && FindFirst(users, Normalize(credentials.value.identifier.value)).Some?
            ==> r.message == fault.error
    ensures r.Thrown? && fault.NoSignInFault?
            && FindFirst(users, Normalize(credentials.value.identifier.value)).Some?
            ==> r.message == IncorrectPassword
  {
    if !CredentialsPresent(credentials) then NoUser
    else if fault.LookupThrows? then Thrown(fault.error)
    else
      var identifier := Normalize(credentials.value.identifier.value);
      match FindFirst(users, identifier)
      case None => Thrown(UserNotFound)
      case Some(i) =>
        if fault.CompareThrows? then Thrown(fault.error)
        else if matches(credentials.value.password.value, users[i].password) then SignedIn(ClaimsOf(users[i]))
        else Thrown(IncorrectPassword)
  }

  /** The error of a failing lookup, or of a failing comparison once a user is found, reaches the
      caller with its own message, whatever the password; so does the comparison's only when the
      lookup found someone. */
  lemma CallErrorsPassThrough(c: Credentials, users: seq<User>, matches: (string, string) -> bool, m: string)
    requires CredentialsPresent(Some(c))
    ensures Authorize(Some(c), users, matches, LookupThrows(m)) == Thrown(m)
    ensures Authorize(Some(c), users, matches, CompareThrows(m))
            == if FindFirst(users, Normalize(c.identifier.value)).Some? then Thrown(m) else Thrown(UserNotFound)
  {
  }

  /** Without an identifier or a password the store is not consulted: the answer is `null`
      whatever the users and the password comparison. */
  lemma MissingCredentialsIgnoreStore(credentials: Option<Credentials>, users: seq<User>, users': seq<User>,
                                      matches: (string, string) -> bool, matches': (string, string) -> bool)
    requires !CredentialsPresent(credentials)
    ensures forall fault, fault' :: Authorize(credentials, users, matches, fault)
                                    == Authorize(credentials, users', matches', fault') == NoUser
  {
  }

  /** The two rejections carry different messages, so a caller can tell an unknown identifier
      from a wrong password. */
  lemma FailuresAreDistinguishable(c: Credentials, users: seq<User>, matches: (string, string) -> bool,
                                   c': Credentials, users': seq<User>, matches': (string, string) -> bool)
    requires CredentialsPresent(Some(c)) && CredentialsPresent(Some(c'))
    requires FindFirst(users, Normalize(c.identifier.value)).None?
    requires var found := FindFirst(users', Normalize(c'.identifier.value));
             found.Some? && !matches'(c'.password.value, users'[found.value].password)
    ensures Authorize(Some(c), users, matches, NoSignInFault) == Thrown(UserNotFound)
    ensures Authorize(Some(c'), users', matches', NoSignInFault) == Thrown(IncorrectPassword)
    ensures Authorize(Some(c), users, matches, NoSignInFault) != Authorize(Some(c'), users', matches', NoSignInFault)
  {
    UnknownIdentifierRejected(c, users, matches);
    WrongPasswordRejected(c', users', matches', FindFirst(users', Normalize(c'.identifier.value)).value);
    assert UserNotFound[0] != IncorrectPassword[0];
  }

  lemma UnknownIdentifierRejected(c: Credentials, users: seq<User>, matches: (string, string) -> bool)
    requires CredentialsPresent(Some(c))
    requires FindFirst(users, Normalize(c.identifier.value)).None?
    ensures Authorize(Some(c), users, matches, NoSignInFault) == Thrown(UserNotFound)
  {
  }

  lemma WrongPasswordRejected(c: Credentials, users: seq<User>, matches: (string, string) -> bool, i: nat)
    requires CredentialsPresent(Some(c))
    requires FindFirst(users, Normalize(c.identifier.value)) == Some(i)
    requires i < |users| && !matches(c.password.value, users[i].password)
    ensures Authorize(Some(c), users, matches, NoSignInFault) == Thrown(IncorrectPassword)
  {
    AuthorizeOnceFound(c, users, matches, i);
  }

  /** Once the lookup has found user `i` and nothing throws, only the comparison decides. */
  lemma AuthorizeOnceFound(c: Credentials, users: seq<User>, matches: (string, string) -> bool, i: nat)
    requires CredentialsPresent(Some(c))
    requires FindFirst(users, Normalize(c.identifier.value)) == Some(i) && i < |users|
    ensures Authorize(Some(c), users, matches, NoSignInFault)
            == if matches(c.password.value, users[i].password) then SignedIn(ClaimsOf(users[i]))
               else Thrown(IncorrectPassword)
  {
  }

  /** Logging in with a stored user's e-mail, in any letter case and with surrounding white
      space, yields that user's claims when the password matches its digest, provided no earlier
      user took that e-mail as a username. */
  lemma LoginByEmail(users: seq<User>, hr: seq<Profile>, candidates: seq<Profile>, jobs: seq<Job>,
                     i: nat, x: string, pre: string, post: string, password: string,
                     matches: (string, string) -> bool)
    requires Consistent(users, hr, candidates, jobs) && i < |users|
    requires users[i].email == Normalize(users[i].email) && Lower(x) == users[i].email
    requires AllSpace(pre) && AllSpace(post) && pre + x + post != ""
    requires password != "" && matches(password, users[i].password)
    requires forall j :: 0 <= j < i ==> users[j].username != users[i].email
    ensures Authorize(Some(Credentials(Val(pre + x + post), Val(password))), users, matches, NoSignInFault)
            == SignedIn(ClaimsOf(users[i]))
  {
    var e := users[i].email;
    var identifier := pre + x + post;
    NormalizedVariant(e, x, pre, post);
    assert Normalize(identifier) == e;
    EarlierEmailsDiffer(users, hr, candidates, jobs, i);
    forall j | 0 <= j < i ensures !IdentifiedBy(users[j], e) {
      assert users[j].email != e;
    }
    FindFirstAt(users, e, i);
    AuthorizeFound(Credentials(Val(identifier), Val(password)), users, matches, i);
  }

  /** In a consistent table no earlier user has the e-mail of user `i`. */
  lemma EarlierEmailsDiffer(users: seq<User>, hr: seq<Profile>, candidates: seq<Profile>, jobs: seq<Job>,
                            i: nat)
    requires Consistent(users, hr, candidates, jobs) && i < |users|
    ensures forall j :: 0 <= j < i ==> users[j].email != users[i].email
  {
  }

  /** `authorize` returns the claims of the user the lookup finds when the password matches. */
  lemma AuthorizeFound(c: Credentials, users: seq<User>, matches: (string, string) -> bool, i: nat)
    requires CredentialsPresent(Some(c))
    requires FindFirst(users, Normalize(c.identifier.value)) == Some(i)
    requires i < |users| && matches(c.password.value, users[i].password)
    ensures Authorize(Some(c), users, matches, NoSignInFault) == SignedIn(ClaimsOf(users[i]))
  {
    AuthorizeOnceFound(c, users, matches, i);
  }

  /** The lookup returns position `i` when user `i` is identified and no earlier one is. */
  lemma FindFirstAt(users: seq<User>, identifier: string, i: nat)
    requires i < |users| && IdentifiedBy(users[i], identifier)
    requires forall j :: 0 <= j < i ==> !IdentifiedBy(users[j], identifier)
    ensures FindFirst(users, identifier) == Some(i)
  {
  }

  /** A user whose username equals an earlier user's e-mail can never log in by that username:
      the `OR` lookup returns the earlier user. */
  lemma UsernameShadowedByEarlierEmail(users: seq<User>, j: nat, k: nat, c: Credentials,
                                       matches: (string, string) -> bool)
    requires j < k < |users| && users[k].username == users[j].email
    requires CredentialsPresent(Some(c)) && Normalize(c.identifier.value) == users[k].username
    requires forall i :: 0 <= i < |users| ==> users[i].id == i
    ensures forall fault :: Authorize(Some(c), users, matches, fault) != SignedIn(ClaimsOf(users[k]))
  {
    var found := FindFirst(users, users[k].username);
    assert IdentifiedBy(users[j], users[k].username);
    assert found.Some? && found.value <= j;
  }

  // ---------------------------------------------------------------------------------------
  // The JWT and its callbacks

  /** The claim fields of the JWT; each is absent until a sign-in sets it. */
  datatype Token = Token(id: Option<UserId>, email: Option<string>, username: Option<string>,
                         fullname: Option<string>, role: Option<Role>)

  /** The token fields the `jwt` callback writes for a signed-in user. */
  function StampedToken(c: Claims): (t: Token)
    ensures ReadClaims(t) == Some(c)
  {
    Token(Some(c.id), Some(c.email), Some(c.username), Some(c.fullname), Some(c.role))
  }

  /** The claims a token carries, when it carries all five. */
  function ReadClaims(t: Token): (c: Option<Claims>)
    ensures c.Some? <==> t.id.Some? && t.email.Some? && t.username.Some? && t.fullname.Some? && t.role.Some?
  {
    if t.id.Some? && t.email.Some? && t.username.Some? && t.fullname.Some? && t.role.Some? then
      Some(Claims(t.id.value, t.email.value, t.username.value, t.fullname.value, t.role.value))
    else None
  }

  /** A token carrying all five claims is the stamp of those claims. */
  lemma StampReadRoundTrip(t: Token)
    requires ReadClaims(t).Some?
    ensures StampedToken(ReadClaims(t).value) == t
  {
  }

  /** The JWT object the callbacks update in place. */
  class JwtToken {
    var id: Option<UserId>
    var email: Option<string>
    var username: Option<string>
    var fullname: Option<string>
    var role: Option<Role>

    function View(): Token
      reads this
    {
      Token(id, email, username, fullname, role)
    }

    constructor (initial: Token)
      ensures View() == initial
    {
      id, email, username, fullname := initial.id, initial.email, initial.username, initial.fullname;
      role := initial.role;
    }
  }

  /** The `jwt` callback: on sign-in (`user` present) it copies the five claims into the token,
      otherwise it leaves the token as it is; it returns the same token object. */
  method JwtCallback(token: JwtToken, user: Option<Claims>) returns (result: JwtToken)
    modifies token
    ensures result == token
    ensures user.Some? ==> token.View() == StampedToken(user.value) && ReadClaims(token.View()) == user
    ensures user.None? ==> token.View() == old(token.View())
  {
    if user.Some? {
      token.id := Some(user.value.id);
      token.email := Some(user.value.email);
      token.username := Some(user.value.username);
      token.fullname := Some(user.value.fullname);
      token.role := Some(user.value.role);
    }
    return token;
  }

  /** `session.user` as the server sees it. NextAuth fills `name`, `email` and `image`; the
      other fields are the ones the application declares for itself. */
  datatype SessionUser = SessionUser(name: Option<string>, email: Option<string>, image: Option<string>,
                                     id: Option<UserId>, username: Option<string>,
                                     fullname: Option<string>, role: Option<Role>)

  datatype Session = Session(user: SessionUser, expires: int)

  /** The session NextAuth builds from a JWT before it calls the `session` callback: the user's
      name, e-mail and picture, and an expiry `SessionMaxAge` seconds after `now`. */
  function DefaultSession(token: Token, name: Option<string>, picture: Option<string>, now: int): (s: Session)
    ensures s.expires == now + SessionMaxAge && s.expires == now + 2_592_000
    ensures s.user.email == token.email
    ensures s.user.id.None? && s.user.username.None? && s.user.fullname.None? && s.user.role.None?
  {
    Session(SessionUser(name, token.email, picture, None, None, None, None), now + SessionMaxAge)
  }

  /** The `session` callback as written: it assigns each token field to itself, which changes
      nothing, and returns the session it was given. */
  function SessionCallback(session: Session, token: Token): (r: Session)
    ensures r == session
  {
    // `token.id = token.id` and the like: the five self-assignments change nothing.
    session
  }

  /** The `session` callback as evidently intended: it copies the token's claims into
      `session.user`, keeping what NextAuth put there otherwise. */
  function SessionWithClaims(session: Session, token: Token): (r: Session)
    ensures r.expires == session.expires
    ensures r.user.name == session.user.name && r.user.image == session.user.image
    ensures r.user.id == token.id && r.user.email == token.email && r.user.username == token.username
    ensures r.user.fullname == token.fullname && r.user.role == token.role
  {
    session.(user := session.user.(id := token.id, email := token.email, username := token.username,
                                   fullname := token.fullname, role := token.role))
  }
}
