/** The route gate: the `authorized` callback of the middleware, run on every request that
    reaches it. It decides from the path and the (already verified) token alone. */
module Proxy {
  import opened Wrappers
  import opened Text
  import opened Roles
  import opened Auth

  /** The public routes: the root, and everything whose path starts with "/login", "/register" or
      "/api/auth". Matching is by plain prefix, not by path segment. */
  predicate IsPublic(path: string) {
    path == "/" || StartsWith(path, "/login") || StartsWith(path, "/register")
    || StartsWith(path, "/api/auth")
  }

  /** Whether the token's role is exactly `role`; a token without a role field has none. */
  predicate HasRole(token: Token, role: Role) {
    token.role == Some(role)
  }

  /** `authorized({ token, req })`: public routes first, then the token, then the role-scoped
      prefixes in order, and any other path for any signed-in user. */
  function Authorized(path: string, token: Option<Token>): (allowed: bool)
    ensures IsPublic(path) ==> allowed
    ensures !IsPublic(path) && token.None? ==> !allowed
  {
    if IsPublic(path) then true
    else if token.None? then false
    else if StartsWith(path, "/hr") then HasRole(token.value, HR)
    else if StartsWith(path, "/candidate") then HasRole(token.value, CANDIDATE)
    else if StartsWith(path, "/admin") then HasRole(token.value, ADMIN)
    else true
  }

  // ---------------------------------------------------------------------------------------
  // A reference definition: the route scope declarations as an ordered rule table, evaluated
  // first match wins.

  datatype Pattern = Exact(path: string) | Prefix(prefix: string)

  datatype Scope = Public | Scoped(role: Role)

  datatype Rule = Rule(pattern: Pattern, scope: Scope)

  predicate Matches(p: Pattern, path: string) {
    match p
    case Exact(q) => path == q
    case Prefix(q) => StartsWith(path, q)
  }

  const RouteTable: seq<Rule> := [
    Rule(Exact("/"), Public),
    Rule(Prefix("/login"), Public),
    Rule(Prefix("/register"), Public),
    Rule(Prefix("/api/auth"), Public),
    Rule(Prefix("/hr"), Scoped(HR)),
    Rule(Prefix("/candidate"), Scoped(CANDIDATE)),
    Rule(Prefix("/admin"), Scoped(ADMIN))
  ]

  /** The scope of the first rule whose pattern matches the path. */
  function FirstMatch(rules: seq<Rule>, path: string): Option<Scope> {
    if rules == [] then None
    else if Matches(rules[0].pattern, path) then Some(rules[0].scope)
    else FirstMatch(rules[1..], path)
  }

  /** First match wins: the scope found is that of a matching rule with no matching rule before
      it, and a scope is found exactly when some rule matches. */
  lemma {:induction false} FirstMatchIsFirst(rules: seq<Rule>, path: string)
    ensures FirstMatch(rules, path).Some? <==> exists k :: 0 <= k < |rules| && Matches(rules[k].pattern, path)
    ensures FirstMatch(rules, path).Some? ==>
              exists k :: 0 <= k < |rules| && Matches(rules[k].pattern, path)
                          && rules[k].scope == FirstMatch(rules, path).value
                          && forall j :: 0 <= j < k ==> !Matches(rules[j].pattern, path)
  {
    if rules != [] && !Matches(rules[0].pattern, path) {
      FirstMatchIsFirst(rules[1..], path);
      assert forall k :: 1 <= k < |rules| ==> rules[k] == rules[1..][k - 1];
      if FirstMatch(rules, path).Some? {
        var k :| 0 <= k < |rules[1..]| && Matches(rules[1..][k].pattern, path)
                 && rules[1..][k].scope == FirstMatch(rules, path).value
                 && forall j :: 0 <= j < k ==> !Matches(rules[1..][j].pattern, path);
        assert Matches(rules[k + 1].pattern, path);
      }
    }
  }

  /** The gate's decision under a rule table: a public rule allows, a scoped rule allows a token
      of exactly its role, and a path no rule matches is open to any token. */
  function Decide(rules: seq<Rule>, path: string, token: Option<Token>): bool {
    match FirstMatch(rules, path)
    case Some(Public) => true
    case Some(Scoped(role)) => token.Some? && HasRole(token.value, role)
    case None => token.Some?
  }

  /** The callback is the first-match-wins reading of its route table, on every input. */
  lemma GateFollowsRouteTable(path: string, token: Option<Token>)
    ensures Authorized(path, token) == Decide(RouteTable, path, token)
  {
    var t6 := [Rule(Prefix("/admin"), Scoped(ADMIN))];
    var t5 := [Rule(Prefix("/candidate"), Scoped(CANDIDATE))] + t6;
    var t4 := [Rule(Prefix("/hr"), Scoped(HR))] + t5;
    var t3 := [Rule(Prefix("/api/auth"), Public)] + t4;
    var t2 := [Rule(Prefix("/register"), Public)] + t3;
    var t1 := [Rule(Prefix("/login"), Public)] + t2;
    var t0 := [Rule(Exact("/"), Public)] + t1;
    assert t0 == RouteTable;
    FirstMatchStep(t0, path);
    FirstMatchStep(t1, path);
    FirstMatchStep(t2, path);
    FirstMatchStep(t3, path);
    FirstMatchStep(t4, path);
    FirstMatchStep(t5, path);
    FirstMatchStep(t6, path);
    assert t0[1..] == t1 && t1[1..] == t2 && t2[1..] == t3 && t3[1..] == t4;
    assert t4[1..] == t5 && t5[1..] == t6 && t6[1..] == [];
    if StartsWith(path, "/hr") || StartsWith(path, "/candidate") || StartsWith(path, "/admin") {
      ScopedPrefixesExclusive(path);
    }
  }

  lemma FirstMatchStep(rules: seq<Rule>, path: string)
    requires rules != []
    ensures FirstMatch(rules, path)
            == if Matches(rules[0].pattern, path) then Some(rules[0].scope) else FirstMatch(rules[1..], path)
  {
  }

  // ---------------------------------------------------------------------------------------
  // Properties of the decision

  /** A path starts with at most one of the three scoped prefixes. */
  lemma ScopedPrefixesExclusive(path: string)
    ensures !(StartsWith(path, "/hr") && StartsWith(path, "/candidate"))
    ensures !(StartsWith(path, "/hr") && StartsWith(path, "/admin"))
    ensures !(StartsWith(path, "/candidate") && StartsWith(path, "/admin"))
  {
    if StartsWith(path, "/hr") { assert path[1] == 'h'; }
    if StartsWith(path, "/candidate") { assert path[1] == 'c'; }
  }

  lemma ScopedPathsAreNotPublic(path: string)
    requires StartsWith(path, "/hr") || StartsWith(path, "/candidate") || StartsWith(path, "/admin")
    ensures !IsPublic(path)
  {
    assert path[1] in {'h', 'c', 'a'};
    if StartsWith(path, "/admin") {
      assert path[2] == 'd';
    }
  }

  /** A path under "/hr", "/candidate" or "/admin" is allowed exactly for a token of that role. */
  lemma ScopedPathNeedsExactRole(path: string, token: Option<Token>)
    ensures StartsWith(path, "/hr") ==> (Authorized(path, token) <==> token.Some? && HasRole(token.value, HR))
    ensures StartsWith(path, "/candidate") ==>
              (Authorized(path, token) <==> token.Some? && HasRole(token.value, CANDIDATE))
    ensures StartsWith(path, "/admin") ==>
              (Authorized(path, token) <==> token.Some? && HasRole(token.value, ADMIN))
  {
    if StartsWith(path, "/hr") || StartsWith(path, "/candidate") || StartsWith(path, "/admin") {
      ScopedPathsAreNotPublic(path);
      ScopedPrefixesExclusive(path);
    }
  }

  /** No token is allowed on both an HR path and a candidate path, and a candidate token is
      allowed on neither HR nor administrative paths. */
  lemma RoleSeparation(hrPath: string, candidatePath: string, adminPath: string, token: Token)
    requires StartsWith(hrPath, "/hr") && StartsWith(candidatePath, "/candidate")
    requires StartsWith(adminPath, "/admin")
    ensures !(Authorized(hrPath, Some(token)) && Authorized(candidatePath, Some(token)))
    ensures HasRole(token, CANDIDATE) ==>
              !Authorized(hrPath, Some(token)) && !Authorized(adminPath, Some(token))
  {
    ScopedPathNeedsExactRole(hrPath, Some(token));
    ScopedPathNeedsExactRole(candidatePath, Some(token));
    ScopedPathNeedsExactRole(adminPath, Some(token));
  }

  /** The public test runs first and matches by plain prefix: the authentication API under
      "/api/auth/hr", and look-alike paths such as "/registerX" and "/loginfoo", pass with no
      token at all. */
  lemma PublicBeforeRoles()
    ensures Authorized("/api/auth/hr/jobs", None)
    ensures Authorized("/registerX", None) && Authorized("/loginfoo", None)
    ensures !Authorized("/hr/jobs", None)
  {
    assert StartsWith("/api/auth/hr/jobs", "/api/auth");
    assert StartsWith("/registerX", "/register");
    assert StartsWith("/loginfoo", "/login");
    assert StartsWith("/hr/jobs", "/hr");
    ScopedPathsAreNotPublic("/hr/jobs");
  }

  /** A signed-in request to a path under none of the listed prefixes is allowed for every
      role, and for a token with no role at all. */
  lemma DefaultAllow(path: string, token: Token)
    requires path != "/"
    requires !StartsWith(path, "/login") && !StartsWith(path, "/register") && !StartsWith(path, "/api/auth")
    requires !StartsWith(path, "/hr") && !StartsWith(path, "/candidate") && !StartsWith(path, "/admin")
    ensures Authorized(path, Some(token))
  {
  }

  /** After signing in, the role scopes follow the role of the account the claims came from: an
      HR path admits the token the `jwt` callback stamps exactly when that account is an HR
      account. */
  lemma SignedInRoleDecides(path: string, c: Claims)
    requires StartsWith(path, "/hr")
    ensures Authorized(path, Some(StampedToken(c))) <==> c.role == HR
  {
    ScopedPathNeedsExactRole(path, Some(StampedToken(c)));
  }
}
