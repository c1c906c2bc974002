/** The closed role enumeration: `UserRole` has three members, of which only two
    (`RegisterRole`) may be chosen at sign-up. */
module Roles {
  import opened Wrappers

  datatype Role = HR | CANDIDATE | ADMIN

  /** The string each role is written as, in request bodies and in tokens. */
  function Name(r: Role): string {
    match r
    case HR => "HR"
    case CANDIDATE => "CANDIDATE"
    case ADMIN => "ADMIN"
  }

  /** A `RegisterRole`: every role except the administrative one. */
  predicate Registrable(r: Role) {
    r != ADMIN
  }

  /** `allowedRoles.includes(role)` with `allowedRoles = ["HR", "CANDIDATE"]`: exact,
      case-sensitive membership of the requested role string. */
  function ParseRegisterRole(s: string): (r: Option<Role>)
    ensures r.Some? ==> Registrable(r.value) && Name(r.value) == s
  {
    if s == "HR" then Some(HR)
    else if s == "CANDIDATE" then Some(CANDIDATE)
    else None
  }

  /** A role's name is accepted at sign-up exactly when the role is registrable, and it is
      read back as that same role; no other string is accepted. */
  lemma ParseRegisterRoleExact(r: Role, s: string)
    ensures ParseRegisterRole(Name(r)) == (if Registrable(r) then Some(r) else None)
    ensures ParseRegisterRole(s).Some? <==> exists q :: Registrable(q) && Name(q) == s
  {
  }
}
