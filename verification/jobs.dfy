/** The HR job-creation endpoint (`POST /api/auth/hr/jobs`): four guards with their statuses,
    then one job row whose skills are the request's skills with defaults filled in. */
module Jobs {
  import opened Wrappers
  import opened Roles
  import opened Store
  import opened Auth

  /** One element of `skills` as the handler reads it: `skillId`, `required` and `weight`. */
  datatype SkillInput = SkillInput(skillId: Js<string>, required: Js<bool>, weight: Js<int>)

  datatype CreateJobBody = CreateJobBody(title: Js<string>, description: Js<string>,
                                         minExperience: Js<int>, skills: Js<seq<SkillInput>>)

  /** What the handler ends with: a JSON reply, an exception it does not catch, or falling off
      the end of the function without returning a response. */
  datatype Outcome = Reply(status: nat, error: string) | Throws | NoResponse

  const Unauthorized := Reply(401, "Unauthorized")
  const Forbidden := Reply(403, "Forbidden")
  const MissingFields := Reply(400, "Missing required fields: title, description, minExperience, skills")
  const ProfileNotFound := Reply(404, "HR profile not found")

  /** A request that passed every guard, with the HR profile the job will belong to. */
  datatype Accepted = Accepted(title: string, description: string, minExperience: Option<int>,
                               skills: seq<SkillInput>, profile: Profile)

  /** One `skills.map` step: `weight ?? 1` and `required ?? true`. */
  function ToJobSkill(s: SkillInput): JobSkill {
    JobSkill(s.skillId, s.weight.Coalesce(1), s.required.Coalesce(true))
  }

  /** `skills.map(...)`: the job-skill rows, one per requested skill, in the same order; a
      weight or a `required` flag that is absent or `null` takes its default, any other value,
      `0` and `false` included, is kept. */
  function MapSkills(skills: seq<SkillInput>): (r: seq<JobSkill>)
    ensures |r| == |skills|
    ensures forall i :: 0 <= i < |skills| ==>
              && r[i].skillId == skills[i].skillId
              && r[i].weight == (if skills[i].weight.Val? then skills[i].weight.value else 1)
              && r[i].required == (if skills[i].required.Val? then skills[i].required.value else true)
  {
    if skills == [] then [] else [ToJobSkill(skills[0])] + MapSkills(skills[1..])
  }

  /** Mapping keeps the order: the rows for a concatenation are the concatenated rows. */
  lemma {:induction false} MapSkillsKeepsOrder(a: seq<SkillInput>, b: seq<SkillInput>)
    ensures MapSkills(a + b) == MapSkills(a) + MapSkills(b)
  {
    if a != [] {
      assert (a + b)[1..] == a[1..] + b;
      MapSkillsKeepsOrder(a[1..], b);
    } else {
      assert a + b == b;
    }
  }

  predicate FieldsPresent(body: CreateJobBody) {
    TruthyString(body.title) && TruthyString(body.description) && body.minExperience != Undefined
    && TruthyObject(body.skills)
  }

  /** The guards in the handler's order: no session, a role other than HR, a missing field, an
      HR profile that cannot be found. Looking a profile up for a session without a user id
      makes the query throw. */
  function Guard(session: Option<Session>, body: CreateJobBody, hr: seq<Profile>): (r: Result<Accepted, Outcome>)
    ensures r.Ok? <==>
              && session.Some? && session.value.user.role == Some(HR) && FieldsPresent(body)
              && session.value.user.id.Some? && HasProfile(hr, session.value.user.id.value)
    ensures r.Ok? ==>
              && r.value.profile in hr && r.value.profile.userId == session.value.user.id.value
              && r.value.title == body.title.value && r.value.description == body.description.value
              && r.value.minExperience == (if body.minExperience.Val? then Some(body.minExperience.value) else None)
              && r.value.skills == body.skills.value
    ensures r.Err? ==> r.error in {Unauthorized, Forbidden, MissingFields, ProfileNotFound, Throws}
  {
    if session.None? then Err(Unauthorized)
    else if session.value.user.role != Some(HR) then Err(Forbidden)
    else if !FieldsPresent(body) then Err(MissingFields)
    else if session.value.user.id.None? then Err(Throws)
    else
      match ProfileOf(hr, session.value.user.id.value)
      case None => Err(ProfileNotFound)
      case Some(p) =>
        var minExperience := if body.minExperience.Val? then Some(body.minExperience.value) else None;
        Ok(Accepted(body.title.value, body.description.value, minExperience, body.skills.value, p))
  }

  /** The handler. On success it creates the job and then returns nothing. */
  method Post(store: AccountStore, session: Option<Session>, body: CreateJobBody) returns (outcome: Outcome)
    requires store.Valid()
    modifies store
    ensures store.Valid()
    ensures store.users == old(store.users) && store.hrProfiles == old(store.hrProfiles)
    ensures store.candidateProfiles == old(store.candidateProfiles)
    ensures Guard(session, body, old(store.hrProfiles)).Err? ==>
              outcome == Guard(session, body, old(store.hrProfiles)).error && store.jobs == old(store.jobs)
    ensures Guard(session, body, old(store.hrProfiles)).Ok? ==>
              var a := Guard(session, body, old(store.hrProfiles)).value;
              && outcome == NoResponse
              && store.jobs == old(store.jobs)
                   + [Job(|old(store.jobs)|, a.title, a.description, a.minExperience, a.profile.id, MapSkills(a.skills))]
  {
    var checked := Guard(session, body, store.hrProfiles);
    if checked.Err? {
      return checked.error;
    }
    var a := checked.value;
    ghost var k :| 0 <= k < |store.hrProfiles| && store.hrProfiles[k] == a.profile;
    var job := store.CreateJob(a.title, a.description, a.minExperience, a.profile.id, MapSkills(a.skills));
    outcome := NoResponse;
  }

  // ---------------------------------------------------------------------------------------
  // Properties of the guards

  /** Without a session the answer is 401, whatever the body and the profiles. */
  lemma NoSessionFirst(body: CreateJobBody, hr: seq<Profile>)
    ensures Guard(None, body, hr) == Err(Unauthorized)
  {
  }

  /** A session whose role is not HR gets 403 before the body is looked at. */
  lemma NonHrForbiddenBeforeBody(s: Session, body: CreateJobBody, body': CreateJobBody, hr: seq<Profile>)
    requires s.user.role != Some(HR)
    ensures Guard(Some(s), body, hr) == Guard(Some(s), body', hr) == Err(Forbidden)
  {
  }

  /** An HR session with a falsy title or description, an absent `minExperience` or a missing
      skill list gets 400 before any profile is looked up. */
  lemma MissingFieldsBeforeLookup(s: Session, body: CreateJobBody, hr: seq<Profile>)
    requires s.user.role == Some(HR) && !FieldsPresent(body)
    ensures Guard(Some(s), body, hr) == Err(MissingFields)
  {
  }

  /** A complete request from an HR session that carries no user id makes the profile query
      throw, whatever the profiles. */
  lemma MissingUserIdThrows(s: Session, body: CreateJobBody, hr: seq<Profile>)
    requires s.user.role == Some(HR) && FieldsPresent(body) && s.user.id.None?
    ensures Guard(Some(s), body, hr) == Err(Throws)
  {
  }

  /** A complete request from an HR session whose user has no HR profile gets 404. */
  lemma NoProfileNotFound(s: Session, body: CreateJobBody, hr: seq<Profile>)
    requires s.user.role == Some(HR) && FieldsPresent(body) && s.user.id.Some?
    requires !HasProfile(hr, s.user.id.value)
    ensures Guard(Some(s), body, hr) == Err(ProfileNotFound)
  {
  }

  /** Only an absent `minExperience` is missing: `0` and `null` pass the test. An empty skill
      list passes too, because an array is always truthy. */
  lemma PresenceTests(s: Session, title: string, description: string, hr: seq<Profile>)
    requires s.user.role == Some(HR) && title != "" && description != ""
    ensures Guard(Some(s), CreateJobBody(Val(title), Val(description), Undefined, Val([])), hr) == Err(MissingFields)
    ensures Guard(Some(s), CreateJobBody(Val(title), Val(description), Val(0), Val([])), hr) != Err(MissingFields)
    ensures Guard(Some(s), CreateJobBody(Val(title), Val(description), Null, Val([])), hr) != Err(MissingFields)
    ensures Guard(Some(s), CreateJobBody(Val(title), Val(description), Val(0), Null), hr) == Err(MissingFields)
  {
  }

  /** In a consistent repository the job is attached to the profile of the signed-in user, and
      that user is an HR account. */
  lemma JobBelongsToSessionUser(users: seq<User>, hr: seq<Profile>, candidates: seq<Profile>, jobs: seq<Job>,
                                s: Session, body: CreateJobBody)
    requires Consistent(users, hr, candidates, jobs)
    requires Guard(Some(s), body, hr).Ok?
    ensures var p := Guard(Some(s), body, hr).value.profile;
            p.id < |hr| && hr[p.id] == p && p.userId == s.user.id.value
            && p.userId < |users| && users[p.userId].role == HR
  {
    var p := Guard(Some(s), body, hr).value.profile;
    var k :| 0 <= k < |hr| && hr[k] == p;
  }

  // ---------------------------------------------------------------------------------------
  // The session the handler actually sees

  /** As written, the `session` callback leaves NextAuth's default session untouched, and that
      session has no role: every signed-in request to this endpoint is refused with 403, HR
      accounts included. */
  lemma AsWrittenSessionAlwaysForbidden(token: Token, name: Option<string>, picture: Option<string>, now: int,
                                        body: CreateJobBody, hr: seq<Profile>)
    ensures Guard(Some(SessionCallback(DefaultSession(token, name, picture, now), token)), body, hr)
            == Err(Forbidden)
  {
  }

  /** With the claims copied into the session, an HR user who signed in gets past the session
      and role checks, and a complete request from a user with an HR profile is accepted for
      that user's own profile. */
  lemma IntendedSessionAdmitsHr(c: Claims, name: Option<string>, picture: Option<string>, now: int,
                                body: CreateJobBody, hr: seq<Profile>)
    requires c.role == HR
    ensures var t := StampedToken(c);
            var r := Guard(Some(SessionWithClaims(DefaultSession(t, name, picture, now), t)), body, hr);
            && r != Err(Unauthorized) && r != Err(Forbidden)
            && (FieldsPresent(body) && HasProfile(hr, c.id) ==> r.Ok? && r.value.profile.userId == c.id)
  {
  }
}
