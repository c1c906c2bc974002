/** The account repository the handlers talk to: the user, HR-profile, candidate-profile and
    job tables. Each table is a sequence in insertion order, and a record's id is its position,
    so the repository hands out fresh ids without a separate generator. */
module Store {
  import opened Wrappers
  import opened Text
  import opened Roles

  type UserId = nat

  /** A user row. `password` holds the bcrypt digest, never the plain text. */
  datatype User = User(id: UserId, email: string, username: string, fullname: string,
                       password: string, role: Role, createdAt: int)

  /** An `HRProfile` or `CandidateProfile` row: one per user of the matching role. */
  datatype Profile = Profile(id: nat, userId: UserId)

  /** A `JobSkill` row as the job handler creates it: `skillId` is passed through from the
      request untouched. */
  datatype JobSkill = JobSkill(skillId: Js<string>, weight: int, required: bool)

  /** A `Job` row; `minExperience` is `None` when the request sent `null`. */
  datatype Job = Job(id: nat, title: string, description: string, minExperience: Option<int>,
                     hrId: nat, jobSkills: seq<JobSkill>)

  /** Where a repository write inside the registration transaction can fail. */
  datatype Fault = NoFault | UserWriteFails | ProfileWriteFails

  /** `findUnique({ where: { email } })` found a row. */
  predicate EmailTaken(users: seq<User>, email: string) {
    exists i :: 0 <= i < |users| && users[i].email == email
  }

  /** `findUnique({ where: { username } })` found a row. */
  predicate UsernameTaken(users: seq<User>, username: string) {
    exists i :: 0 <= i < |users| && users[i].username == username
  }

  predicate HasProfile(profiles: seq<Profile>, userId: UserId) {
    exists k :: 0 <= k < |profiles| && profiles[k].userId == userId
  }

  /** `findUnique({ where: { userId } })` on a profile table. */
  function ProfileOf(profiles: seq<Profile>, userId: UserId): (r: Option<Profile>)
    ensures r.Some? ==> r.value in profiles && r.value.userId == userId
    ensures r.None? <==> !HasProfile(profiles, userId)
  {
    if profiles == [] then None
    else if profiles[0].userId == userId then Some(profiles[0])
    else
      var r := ProfileOf(profiles[1..], userId);
      assert HasProfile(profiles, userId) ==> HasProfile(profiles[1..], userId) by {
        if HasProfile(profiles, userId) {
          var k :| 0 <= k < |profiles| && profiles[k].userId == userId;
          assert profiles[1..][k - 1].userId == userId;
        }
      }
      r
  }

  /** A profile table whose ids are positions, that points only at users of `role`, and that
      holds at most one profile per user. */
  predicate ProfileTable(profiles: seq<Profile>, users: seq<User>, role: Role) {
    && (forall k :: 0 <= k < |profiles| ==>
          profiles[k].id == k && profiles[k].userId < |users| && users[profiles[k].userId].role == role)
    && (forall k, l :: 0 <= k < l < |profiles| ==> profiles[k].userId != profiles[l].userId)
  }

  /** The repository's integrity: ids are positions; e-mail and username are each unique
      (the unique constraints); every HR user has an HR profile and every candidate a
      candidate profile, profiles of each kind being unique per user and pointing only at users
      of their own role; every job belongs to an existing HR profile. */
  predicate Consistent(users: seq<User>, hr: seq<Profile>, candidates: seq<Profile>, jobs: seq<Job>) {
    && (forall i :: 0 <= i < |users| ==> users[i].id == i)
    && (forall i, j :: 0 <= i < j < |users| ==>
          users[i].email != users[j].email && users[i].username != users[j].username)
    && ProfileTable(hr, users, HR)
    && ProfileTable(candidates, users, CANDIDATE)
    && (forall i :: 0 <= i < |users| && users[i].role == HR ==> HasProfile(hr, i))
    && (forall i :: 0 <= i < |users| && users[i].role == CANDIDATE ==> HasProfile(candidates, i))
    && (forall k :: 0 <= k < |jobs| ==> jobs[k].id == k && jobs[k].hrId < |hr|)
  }

  /** The profiles of `profiles` that belong to user `userId`. */
  function ProfileIndices(profiles: seq<Profile>, userId: UserId): set<nat> {
    set k | 0 <= k < |profiles| && profiles[k].userId == userId
  }

  /** In a consistent repository a user of role R has exactly one profile of kind R and none of
      the other kind; an administrator has none. */
  lemma ExactlyOneProfile(users: seq<User>, hr: seq<Profile>, candidates: seq<Profile>, jobs: seq<Job>, i: UserId)
    requires Consistent(users, hr, candidates, jobs) && i < |users|
    ensures |ProfileIndices(hr, i)| == (if users[i].role == HR then 1 else 0)
    ensures |ProfileIndices(candidates, i)| == (if users[i].role == CANDIDATE then 1 else 0)
  {
    OwnProfileCount(users, hr, HR, i);
    OwnProfileCount(users, candidates, CANDIDATE, i);
  }

  lemma OwnProfileCount(users: seq<User>, profiles: seq<Profile>, role: Role, i: UserId)
    requires ProfileTable(profiles, users, role) && i < |users|
    requires users[i].role == role ==> HasProfile(profiles, i)
    ensures |ProfileIndices(profiles, i)| == (if users[i].role == role then 1 else 0)
  {
    if users[i].role == role {
      var k :| 0 <= k < |profiles| && profiles[k].userId == i;
      assert ProfileIndices(profiles, i) == {k};
    } else {
      assert ProfileIndices(profiles, i) == {};
    }
  }

  class AccountStore {
    var users: seq<User>
    var hrProfiles: seq<Profile>
    var candidateProfiles: seq<Profile>
    var jobs: seq<Job>

    predicate Valid()
      reads this
    {
      Consistent(users, hrProfiles, candidateProfiles, jobs)
    }

    constructor ()
      ensures Valid()
      ensures users == [] && hrProfiles == [] && candidateProfiles == [] && jobs == []
    {
      users, hrProfiles, candidateProfiles, jobs := [], [], [], [];
    }

    /** The `$transaction` of the registration handler: create the user row, then the profile
        of its role, all or nothing. A unique-constraint violation or a failing write aborts
        the transaction and leaves every table as it was. */
    method CreateAccount(email: string, username: string, fullname: string, password: string,
                         role: Role, createdAt: int, fault: Fault) returns (created: Option<User>)
      requires Valid()
      modifies this
      ensures Valid()
      ensures created.None? <==>
                fault == UserWriteFails || EmailTaken(old(users), email) || UsernameTaken(old(users), username)
                || (fault == ProfileWriteFails && role != ADMIN)
      ensures created.None? ==>
                users == old(users) && hrProfiles == old(hrProfiles)
                && candidateProfiles == old(candidateProfiles) && jobs == old(jobs)
      ensures created.Some? ==>
                && created.value == User(|old(users)|, email, username, fullname, password, role, createdAt)
                && users == old(users) + [created.value]
                && hrProfiles == old(hrProfiles)
                     + (if role == HR then [Profile(|old(hrProfiles)|, created.value.id)] else [])
                && candidateProfiles == old(candidateProfiles)
                     + (if role == CANDIDATE then [Profile(|old(candidateProfiles)|, created.value.id)] else [])
                && jobs == old(jobs)
    {
      if fault == UserWriteFails || EmailTaken(users, email) || UsernameTaken(users, username) {
        return None;
      }
      var rollback := users;
      var user := User(|users|, email, username, fullname, password, role, createdAt);
      users := users + [user];
      if role == HR {
        if fault == ProfileWriteFails {
          users := rollback;
          return None;
        }
        hrProfiles := hrProfiles + [Profile(|hrProfiles|, user.id)];
      }
      if role == CANDIDATE {
        if fault == ProfileWriteFails {
          users := rollback;
          return None;
        }
        candidateProfiles := candidateProfiles + [Profile(|candidateProfiles|, user.id)];
      }
      AccountAddedKeepsConsistency(rollback, old(hrProfiles), old(candidateProfiles), jobs, user,
                                   hrProfiles, candidateProfiles);
      return Some(user);
    }

    /** `prisma.job.create` with its nested `jobSkills` create. */
    method CreateJob(title: string, description: string, minExperience: Option<int>, hrId: nat,
                     jobSkills: seq<JobSkill>) returns (job: Job)
      requires Valid() && hrId < |hrProfiles|
      modifies this
      ensures Valid()
      ensures job == Job(|old(jobs)|, title, description, minExperience, hrId, jobSkills)
      ensures jobs == old(jobs) + [job]
      ensures users == old(users) && hrProfiles == old(hrProfiles)
      ensures candidateProfiles == old(candidateProfiles)
    {
      job := Job(|jobs|, title, description, minExperience, hrId, jobSkills);
      jobs := jobs + [job];
    }
  }

  lemma AccountAddedKeepsConsistency(users: seq<User>, hr: seq<Profile>, candidates: seq<Profile>,
                                     jobs: seq<Job>, user: User, hr': seq<Profile>, candidates': seq<Profile>)
    requires Consistent(users, hr, candidates, jobs)
    requires user.id == |users| && !EmailTaken(users, user.email) && !UsernameTaken(users, user.username)
    requires hr' == hr + (if user.role == HR then [Profile(|hr|, user.id)] else [])
    requires candidates' == candidates + (if user.role == CANDIDATE then [Profile(|candidates|, user.id)] else [])
    ensures Consistent(users + [user], hr', candidates', jobs)
  {
    UserAddedStaysUnique(users, user);
    ProfileAdded(users, hr, HR, user, hr');
    ProfileAdded(users, candidates, CANDIDATE, user, candidates');
  }

  lemma UserAddedStaysUnique(users: seq<User>, user: User)
    requires forall i :: 0 <= i < |users| ==> users[i].id == i
    requires forall i, j :: 0 <= i < j < |users| ==>
               users[i].email != users[j].email && users[i].username != users[j].username
    requires user.id == |users| && !EmailTaken(users, user.email) && !UsernameTaken(users, user.username)
    ensures forall i :: 0 <= i < |users + [user]| ==> (users + [user])[i].id == i
    ensures forall i, j :: 0 <= i < j < |users + [user]| ==>
              (users + [user])[i].email != (users + [user])[j].email
              && (users + [user])[i].username != (users + [user])[j].username
  {
    var users' := users + [user];
    forall i, j | 0 <= i < j < |users'|
      ensures users'[i].email != users'[j].email && users'[i].username != users'[j].username
    {
      if j == |users| {
        assert users'[i] == users[i];
      }
    }
  }

  /** Adding `user`, and a profile of kind `role` for it when it has that role, keeps a profile
      table well formed and keeps every user of that role covered. */
  lemma ProfileAdded(users: seq<User>, profiles: seq<Profile>, role: Role, user: User, profiles': seq<Profile>)
    requires ProfileTable(profiles, users, role)
    requires forall i :: 0 <= i < |users| && users[i].role == role ==> HasProfile(profiles, i)
    requires user.id == |users|
    requires profiles' == profiles + (if user.role == role then [Profile(|profiles|, user.id)] else [])
    ensures ProfileTable(profiles', users + [user], role)
    ensures forall i :: 0 <= i < |users + [user]| && (users + [user])[i].role == role ==> HasProfile(profiles', i)
  {
    var users' := users + [user];
    forall i | 0 <= i < |users'| && users'[i].role == role ensures HasProfile(profiles', i) {
      if i < |users| {
        var k :| 0 <= k < |profiles| && profiles[k].userId == i;
        assert profiles'[k] == profiles[k];
      } else {
        assert profiles'[|profiles|].userId == i;
      }
    }
  }
}
