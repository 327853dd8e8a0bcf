/** Who may sign in, refresh, change and delete, on the columns of users, organizations and sessions,
    and what each call leaves alone. */
module AccountRules {
  import opened Prelude
  import opened Accounts
  import opened AccountRuns

  const SEVEN_DAYS: int := 7 * 86_400 * 1_000_000

  /** Not deleted, active, and in no organization or in one that is there, not deleted and not
      suspended. */
  predicate InGoodStanding(db: Db, id: UserId) {
    && id in db.users && db.users[id].deletedAt.None? && db.users[id].status == Active
    && (match db.users[id].org
        case None => true
        case Some(org) => org in db.orgs && !db.orgs[org].deleted && !db.orgs[org].suspended)
  }

  // ----- sessions -----

  /** A login needs a known address, a password that is set and right, and an account that is not
      deleted; of those it turns away the ones not in good standing. It adds one session, good for
      seven days. */
  lemma LoginIsExact(db: Db, found: Option<UserId>, passwordOk: bool, next: Token, now: Time)
    ensures var known := found.Some? && found.value in db.users && db.users[found.value].passwordHash.Some?
                         && passwordOk && db.users[found.value].deletedAt.None?;
            Login(db, found, passwordOk, next, now) ==
            if !known then Err(InvalidCredentials)
            else if !InGoodStanding(db, found.value) then Err(InactiveAccount)
            else Ok(db.(sessions := db.sessions[next := Session(found.value, now + SEVEN_DAYS, None)]))
  {}

  /** Unrevoked, and presented before it has expired. */
  predicate IsGood(db: Db, token: Token, now: Time) {
    token in db.sessions && db.sessions[token].revokedAt.None? && now <= db.sessions[token].expiresAt
  }

  /** A refresh accepts good sessions of accounts in good standing; it revokes every good session it
      is shown, and touches nothing else but the one it issues, to the same user, for seven days. */
  lemma RefreshIsExact(db: Db, token: Token, next: Token, now: Time)
    requires next !in db.sessions
    ensures var (after, accepted) := Refresh(db, token, next, now);
            && (accepted <==> IsGood(db, token, now) && InGoodStanding(db, db.sessions[token].user))
            && (accepted <==> next in after.sessions)
            && (accepted ==> after.sessions[next] == Session(db.sessions[token].user, now + SEVEN_DAYS, None))
            && after == db.(sessions := after.sessions) && after.sessions.Keys - {next} == db.sessions.Keys
            && (forall t | t in db.sessions :: after.sessions[t] ==
                  if t == token && IsGood(db, token, now) then db.sessions[t].(revokedAt := Some(now))
                  else db.sessions[t])
  {}

  lemma LogoutIsExact(db: Db, token: Token, now: Time)
    ensures var after := Logout(db, token, now);
            && after == db.(sessions := after.sessions) && after.sessions.Keys == db.sessions.Keys
            && (forall t | t in db.sessions :: after.sessions[t] ==
                  if t == token && IsGood(db, token, now) then db.sessions[t].(revokedAt := Some(now))
                  else db.sessions[t])
  {}

  /** Step j of a run is the login or the refresh that issued the token. */
  ghost predicate Issues(tr: seq<State>, steps: seq<Step>, j: nat, token: Token) {
    j < |steps| < |tr| && (steps[j].LogIn? || steps[j].RefreshTokens?) && steps[j].next == token
    && token !in tr[j].db.sessions && token in tr[j + 1].db.sessions
  }

  lemma StepKeepsSession(s: State, step: Step, token: Token)
    requires Enabled(s, step) && token in s.db.sessions
    ensures token in Next(s, step).db.sessions
    ensures Next(s, step).db.sessions[token].expiresAt == s.db.sessions[token].expiresAt
    ensures Next(s, step).db.sessions[token].user == s.db.sessions[token].user
  {}

  lemma NewSession(s: State, step: Step, token: Token)
    requires Enabled(s, step) && token !in s.db.sessions && token in Next(s, step).db.sessions
    ensures (step.LogIn? || step.RefreshTokens?) && step.next == token
    ensures Next(s, step).db.sessions[token].expiresAt == step.now + SEVEN_DAYS
  {}

  /** Every session was issued by some step of the run, and expires seven days after it. */
  lemma {:induction false} SessionHasAnIssue(tr: seq<State>, steps: seq<Step>, i: nat, token: Token) returns (j: nat)
    requires IsRun(tr, steps) && i < |tr| && token in tr[i].db.sessions
    ensures j < i && Issues(tr, steps, j, token)
    ensures tr[i].db.sessions[token].expiresAt == steps[j].now + SEVEN_DAYS
  {
    var s, step := tr[i - 1], steps[i - 1];
    assert tr[i] == Next(s, step);
    if token in s.db.sessions {
      j := SessionHasAnIssue(tr, steps, i - 1, token);
      StepKeepsSession(s, step, token);
    } else {
      j := i - 1;
      NewSession(s, step, token);
    }
  }

  lemma OneIssueAToken(tr: seq<State>, steps: seq<Step>, a: nat, b: nat, token: Token)
    requires IsRun(tr, steps) && Issues(tr, steps, a, token) && Issues(tr, steps, b, token)
    ensures a == b
  {
    if a < b {
      RevocationIsFinal(tr, steps, a + 1, b, token);
    } else if b < a {
      RevocationIsFinal(tr, steps, b + 1, a, token);
    }
  }

  /** In any run a refresh is accepted if and only if its token was issued by an earlier login or
      refresh no more than seven days before, has not been revoked since, and belongs to an account in
      good standing. */
  lemma RefreshIsAcceptedIff(tr: seq<State>, steps: seq<Step>, i: nat)
    requires IsRun(tr, steps) && i < |steps| && steps[i].RefreshTokens?
    ensures var db, token := tr[i].db, steps[i].token;
            Refresh(db, token, steps[i].next, steps[i].now).1 <==>
              exists j: nat :: Issues(tr, steps, j, token) && j < i && steps[i].now <= steps[j].now + SEVEN_DAYS
                          && token in db.sessions && db.sessions[token].revokedAt.None?
                          && InGoodStanding(db, db.sessions[token].user)
  {
    var db, token := tr[i].db, steps[i].token;
    RefreshIsExact(db, token, steps[i].next, steps[i].now);
    if token in db.sessions {
      var origin := SessionHasAnIssue(tr, steps, i, token);
      forall j: nat | Issues(tr, steps, j, token)
        ensures j == origin
      {
        OneIssueAToken(tr, steps, j, origin, token);
      }
    }
  }

  // ----- changing users -----

  /** The role, the status and the rest of the columns after a change. */
  lemma ChangeWrites(db: Db, caller: Caller, id: UserId, u: Update, passwordOk: bool, newHash: Hash, now: Time)
    requires UpdateUser(db, caller, id, u, passwordOk, newHash, now).Ok?
    ensures var after := UpdateUser(db, caller, id, u, passwordOk, newHash, now).value;
            && id in db.users && after.users.Keys == db.users.Keys
            && (forall other | other in db.users && other != id :: after.users[other] == db.users[other])
            && after.orgs == db.orgs && after.designations == db.designations
            && var was, user := db.users[id], after.users[id];
               && user.role == (if u.role.Some? then u.role.value else was.role)
               && user.status == (if u.status.Some? then u.status.value else was.status)
               && user.designation == (if u.designation.Some? then u.designation.value else was.designation)
               && user.firstName == (if u.firstName.Some? then u.firstName.value else was.firstName)
               && user.lastName == (if u.lastName.Some? then u.lastName.value else was.lastName)
               && user.passwordHash == (if u.password.Some? then Some(newHash) else was.passwordHash)
               && user.org == was.org && user.deletedAt == was.deletedAt && user.deletedBy == was.deletedBy
               && after.sessions.Keys == db.sessions.Keys
               && forall t | t in db.sessions :: after.sessions[t] ==
                    if db.sessions[t].user == id && db.sessions[t].revokedAt.None?
                       && (u.password.Some? || user.status != Active)
                    then db.sessions[t].(revokedAt := Some(now)) else db.sessions[t]
  {}

  /** What a change leaves alone. Managers and employees reach only themselves, and not their role,
      status or designation. Admins reach only users of their own organization that are not super
      admins, make nobody one, keep their own role and status, and set nobody else's password. */
  lemma ChangeStaysInBounds(db: Db, caller: Caller, id: UserId, u: Update, passwordOk: bool, newHash: Hash, now: Time)
    requires UpdateUser(db, caller, id, u, passwordOk, newHash, now).Ok?
    ensures var after := UpdateUser(db, caller, id, u, passwordOk, newHash, now).value;
            && id in db.users && after.users.Keys == db.users.Keys
            && (forall other | other in db.users && other != id :: after.users[other] == db.users[other])
            && var was, user := db.users[id], after.users[id];
               && (caller.role == Manager || caller.role == Employee ==>
                     id == caller.id && user.role == was.role && user.status == was.status
                     && user.designation == was.designation)
               && (caller.role == Admin ==>
                     was.org == caller.org && was.role != SuperAdmin && user.role != SuperAdmin
                     && (if id == caller.id then user.role == was.role && user.status == was.status
                         else user.passwordHash == was.passwordHash))
  {}

  /** The caller may make the change at all. */
  predicate MayChange(caller: Caller, id: UserId, user: User, u: Update) {
    match caller.role
    case SuperAdmin => true
    case Admin =>
      && user.role != SuperAdmin && user.org == caller.org && u.role != Some(SuperAdmin)
      && (id == caller.id ==> u.role in {None, Some(user.role)} && u.status in {None, Some(user.status)})
      && (id != caller.id ==> u.password.None?)
    case _ => id == caller.id && u.role.None? && u.status.None? && u.designation.None?
  }

  /** The organization would be left without an active admin. */
  predicate IsNeeded(db: Db, id: UserId)
    requires id in db.users
  {
    var user := db.users[id];
    user.role == Admin && user.status == Active && user.org.Some?
    && forall other | other in db.users && other != id ::
         !(db.users[other].org == user.org && db.users[other].role == Admin && db.users[other].status == Active
           && db.users[other].deletedAt.None?)
  }

  lemma NeededIsLastAdmin(db: Db, id: UserId)
    requires id in db.users
    ensures IsLastAdmin(db, id) <==> IsNeeded(db, id)
  {
    var user := db.users[id];
    if user.role == Admin && user.status == Active && user.org.Some? {
      var others := OtherActiveAdmins(db, user.org.value, id);
      if others != {} {
        var other :| other in others;
        assert ActiveAdmin(db.users[other], user.org.value);
      }
      assert |others| == 0 <==> others == {};
      assert forall other | other in db.users && other != id && ActiveAdmin(db.users[other], user.org.value) ::
          other in others;
    }
  }

  /** Nothing in the change itself is wrong: it does not take a needed admin away, the designation it
      names is the organization's, an employee keeps one, and a new password comes with the old. */
  predicate IsSound(db: Db, id: UserId, u: Update, passwordOk: bool)
    requires id in db.users
  {
    var user := db.users[id];
    && (IsNeeded(db, id) ==> u.role in {None, Some(Admin)} && u.status in {None, Some(Active)})
    && (match u.designation
        case Some(Some(d)) => d in db.designations && user.org == Some(db.designations[d])
        case Some(None) => (if u.role.Some? then u.role.value else user.role) != Employee
        case None => (if u.role.Some? then u.role.value else user.role) == Employee ==> user.designation.Some?)
    && (u.password.Some? ==> user.passwordHash.Some? && u.currentPassword.Some? && passwordOk)
  }

  lemma SoundIsNotRefused(db: Db, id: UserId, u: Update, passwordOk: bool)
    requires id in db.users
    ensures RefuseUpdate(db, id, u, passwordOk).None? <==> IsSound(db, id, u, passwordOk)
    ensures RefuseUpdate(db, id, u, passwordOk) == Some(LastAdmin) <==>
            IsNeeded(db, id) && !(u.role in {None, Some(Admin)} && u.status in {None, Some(Active)})
  {
    NeededIsLastAdmin(db, id);
  }

  /** A change goes through if and only if the user is there and not deleted, the caller may make it and
      it is sound. */
  lemma ChangeGoesThroughIff(db: Db, caller: Caller, id: UserId, u: Update, passwordOk: bool, newHash: Hash, now: Time)
    ensures UpdateUser(db, caller, id, u, passwordOk, newHash, now).Ok? <==>
            id in db.users && db.users[id].deletedAt.None? && MayChange(caller, id, db.users[id], u)
            && IsSound(db, id, u, passwordOk)
  {
    if id in db.users {
      SoundIsNotRefused(db, id, u, passwordOk);
    }
  }

  /** Which refusal it is: the first of these that holds. */
  lemma ChangeRefusals(db: Db, caller: Caller, id: UserId, u: Update, passwordOk: bool, newHash: Hash, now: Time)
    ensures var r := UpdateUser(db, caller, id, u, passwordOk, newHash, now);
            var there := id in db.users && db.users[id].deletedAt.None?;
            && (r == Err(UserNotFound) <==> !there)
            && (r == Err(InsufficientPermission) <==>
                  there && (if caller.role == Admin then db.users[id].role == SuperAdmin
                            else caller.role != SuperAdmin && id != caller.id))
            && (r == Err(CrossOrganization) <==>
                  there && caller.role == Admin && db.users[id].role != SuperAdmin && db.users[id].org != caller.org)
            && (r == Err(InvalidRoleAssignment) <==>
                  there && caller.role == Admin && db.users[id].role != SuperAdmin && db.users[id].org == caller.org
                  && u.role == Some(SuperAdmin))
            && (r == Err(FieldNotEditable) ==> there && !MayChange(caller, id, db.users[id], u))
            && (r == Err(LastAdmin) <==>
                  there && MayChange(caller, id, db.users[id], u) && IsNeeded(db, id)
                  && !(u.role in {None, Some(Admin)} && u.status in {None, Some(Active)}))
            && (r == Err(DesignationNotFound) ==>
                  there && u.designation.Some? && u.designation.value.Some?
                  && (u.designation.value.value !in db.designations
                      || db.users[id].org != Some(db.designations[u.designation.value.value])))
            && (r == Err(DesignationRequired) ==>
                  there && (if u.role.Some? then u.role.value else db.users[id].role) == Employee
                  && (if u.designation.Some? then u.designation.value else db.users[id].designation) == None)
            && (r == Err(SsoOnlyAccount) ==> there && u.password.Some? && db.users[id].passwordHash.None?)
            && (r == Err(WrongPassword) ==>
                  there && u.password.Some? && db.users[id].passwordHash.Some?
                  && (u.currentPassword.None? || !passwordOk))
  {
    if id in db.users {
      SoundIsNotRefused(db, id, u, passwordOk);
    }
  }

  // ----- deleting users -----

  /** A delete is refused for a missing or deleted user, then for the caller's own account, then, unless
      the caller is a super admin, outside the caller's organization or for a super admin, then for an
      admin the organization needs. Otherwise the user and the user's unrevoked sessions are stamped,
      and nothing else changes. */
  lemma DeleteIsExact(db: Db, caller: Caller, id: UserId, now: Time)
    ensures var r := DeleteUser(db, caller, id, now);
            if id !in db.users || db.users[id].deletedAt.Some? then r == Err(UserNotFound)
            else if id == caller.id then r == Err(CannotDeleteSelf)
            else if caller.role != SuperAdmin && (db.users[id].org != caller.org || db.users[id].role == SuperAdmin)
            then r == Err(CannotDeletePrivileged)
            else if IsNeeded(db, id) then r == Err(LastAdmin)
            else
              && r.Ok? && r.value.orgs == db.orgs && r.value.designations == db.designations
              && r.value.users ==
                 db.users[id := db.users[id].(deletedAt := Some(now), deletedBy := Some(caller.id))]
              && r.value.sessions.Keys == db.sessions.Keys
              && forall t | t in db.sessions :: r.value.sessions[t] ==
                   if db.sessions[t].user == id && db.sessions[t].revokedAt.None?
                   then db.sessions[t].(revokedAt := Some(now)) else db.sessions[t]
  {
    if id in db.users {
      NeededIsLastAdmin(db, id);
    }
  }
}
