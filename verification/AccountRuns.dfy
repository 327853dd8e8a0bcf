/** Serial runs of logins, refreshes, logouts, user updates and deletions. */
module AccountRuns {
  import opened Prelude
  import opened Accounts

  /** The database, and each user's successful logins since all their sessions were last revoked. */
  datatype State = State(db: Db, logins: map<UserId, nat>)

  datatype Step =
    | LogIn(found: Option<UserId>, passwordOk: bool, next: Token, now: Time)
    | RefreshTokens(token: Token, next: Token, now: Time)
    | LogOut(token: Token, now: Time)
    | ChangeUser(caller: Caller, id: UserId, u: Update, passwordOk: bool, newHash: Hash, now: Time)
    | RemoveUser(caller: Caller, id: UserId, now: Time)
    | AddUser(id: UserId, user: User)
    | SetOrganizations(orgs: map<OrgId, Organization>)

  /** Issued tokens are new, and so are the ids of added users. */
  ghost predicate Enabled(s: State, step: Step) {
    match step
    case LogIn(_, _, next, _) => next !in s.db.sessions
    case RefreshTokens(_, next, _) => next !in s.db.sessions
    case AddUser(id, _) => id !in s.db.users
    case _ => true
  }

  function Logins(s: State, user: UserId): nat {
    if user in s.logins then s.logins[user] else 0
  }

  ghost function Next(s: State, step: Step): State {
    match step
    case LogIn(found, passwordOk, next, now) =>
      (match Login(s.db, found, passwordOk, next, now)
       case Ok(db) => State(db, s.logins[found.value := Logins(s, found.value) + 1])
       case Err(_) => s)
    case RefreshTokens(token, next, now) => s.(db := Refresh(s.db, token, next, now).0)
    case LogOut(token, now) => s.(db := Logout(s.db, token, now))
    case ChangeUser(caller, id, u, passwordOk, newHash, now) =>
      (match UpdateUser(s.db, caller, id, u, passwordOk, newHash, now)
       case Ok(db) =>
         State(db, if u.password.Some? || db.users[id].status != Active then s.logins[id := 0] else s.logins)
       case Err(_) => s)
    case RemoveUser(caller, id, now) =>
      (match DeleteUser(s.db, caller, id, now)
       case Ok(db) => State(db, s.logins[id := 0])
       case Err(_) => s)
    case AddUser(id, user) => s.(db := s.db.(users := s.db.users[id := user]))
    case SetOrganizations(orgs) => s.(db := s.db.(orgs := orgs))
  }

  /** A run that starts without sessions. */
  ghost predicate IsRun(tr: seq<State>, steps: seq<Step>) {
    && |tr| == |steps| + 1
    && tr[0].db.sessions == map[]
    && forall i {:trigger steps[i]} | 0 <= i < |steps| :: Enabled(tr[i], steps[i]) && tr[i + 1] == Next(tr[i], steps[i])
  }

  // ----- invariants -----

  ghost function Unrevoked(db: Db, user: UserId): set<Token> {
    set token | token in db.sessions && db.sessions[token].user == user && db.sessions[token].revokedAt.None?
  }

  /** An unrevoked session belongs to an active account. */
  ghost predicate SessionInv(db: Db, token: Token)
    requires token in db.sessions
  {
    db.sessions[token].revokedAt.None? ==>
      var user := db.sessions[token].user;
      user in db.users && db.users[user].deletedAt.None? && db.users[user].status == Active
  }

  ghost predicate Inv(s: State) {
    && (forall token | token in s.db.sessions :: SessionInv(s.db, token))
    && (forall user :: |Unrevoked(s.db, user)| <= Logins(s, user))
  }

  lemma StepKeepsSessions(s: State, step: Step, token: Token)
    requires Inv(s) && Enabled(s, step) && token in Next(s, step).db.sessions
    ensures SessionInv(Next(s, step).db, token)
  {
    if token in s.db.sessions {
      assert SessionInv(s.db, token);
    }
  }

  lemma UnrevokedAfterIssue(db: Db, owner: UserId, next: Token, now: Time, user: UserId)
    requires next !in db.sessions
    ensures |Unrevoked(Issued(db, owner, next, now), user)| == |Unrevoked(db, user)| + if user == owner then 1 else 0
  {
    var after := Unrevoked(Issued(db, owner, next, now), user);
    assert after == if user == owner then Unrevoked(db, user) + {next} else Unrevoked(db, user);
  }

  lemma UnrevokedAfterRevoke(db: Db, token: Token, now: Time, user: UserId)
    requires token in db.sessions && db.sessions[token].revokedAt.None?
    ensures |Unrevoked(Revoked(db, token, now), user)| ==
            |Unrevoked(db, user)| - if user == db.sessions[token].user then 1 else 0
  {
    var after := Unrevoked(Revoked(db, token, now), user);
    assert after == Unrevoked(db, user) - {token};
  }

  lemma UnrevokedAfterRevokeAll(db: Db, owner: UserId, now: Time, user: UserId)
    ensures |Unrevoked(RevokedAll(db, owner, now), user)| == if user == owner then 0 else |Unrevoked(db, user)|
  {
    var after := Unrevoked(RevokedAll(db, owner, now), user);
    assert after == if user == owner then {} else Unrevoked(db, user);
  }

  lemma SameSessionsSameCount(db: Db, db': Db, user: UserId)
    requires db.sessions == db'.sessions
    ensures Unrevoked(db, user) == Unrevoked(db', user)
  {
  }

  lemma RefreshKeepsCounts(db: Db, token: Token, next: Token, now: Time, user: UserId)
    requires next !in db.sessions
    ensures |Unrevoked(Refresh(db, token, next, now).0, user)| <= |Unrevoked(db, user)|
    ensures Refresh(db, token, next, now).1 ==>
              |Unrevoked(Refresh(db, token, next, now).0, user)| == |Unrevoked(db, user)|
  {
    if HasActiveSession(db, token, now) {
      UnrevokedAfterRevoke(db, token, now, user);
      UnrevokedAfterIssue(Revoked(db, token, now), db.sessions[token].user, next, now, user);
    }
  }

  lemma ChangeKeepsCounts(s: State, step: Step, user: UserId)
    requires step.ChangeUser? || step.RemoveUser?
    requires |Unrevoked(s.db, user)| <= Logins(s, user)
    ensures |Unrevoked(Next(s, step).db, user)| <= Logins(Next(s, step), user)
  {
    var written := if step.ChangeUser? && step.id in s.db.users
                   then s.db.(users := s.db.users[step.id := WithUpdate(s.db.users[step.id], step.u, step.newHash)])
                   else if step.RemoveUser? && step.id in s.db.users
                   then s.db.(users := s.db.users[step.id := Deleted(s.db.users[step.id], step.caller.id, step.now)])
                   else s.db;
    SameSessionsSameCount(s.db, written, user);
    UnrevokedAfterRevokeAll(written, step.id, step.now, user);
  }

  lemma StepKeepsCounts(s: State, step: Step, user: UserId)
    requires |Unrevoked(s.db, user)| <= Logins(s, user) && Enabled(s, step)
    ensures |Unrevoked(Next(s, step).db, user)| <= Logins(Next(s, step), user)
  {
    match step
    case LogIn(found, passwordOk, next, now) =>
      if Login(s.db, found, passwordOk, next, now).Ok? {
        UnrevokedAfterIssue(s.db, found.value, next, now, user);
      }
    case RefreshTokens(token, next, now) => RefreshKeepsCounts(s.db, token, next, now, user);
    case LogOut(token, now) => if HasActiveSession(s.db, token, now) { UnrevokedAfterRevoke(s.db, token, now, user); }
    case AddUser(_, _) => SameSessionsSameCount(s.db, Next(s, step).db, user);
    case SetOrganizations(_) => SameSessionsSameCount(s.db, Next(s, step).db, user);
    case _ => ChangeKeepsCounts(s, step, user);
  }

  lemma {:induction false} RunKeepsInv(tr: seq<State>, steps: seq<Step>, i: nat)
    requires IsRun(tr, steps) && i < |tr|
    ensures Inv(tr[i])
  {
    if i == 0 {
      assert forall user :: Unrevoked(tr[0].db, user) == {};
    } else {
      RunKeepsInv(tr, steps, i - 1);
      forall token | token in tr[i].db.sessions ensures SessionInv(tr[i].db, token) {
        StepKeepsSessions(tr[i - 1], steps[i - 1], token);
      }
      forall user ensures |Unrevoked(tr[i].db, user)| <= Logins(tr[i], user) {
        StepKeepsCounts(tr[i - 1], steps[i - 1], user);
      }
    }
  }

  // ----- what every run shows -----

  /** A user's unrevoked sessions never exceed the successful logins since the last revoke-all,
      and a deleted or non-active user has none. */
  lemma SessionsAreCountedByLogins(tr: seq<State>, steps: seq<Step>, i: nat, user: UserId)
    requires IsRun(tr, steps) && i < |tr|
    ensures |Unrevoked(tr[i].db, user)| <= Logins(tr[i], user)
    ensures user !in tr[i].db.users || tr[i].db.users[user].deletedAt.Some? || tr[i].db.users[user].status != Active ==>
              Unrevoked(tr[i].db, user) == {}
  {
    RunKeepsInv(tr, steps, i);
    assert forall token | token in Unrevoked(tr[i].db, user) :: SessionInv(tr[i].db, token);
  }

  /** Sessions are never dropped, and `revoked_at` never changes once it is set. */
  lemma {:induction false} RevocationIsFinal(tr: seq<State>, steps: seq<Step>, i: nat, j: nat, token: Token)
    requires IsRun(tr, steps) && i <= j < |tr| && token in tr[i].db.sessions
    ensures token in tr[j].db.sessions
    ensures tr[i].db.sessions[token].revokedAt.Some? ==>
              tr[j].db.sessions[token].revokedAt == tr[i].db.sessions[token].revokedAt
    decreases j
  {
    if i < j {
      RevocationIsFinal(tr, steps, i, j - 1, token);
      RunStepKeepsRevocation(tr, steps, j - 1, token);
    }
  }

  lemma RunStepKeepsRevocation(tr: seq<State>, steps: seq<Step>, k: nat, token: Token)
    requires IsRun(tr, steps) && k < |steps| && token in tr[k].db.sessions
    ensures token in tr[k + 1].db.sessions
    ensures tr[k].db.sessions[token].revokedAt.Some? ==>
              tr[k + 1].db.sessions[token].revokedAt == tr[k].db.sessions[token].revokedAt
  {
    StepKeepsRevocation(tr[k], steps[k], token);
  }

  lemma StepKeepsRevocation(s: State, step: Step, token: Token)
    requires Enabled(s, step) && token in s.db.sessions
    ensures token in Next(s, step).db.sessions
    ensures s.db.sessions[token].revokedAt.Some? ==>
              Next(s, step).db.sessions[token].revokedAt == s.db.sessions[token].revokedAt
  {}

  /** The step at `i` is a refresh with `token` that issued new tokens. */
  ghost predicate AcceptsRefresh(tr: seq<State>, steps: seq<Step>, i: nat, token: Token)
    requires |tr| == |steps| + 1 && i < |steps|
  {
    steps[i].RefreshTokens? && steps[i].token == token && Refresh(tr[i].db, token, steps[i].next, steps[i].now).1
  }

  /** Rotation: no refresh token is accepted twice. */
  lemma RefreshIsAcceptedOnce(tr: seq<State>, steps: seq<Step>, i: nat, j: nat, token: Token)
    requires IsRun(tr, steps) && i < |steps| && j < |steps|
    requires AcceptsRefresh(tr, steps, i, token) && AcceptsRefresh(tr, steps, j, token)
    ensures i == j
  {
    if i < j {
      RevocationIsFinal(tr, steps, i + 1, j, token);
    } else if j < i {
      RevocationIsFinal(tr, steps, j + 1, i, token);
    }
  }

  lemma StepKeepsAnAdmin(s: State, step: Step, org: OrgId)
    requires HasAdmin(s.db, org) && Enabled(s, step)
    ensures HasAdmin(Next(s, step).db, org)
  {
    match step
    case ChangeUser(caller, id, u, passwordOk, newHash, now) =>
      UpdateKeepsAnAdmin(s.db, caller, id, u, passwordOk, newHash, now, org);
    case RemoveUser(caller, id, now) => DeleteKeepsAnAdmin(s.db, caller, id, now, org);
    case _ =>
      var admin :| admin in s.db.users && ActiveAdmin(s.db.users[admin], org);
      assert admin in Next(s, step).db.users && ActiveAdmin(Next(s, step).db.users[admin], org);
  }

  /** An organization that has an active admin keeps one for ever. */
  lemma {:induction false} AnAdminIsKept(tr: seq<State>, steps: seq<Step>, i: nat, j: nat, org: OrgId)
    requires IsRun(tr, steps) && i <= j < |tr| && HasAdmin(tr[i].db, org)
    ensures HasAdmin(tr[j].db, org)
    decreases j
  {
    if i < j {
      AnAdminIsKept(tr, steps, i, j - 1, org);
      StepKeepsAnAdmin(tr[j - 1], steps[j - 1], org);
    }
  }
}
