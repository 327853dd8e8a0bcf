/** Users, organizations and refresh sessions as values, and what each service call does to them.
    Password checks, fresh tokens and fresh hashes are arguments. */
module Accounts {
  import opened Prelude

  type UserId = nat
  type OrgId = nat
  type DesignationId = nat
  type Token = nat
  type Hash = nat
  type Time = int

  const REFRESH_TOKEN_LIFETIME: int := 7 * 24 * 3600 * 1_000_000

  datatype Role = SuperAdmin | Admin | Manager | Employee
  datatype UserStatus = Invited | Active | Suspended

  datatype User = User(
    org: Option<OrgId>,
    designation: Option<DesignationId>,
    passwordHash: Option<Hash>,
    firstName: Option<string>,
    lastName: Option<string>,
    role: Role,
    status: UserStatus,
    deletedAt: Option<Time>,
    deletedBy: Option<UserId>)

  datatype Organization = Organization(suspended: bool, deleted: bool)

  /** Stored under the hash of its refresh token; equal hashes mean equal tokens. */
  datatype Session = Session(user: UserId, expiresAt: Time, revokedAt: Option<Time>)

  datatype Db = Db(
    users: map<UserId, User>,
    orgs: map<OrgId, Organization>,
    designations: map<DesignationId, OrgId>,
    sessions: map<Token, Session>)

  datatype Error =
    | InvalidCredentials | InactiveAccount | InvalidRefreshToken
    | UserNotFound | InsufficientPermission | CrossOrganization | InvalidRoleAssignment
    | FieldNotEditable | DesignationNotFound | DesignationRequired | SsoOnlyAccount | WrongPassword
    | CannotDeleteSelf | CannotDeletePrivileged | LastAdmin

  // ----- sessions -----

  function OrganizationOf(db: Db, user: User): Option<Organization> {
    if user.org.Some? && user.org.value in db.orgs then Some(db.orgs[user.org.value]) else None
  }

  predicate IsAccountUsable(user: User, org: Option<Organization>) {
    && user.deletedAt.None?
    && user.status == Active
    && (user.org.None? || (org.Some? && !org.value.deleted && !org.value.suspended))
  }

  predicate Usable(db: Db, user: User) {
    IsAccountUsable(user, OrganizationOf(db, user))
  }

  function Issued(db: Db, user: UserId, next: Token, now: Time): Db {
    db.(sessions := db.sessions[next := Session(user, now + REFRESH_TOKEN_LIFETIME, None)])
  }

  function Revoked(db: Db, token: Token, now: Time): Db
    requires token in db.sessions
  {
    db.(sessions := db.sessions[token := db.sessions[token].(revokedAt := Some(now))])
  }

  function RevokedAll(db: Db, user: UserId, now: Time): Db {
    db.(sessions := map token | token in db.sessions ::
          var session := db.sessions[token];
          if session.user == user && session.revokedAt.None? then session.(revokedAt := Some(now)) else session)
  }

  predicate HasActiveSession(db: Db, token: Token, now: Time) {
    token in db.sessions && db.sessions[token].revokedAt.None? && db.sessions[token].expiresAt >= now
  }

  /** `found` is the user with the given email, and `passwordOk` the password check on its hash. */
  function Login(db: Db, found: Option<UserId>, passwordOk: bool, next: Token, now: Time): Result<Db, Error> {
    if found.None? || found.value !in db.users || db.users[found.value].passwordHash.None? then Err(InvalidCredentials)
    else if !passwordOk then Err(InvalidCredentials)
    else
      var user := db.users[found.value];
      if user.deletedAt.Some? then Err(InvalidCredentials)
      else if !Usable(db, user) then Err(InactiveAccount)
      else Ok(Issued(db, found.value, next, now))
  }

  /** The new state, and whether new tokens were issued; a session of an unusable account is
      revoked even though the refresh is refused. */
  function Refresh(db: Db, token: Token, next: Token, now: Time): (Db, bool) {
    if !HasActiveSession(db, token, now) then (db, false)
    else
      var id := db.sessions[token].user;
      if id !in db.users || !Usable(db, db.users[id]) then (Revoked(db, token, now), false)
      else (Issued(Revoked(db, token, now), id, next, now), true)
  }

  function Logout(db: Db, token: Token, now: Time): Db {
    if HasActiveSession(db, token, now) then Revoked(db, token, now) else db
  }

  // ----- users -----

  datatype Caller = Caller(id: UserId, role: Role, org: Option<OrgId>)

  /** The fields a request sets; the outer option says whether a nullable field is set at all. */
  datatype Update = Update(
    firstName: Option<Option<string>>,
    lastName: Option<Option<string>>,
    role: Option<Role>,
    status: Option<UserStatus>,
    designation: Option<Option<DesignationId>>,
    password: Option<string>,
    currentPassword: Option<string>)

  predicate ActiveAdmin(user: User, org: OrgId) {
    user.org == Some(org) && user.role == Admin && user.status == Active && user.deletedAt.None?
  }

  /** `count_active_admins` with one user excluded. */
  function OtherActiveAdmins(db: Db, org: OrgId, excluded: UserId): set<UserId> {
    set id | id in db.users && id != excluded && ActiveAdmin(db.users[id], org)
  }

  predicate IsLastAdmin(db: Db, id: UserId)
    requires id in db.users
  {
    var user := db.users[id];
    user.role == Admin && user.status == Active && user.org.Some? && |OtherActiveAdmins(db, user.org.value, id)| == 0
  }

  function AuthorizeUpdate(caller: Caller, id: UserId, user: User, u: Update): Option<Error> {
    if caller.role == SuperAdmin then None
    else if caller.role == Admin then
      if user.role == SuperAdmin then Some(InsufficientPermission)
      else if user.org != caller.org then Some(CrossOrganization)
      else if u.role == Some(SuperAdmin) then Some(InvalidRoleAssignment)
      else if caller.id == id then
        if (u.role.Some? && u.role.value != user.role) || (u.status.Some? && u.status.value != user.status)
        then Some(FieldNotEditable) else None
      else if u.password.Some? then Some(FieldNotEditable)
      else None
    else if caller.id != id then Some(InsufficientPermission)
    else if u.role.Some? || u.status.Some? || u.designation.Some? then Some(FieldNotEditable)
    else None
  }

  function Or<T>(change: Option<T>, current: T): T {
    if change.Some? then change.value else current
  }

  /** The guards between authorization and the write, in the service's order. */
  function RefuseUpdate(db: Db, id: UserId, u: Update, passwordOk: bool): Option<Error>
    requires id in db.users
  {
    var user := db.users[id];
    var role, status := Or(u.role, user.role), Or(u.status, user.status);
    if (role != user.role || status != user.status) && (role != Admin || status != Active) && IsLastAdmin(db, id)
    then Some(LastAdmin)
    else if u.designation.Some? && u.designation.value.Some?
            && (u.designation.value.value !in db.designations
                || Some(db.designations[u.designation.value.value]) != user.org)
    then Some(DesignationNotFound)
    else if role == Employee && Or(u.designation, user.designation).None? then Some(DesignationRequired)
    else if u.password.Some? && user.passwordHash.None? then Some(SsoOnlyAccount)
    else if u.password.Some? && (u.currentPassword.None? || !passwordOk) then Some(WrongPassword)
    else None
  }

  function WithUpdate(user: User, u: Update, newHash: Hash): User {
    User(user.org, Or(u.designation, user.designation),
         if u.password.Some? then Some(newHash) else user.passwordHash,
         Or(u.firstName, user.firstName), Or(u.lastName, user.lastName),
         Or(u.role, user.role), Or(u.status, user.status), user.deletedAt, user.deletedBy)
  }

  function UpdateUser(db: Db, caller: Caller, id: UserId, u: Update, passwordOk: bool, newHash: Hash, now: Time)
    : Result<Db, Error>
  {
    if id !in db.users || db.users[id].deletedAt.Some? then Err(UserNotFound)
    else
      var denied := AuthorizeUpdate(caller, id, db.users[id], u);
      if denied.Some? then Err(denied.value)
      else
        var refused := RefuseUpdate(db, id, u, passwordOk);
        if refused.Some? then Err(refused.value)
        else
          var written := db.(users := db.users[id := WithUpdate(db.users[id], u, newHash)]);
          if u.password.Some? || Or(u.status, db.users[id].status) != Active
          then Ok(RevokedAll(written, id, now)) else Ok(written)
  }

  function Deleted(user: User, actor: UserId, now: Time): User {
    user.(deletedAt := Some(now), deletedBy := Some(actor))
  }

  function RefuseDelete(db: Db, caller: Caller, id: UserId): Option<Error>
    requires id in db.users
  {
    if id == caller.id then Some(CannotDeleteSelf)
    else if caller.role != SuperAdmin && db.users[id].org != caller.org then Some(CannotDeletePrivileged)
    else if caller.role != SuperAdmin && db.users[id].role == SuperAdmin then Some(CannotDeletePrivileged)
    else if IsLastAdmin(db, id) then Some(LastAdmin)
    else None
  }

  function DeleteUser(db: Db, caller: Caller, id: UserId, now: Time): Result<Db, Error> {
    if id !in db.users || db.users[id].deletedAt.Some? then Err(UserNotFound)
    else
      var refused := RefuseDelete(db, caller, id);
      if refused.Some? then Err(refused.value)
      else Ok(RevokedAll(db.(users := db.users[id := Deleted(db.users[id], caller.id, now)]), id, now))
  }

  // ----- the last admin -----

  ghost predicate HasAdmin(db: Db, org: OrgId) {
    exists id :: id in db.users && ActiveAdmin(db.users[id], org)
  }

  /** Whatever happens to one user other than the last admin, the organization keeps an admin. */
  lemma AdminRemains(db: Db, db': Db, id: UserId, org: OrgId)
    requires HasAdmin(db, org) && id in db.users && id in db'.users
    requires forall other | other in db.users && other != id ::
               other in db'.users && db'.users[other] == db.users[other]
    requires ActiveAdmin(db'.users[id], org) || !ActiveAdmin(db.users[id], org) || !IsLastAdmin(db, id)
    ensures HasAdmin(db', org)
  {
    var admin :| admin in db.users && ActiveAdmin(db.users[admin], org);
    if admin != id {
      assert ActiveAdmin(db'.users[admin], org);
    } else if ActiveAdmin(db'.users[id], org) {
    } else {
      var other :| other in OtherActiveAdmins(db, org, id);
      assert ActiveAdmin(db'.users[other], org);
    }
  }

  lemma UpdateKeepsAnAdmin(db: Db, caller: Caller, id: UserId, u: Update, passwordOk: bool, newHash: Hash, now: Time,
                           org: OrgId)
    requires HasAdmin(db, org)
    ensures var r := UpdateUser(db, caller, id, u, passwordOk, newHash, now); r.Ok? ==> HasAdmin(r.value, org)
  {
    var r := UpdateUser(db, caller, id, u, passwordOk, newHash, now);
    if r.Ok? {
      AdminRemains(db, r.value, id, org);
    }
  }

  lemma DeleteKeepsAnAdmin(db: Db, caller: Caller, id: UserId, now: Time, org: OrgId)
    requires HasAdmin(db, org)
    ensures var r := DeleteUser(db, caller, id, now); r.Ok? ==> HasAdmin(r.value, org)
  {
    var r := DeleteUser(db, caller, id, now);
    if r.Ok? {
      AdminRemains(db, r.value, id, org);
    }
  }

  /** The rule refuses no more than it must: a delete is refused for the last admin exactly when
      the caller may delete the user and the delete would leave the organization without one. */
  lemma LastAdminDeleteRefusalIsExact(db: Db, caller: Caller, id: UserId, now: Time)
    requires id in db.users && db.users[id].deletedAt.None? && id != caller.id
    requires caller.role == SuperAdmin || (db.users[id].org == caller.org && db.users[id].role != SuperAdmin)
    ensures DeleteUser(db, caller, id, now) == Err(LastAdmin) <==>
            exists org :: HasAdmin(db, org)
                          && !HasAdmin(db.(users := db.users[id := Deleted(db.users[id], caller.id, now)]), org)
  {
    var gone := db.(users := db.users[id := Deleted(db.users[id], caller.id, now)]);
    if IsLastAdmin(db, id) {
      var org := db.users[id].org.value;
      assert ActiveAdmin(db.users[id], org);
      assert HasAdmin(db, org);
      assert !HasAdmin(gone, org) by {
        assert forall other | other in gone.users && ActiveAdmin(gone.users[other], org) ::
            other in OtherActiveAdmins(db, org, id);
      }
    } else {
      forall org | HasAdmin(db, org)
        ensures HasAdmin(gone, org)
      {
        AdminRemains(db, gone, id, org);
      }
    }
  }

  /** Likewise for an update: the rule speaks up exactly when the organization would lose its
      only admin. */
  lemma LastAdminUpdateRefusalIsExact(db: Db, id: UserId, u: Update, passwordOk: bool, newHash: Hash)
    requires id in db.users && db.users[id].deletedAt.None?
    ensures RefuseUpdate(db, id, u, passwordOk) == Some(LastAdmin) <==>
            exists org :: HasAdmin(db, org)
                          && !HasAdmin(db.(users := db.users[id := WithUpdate(db.users[id], u, newHash)]), org)
  {
    var after := db.(users := db.users[id := WithUpdate(db.users[id], u, newHash)]);
    if RefuseUpdate(db, id, u, passwordOk) == Some(LastAdmin) {
      var org := db.users[id].org.value;
      assert ActiveAdmin(db.users[id], org);
      assert HasAdmin(db, org);
      assert !HasAdmin(after, org) by {
        assert forall other | other in after.users && ActiveAdmin(after.users[other], org) ::
            other in OtherActiveAdmins(db, org, id);
      }
    } else {
      forall org | HasAdmin(db, org)
        ensures HasAdmin(after, org)
      {
        AdminRemains(db, after, id, org);
      }
    }
  }
}
