/** The account services over row objects: users and sessions are updated in place. */
module AccountStore {
  import opened Prelude
  import opened Accounts

  class UserRow {
    const id: UserId
    var value: User

    constructor (id: UserId, value: User)
      ensures this.id == id && this.value == value
    {
      this.id, this.value := id, value;
    }

    /** The loop of `update_user` over the fields the request sets. */
    method SetFields(u: Update, newHash: Hash)
      modifies this
      ensures value == WithUpdate(old(value), u, newHash)
    {
      if u.firstName.Some? { value := value.(firstName := u.firstName.value); }
      if u.lastName.Some? { value := value.(lastName := u.lastName.value); }
      if u.role.Some? { value := value.(role := u.role.value); }
      if u.status.Some? { value := value.(status := u.status.value); }
      if u.designation.Some? { value := value.(designation := u.designation.value); }
      if u.password.Some? { value := value.(passwordHash := Some(newHash)); }
    }
  }

  class SessionRow {
    const token: Token
    const user: UserId
    const expiresAt: Time
    var revokedAt: Option<Time>

    function Value(): Session
      reads this
    {
      Session(user, expiresAt, revokedAt)
    }

    constructor (token: Token, user: UserId, expiresAt: Time)
      ensures this.token == token && Value() == Session(user, expiresAt, None)
    {
      this.token, this.user, this.expiresAt, revokedAt := token, user, expiresAt, None;
    }

    method Revoke(now: Time)
      modifies this
      ensures Value() == old(Value()).(revokedAt := Some(now))
    {
      revokedAt := Some(now);
    }
  }

  class Store {
    var users: map<UserId, UserRow>
    var orgs: map<OrgId, Organization>
    var designations: map<DesignationId, OrgId>
    var sessions: map<Token, SessionRow>

    ghost predicate Valid()
      reads this, users.Values, sessions.Values
    {
      && (forall id | id in users :: users[id].id == id)
      && (forall token | token in sessions :: sessions[token].token == token)
    }

    function Value(): Db
      reads this, users.Values, sessions.Values
    {
      Db(map id | id in users :: users[id].value, orgs, designations,
         map token | token in sessions :: sessions[token].Value())
    }

    method IssueTokens(user: UserId, next: Token, now: Time)
      requires Valid() && next !in sessions
      modifies this`sessions
      ensures Valid() && Value() == Issued(old(Value()), user, next, now)
    {
      var row := new SessionRow(next, user, now + REFRESH_TOKEN_LIFETIME);
      sessions := sessions[next := row];
    }

    method RevokeSession(token: Token, now: Time)
      requires Valid() && token in sessions
      modifies sessions[token]
      ensures Valid() && Value() == Revoked(old(Value()), token, now)
    {
      sessions[token].Revoke(now);
      assert forall other | other in sessions && other != token :: sessions[other].token != sessions[token].token;
    }

    /** One bulk UPDATE. */
    method RevokeAllForUser(user: UserId, now: Time)
      requires Valid()
      modifies sessions.Values
      ensures Valid() && Value() == RevokedAll(old(Value()), user, now)
    {
      forall token | token in sessions && sessions[token].user == user && sessions[token].revokedAt.None? {
        sessions[token].revokedAt := Some(now);
      }
    }

    /** `is_account_usable`, with the organization looked up. */
    method IsUsable(id: UserId) returns (usable: bool)
      requires Valid() && id in users
      ensures usable <==> Usable(Value(), users[id].value)
    {
      var user := users[id].value;
      if user.deletedAt.Some? || user.status != Active {
        return false;
      }
      if user.org.None? {
        return true;
      }
      var org := user.org.value;
      return org in orgs && !orgs[org].deleted && !orgs[org].suspended;
    }

    method LogIn(found: Option<UserId>, passwordOk: bool, next: Token, now: Time) returns (refusal: Option<Error>)
      requires Valid() && next !in sessions
      modifies this`sessions
      ensures Valid()
      ensures match Login(old(Value()), found, passwordOk, next, now)
              case Ok(db) => refusal == None && Value() == db
              case Err(e) => refusal == Some(e) && Value() == old(Value())
    {
      if found.None? || found.value !in users || users[found.value].value.passwordHash.None? {
        return Some(InvalidCredentials);
      }
      if !passwordOk {
        return Some(InvalidCredentials);
      }
      var user := users[found.value].value;
      if user.deletedAt.Some? {
        return Some(InvalidCredentials);
      }
      var usable := IsUsable(found.value);
      if !usable {
        return Some(InactiveAccount);
      }
      IssueTokens(found.value, next, now);
      return None;
    }

    method RefreshTokens(token: Token, next: Token, now: Time) returns (accepted: bool)
      requires Valid() && next !in sessions
      modifies this`sessions, sessions.Values
      ensures Valid() && (Value(), accepted) == Refresh(old(Value()), token, next, now)
    {
      if token !in sessions || sessions[token].revokedAt.Some? || sessions[token].expiresAt < now {
        return false;
      }
      var id := sessions[token].user;
      var usable := false;
      if id in users {
        usable := IsUsable(id);
      }
      RevokeSession(token, now);
      if !usable {
        return false;
      }
      IssueTokens(id, next, now);
      return true;
    }

    method LogOut(token: Token, now: Time)
      requires Valid()
      modifies sessions.Values
      ensures Valid() && Value() == Logout(old(Value()), token, now)
    {
      if token in sessions && sessions[token].revokedAt.None? && sessions[token].expiresAt >= now {
        RevokeSession(token, now);
      }
    }

    method Write(id: UserId, u: Update, newHash: Hash)
      requires Valid() && id in users
      modifies users[id]
      ensures Valid()
      ensures var before := old(Value());
              Value() == before.(users := before.users[id := WithUpdate(before.users[id], u, newHash)])
    {
      users[id].SetFields(u, newHash);
      assert forall other | other in users && other != id :: users[other].id != users[id].id;
    }

    /** `_authorize_update`. */
    method AuthorizeChange(caller: Caller, id: UserId, u: Update) returns (refusal: Option<Error>)
      requires Valid() && id in users
      ensures refusal == AuthorizeUpdate(caller, id, users[id].value, u)
    {
      var user := users[id].value;
      if caller.role == SuperAdmin {
        return None;
      }
      if caller.role == Admin {
        if user.role == SuperAdmin {
          return Some(InsufficientPermission);
        }
        if user.org != caller.org {
          return Some(CrossOrganization);
        }
        if u.role.Some? && u.role.value == SuperAdmin {
          return Some(InvalidRoleAssignment);
        }
        if caller.id == id {
          var roleChanged := u.role.Some? && u.role.value != user.role;
          var statusChanged := u.status.Some? && u.status.value != user.status;
          if roleChanged || statusChanged {
            return Some(FieldNotEditable);
          }
        } else if u.password.Some? {
          return Some(FieldNotEditable);
        }
        return None;
      }
      if caller.id != id {
        return Some(InsufficientPermission);
      }
      if u.role.Some? || u.status.Some? || u.designation.Some? {
        return Some(FieldNotEditable);
      }
      return None;
    }

    /** `_assert_not_last_admin`: counting stops nothing unless the user is an active admin. */
    method AssertNotLastAdmin(id: UserId) returns (refusal: Option<Error>)
      requires Valid() && id in users
      ensures refusal == if IsLastAdmin(Value(), id) then Some(LastAdmin) else None
    {
      var user := users[id].value;
      if user.role != Admin || user.status != Active || user.org.None? {
        return None;
      }
      var remaining := |OtherActiveAdmins(Value(), user.org.value, id)|;
      if remaining == 0 {
        return Some(LastAdmin);
      }
      return None;
    }

    /** The guards of `update_user` behind the authorization, in its order. */
    method CheckChange(id: UserId, u: Update, passwordOk: bool) returns (refusal: Option<Error>)
      requires Valid() && id in users
      ensures refusal == RefuseUpdate(Value(), id, u, passwordOk)
    {
      var user := users[id].value;
      var newRole := if u.role.Some? then u.role.value else user.role;
      var newStatus := if u.status.Some? then u.status.value else user.status;
      var newDesignation := if u.designation.Some? then u.designation.value else user.designation;
      if newRole != user.role || newStatus != user.status {
        if newRole != Admin || newStatus != Active {
          refusal := AssertNotLastAdmin(id);
          if refusal.Some? {
            return;
          }
        }
      }
      if u.designation.Some? && u.designation.value.Some? {
        var wanted := u.designation.value.value;
        if wanted !in designations || user.org.None? || designations[wanted] != user.org.value {
          return Some(DesignationNotFound);
        }
      }
      if newRole == Employee && newDesignation.None? {
        return Some(DesignationRequired);
      }
      if u.password.Some? {
        if user.passwordHash.None? {
          return Some(SsoOnlyAccount);
        }
        if u.currentPassword.None? || !passwordOk {
          return Some(WrongPassword);
        }
      }
      return None;
    }

    method ChangeUser(caller: Caller, id: UserId, u: Update, passwordOk: bool, newHash: Hash, now: Time)
        returns (refusal: Option<Error>)
      requires Valid()
      modifies users.Values, sessions.Values
      ensures Valid()
      ensures match UpdateUser(old(Value()), caller, id, u, passwordOk, newHash, now)
              case Ok(db) => refusal == None && Value() == db
              case Err(e) => refusal == Some(e) && Value() == old(Value())
    {
      if id !in users || users[id].value.deletedAt.Some? {
        return Some(UserNotFound);
      }
      refusal := AuthorizeChange(caller, id, u);
      if refusal.Some? {
        return;
      }
      refusal := CheckChange(id, u, passwordOk);
      if refusal.Some? {
        return;
      }
      var newStatus := if u.status.Some? then u.status.value else users[id].value.status;
      Write(id, u, newHash);
      if u.password.Some? || newStatus != Active {
        RevokeAllForUser(id, now);
      }
    }

    method SetDeleted(id: UserId, actor: UserId, now: Time)
      requires Valid() && id in users
      modifies users[id]
      ensures Valid()
      ensures var before := old(Value());
              Value() == before.(users := before.users[id := Deleted(before.users[id], actor, now)])
    {
      users[id].value := users[id].value.(deletedAt := Some(now), deletedBy := Some(actor));
      assert forall other | other in users && other != id :: users[other].id != users[id].id;
    }

    method Delete(caller: Caller, id: UserId, now: Time) returns (refusal: Option<Error>)
      requires Valid()
      modifies users.Values, sessions.Values
      ensures Valid()
      ensures match DeleteUser(old(Value()), caller, id, now)
              case Ok(db) => refusal == None && Value() == db
              case Err(e) => refusal == Some(e) && Value() == old(Value())
    {
      if id !in users || users[id].value.deletedAt.Some? {
        return Some(UserNotFound);
      }
      var user := users[id].value;
      if id == caller.id {
        return Some(CannotDeleteSelf);
      }
      if caller.role != SuperAdmin && user.org != caller.org {
        return Some(CannotDeletePrivileged);
      }
      if caller.role != SuperAdmin && user.role == SuperAdmin {
        return Some(CannotDeletePrivileged);
      }
      refusal := AssertNotLastAdmin(id);
      if refusal.Some? {
        return;
      }
      SetDeleted(id, caller.id, now);
      RevokeAllForUser(id, now);
    }
  }
}
