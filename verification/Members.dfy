/**
 Managing an org's users (internal/service/users.go, internal/service/auth.go).  Admins cannot
 demote or revoke themselves; this file proves what that guards against and what it does not.
 */
module Members {
  import opened Wrappers

  type OrgId = nat
  type UserId = nat

  datatype User = User(org: OrgId, email: string, role: string, revoked: bool)

  /** `keys` maps the fingerprint of each registered SSH key to its user. */
  datatype Db = Db(orgs: set<OrgId>, users: map<UserId, User>, keys: map<string, UserId>)

  const ADMIN := "admin"
  const DEVELOPER := "developer"

  datatype AuthContext = AuthContext(user: UserId, org: OrgId, role: string)

  datatype AccessError = UnknownKey | UserRevoked | Forbidden | InvalidArgument | UserNotFound | Exists

  predicate IsAdmin(caller: AuthContext) {
    caller.role == ADMIN
  }

  /** Who the holder of a key acts as. */
  function Resolve(db: Db, fingerprint: string): Result<AuthContext, AccessError> {
    if fingerprint !in db.keys || db.keys[fingerprint] !in db.users then Err(UnknownKey)
    else
      var id := db.keys[fingerprint];
      if db.users[id].revoked then Err(UserRevoked) else Ok(AuthContext(id, db.users[id].org, db.users[id].role))
  }

  predicate InOrg(users: map<UserId, User>, org: OrgId, id: UserId) {
    id in users && users[id].org == org
  }

  /** Why ChangeRole refuses, in the order of its checks. */
  function ChangeRoleError(users: map<UserId, User>, caller: AuthContext, target: UserId, role: string): Option<AccessError> {
    if !IsAdmin(caller) then Some(Forbidden)
    else if role != ADMIN && role != DEVELOPER then Some(InvalidArgument)
    else if !InOrg(users, caller.org, target) then Some(UserNotFound)
    else if target == caller.user && role != ADMIN then Some(Forbidden)
    else None
  }

  function RevokeError(users: map<UserId, User>, caller: AuthContext, target: UserId): Option<AccessError> {
    if !IsAdmin(caller) then Some(Forbidden)
    else if target == caller.user then Some(Forbidden)
    else if !InOrg(users, caller.org, target) then Some(UserNotFound)
    else None
  }

  function WithUser(db: Db, id: UserId, user: User): Db {
    db.(users := db.users[id := user])
  }

  /** The users table and the operations that update its rows. */
  class Users {
    var db: Db

    constructor (db: Db)
      ensures this.db == db
    {
      this.db := db;
    }

    method LoadInOrg(org: OrgId, id: UserId) returns (r: Result<User, AccessError>)
      ensures r.Ok? <==> InOrg(db.users, org, id)
      ensures r.Ok? ==> r.value == db.users[id]
      ensures r.Err? ==> r.error == UserNotFound
    {
      if id !in db.users {
        return Err(UserNotFound);
      }
      if db.users[id].org != org {
        return Err(UserNotFound);
      }
      return Ok(db.users[id]);
    }

    method ChangeRole(caller: AuthContext, target: UserId, role: string) returns (r: Result<User, AccessError>)
      modifies this
      ensures db == Acted(old(db), caller, ChangeRoleOf(target, role))
      ensures r.Err? <==> ChangeRoleError(old(db.users), caller, target, role).Some?
      ensures r.Err? ==> r.error == ChangeRoleError(old(db.users), caller, target, role).value
      ensures r.Ok? <==>
                && caller.role == "admin" && (role == "admin" || role == "developer")
                && target in old(db.users) && old(db.users)[target].org == caller.org
                && (target == caller.user ==> role == "admin")
      ensures r.Err? ==> db == old(db)
      ensures r.Ok? ==>
                && r.value == old(db.users)[target].(role := role)
                && db == old(db).(users := old(db.users)[target := r.value])
      ensures r == Err(InvalidArgument) <==> caller.role == "admin" && role != "admin" && role != "developer"
      ensures r == Err(Forbidden) <==>
                || caller.role != "admin"
                || (target == caller.user && role == "developer" && target in old(db.users) && old(db.users)[target].org == caller.org)
      ensures r == Err(UserNotFound) <==>
                && caller.role == "admin" && (role == "admin" || role == "developer")
                && !(target in old(db.users) && old(db.users)[target].org == caller.org)
    {
      if !IsAdmin(caller) {
        return Err(Forbidden);
      }
      if role != ADMIN && role != DEVELOPER {
        return Err(InvalidArgument);
      }
      var user := LoadInOrg(caller.org, target);
      if user.Err? {
        return Err(user.error);
      }
      if target == caller.user && role != ADMIN {
        return Err(Forbidden);
      }
      db := WithUser(db, target, user.value.(role := role));
      return Ok(db.users[target]);
    }

    method Revoke(caller: AuthContext, target: UserId) returns (r: Result<(), AccessError>)
      modifies this
      ensures db == Acted(old(db), caller, RevokeOf(target))
      ensures r.Ok? <==>
                && caller.role == "admin" && target != caller.user
                && target in old(db.users) && old(db.users)[target].org == caller.org
      ensures r.Err? ==> db == old(db)
      ensures r.Ok? ==> db == old(db).(users := old(db.users)[target := old(db.users)[target].(revoked := true)])
      ensures r == Err(Forbidden) <==> caller.role != "admin" || target == caller.user
      ensures r == Err(UserNotFound) <==>
                && caller.role == "admin" && target != caller.user
                && !(target in old(db.users) && old(db.users)[target].org == caller.org)
      ensures r.Err? <==> RevokeError(old(db.users), caller, target).Some?
      ensures r.Err? ==> r.error == RevokeError(old(db.users), caller, target).value
    {
      if !IsAdmin(caller) {
        return Err(Forbidden);
      }
      if target == caller.user {
        return Err(Forbidden);
      }
      var user := LoadInOrg(caller.org, target);
      if user.Err? {
        return Err(user.error);
      }
      db := WithUser(db, target, user.value.(revoked := true));
      return Ok(());
    }
  }

  // ---- Specification ----------------------------------------------------------------------

  datatype Action = ChangeRoleOf(target: UserId, role: string) | RevokeOf(target: UserId)

  predicate Refused(db: Db, caller: AuthContext, a: Action) {
    match a
    case ChangeRoleOf(target, role) => ChangeRoleError(db.users, caller, target, role).Some?
    case RevokeOf(target) => RevokeError(db.users, caller, target).Some?
  }

  /** The table after `caller` acts; a refused action changes nothing. */
  function Acted(db: Db, caller: AuthContext, a: Action): Db {
    if Refused(db, caller, a) then db
    else
      match a
      case ChangeRoleOf(target, role) => WithUser(db, target, db.users[target].(role := role))
      case RevokeOf(target) => WithUser(db, target, db.users[target].(revoked := true))
  }

  /** Someone who can act as an admin of `org`. */
  ghost predicate ActiveAdmin(db: Db, org: OrgId, id: UserId) {
    InOrg(db.users, org, id) && db.users[id].role == ADMIN && !db.users[id].revoked &&
    exists fp | fp in db.keys :: db.keys[fp] == id
  }

  ghost predicate HasAdmin(db: Db, org: OrgId) {
    exists id :: ActiveAdmin(db, org, id)
  }

  /** A client's request, authenticated by the fingerprint of its key and then carried out. */
  datatype Request =
    | Register(org: OrgId, email: string, fingerprint: string, id: UserId)
    | Join(org: OrgId, email: string, role: string, fingerprint: string, id: UserId)
    | Act(fingerprint: string, action: Action)

  /** Identifiers are fresh and fingerprints unique; otherwise the request fails. */
  function Served(db: Db, r: Request): Db {
    match r
    case Register(org, email, fp, id) =>
      if org in db.orgs || id in db.users || fp in db.keys then db
      else Db(db.orgs + {org}, db.users[id := User(org, email, ADMIN, false)], db.keys[fp := id])
    case Join(org, email, role, fp, id) =>
      if org !in db.orgs || id in db.users || fp in db.keys then db
      else db.(users := db.users[id := User(org, email, role, false)], keys := db.keys[fp := id])
    case Act(fp, action) =>
      (match Resolve(db, fp) case Ok(caller) => Acted(db, caller, action) case Err(_) => db)
  }

  function ServedAll(requests: seq<Request>): Db {
    if requests == [] then Db({}, map[], map[])
    else Served(ServedAll(requests[..|requests| - 1]), requests[|requests| - 1])
  }

  // ---- Who a key acts as ------------------------------------------------------------------

  /** A key resolves exactly if it is registered to a user who is not revoked, and then to that user
      with its org and current role. */
  lemma ResolveIff(db: Db, fp: string, caller: AuthContext)
    ensures Resolve(db, fp) == Ok(caller) <==>
            && fp in db.keys && db.keys[fp] == caller.user && caller.user in db.users
            && db.users[caller.user] == User(caller.org, db.users[caller.user].email, caller.role, false)
    ensures Resolve(db, fp) == Err(UserRevoked) <==>
            fp in db.keys && db.keys[fp] in db.users && db.users[db.keys[fp]].revoked
  {
  }

  /** An accepted action shows at the next request of its target, for each of its keys: a revoked user
      is turned away, a new role is in force, and nobody else's requests resolve differently. */
  lemma ActionTakesEffect(db: Db, caller: AuthContext, a: Action, fp: string)
    requires !Refused(db, caller, a) && fp in db.keys
    ensures var db' := Acted(db, caller, a);
            && (db.keys[fp] != a.target ==> Resolve(db', fp) == Resolve(db, fp))
            && (db.keys[fp] == a.target && a.RevokeOf? ==> Resolve(db', fp) == Err(UserRevoked))
            && (db.keys[fp] == a.target && a.ChangeRoleOf? ==>
                  Resolve(db', fp) ==
                  if db.users[a.target].revoked then Err(UserRevoked)
                  else Ok(AuthContext(a.target, db.users[a.target].org, a.role)))
  {
  }

  // ---- No lockout -------------------------------------------------------------------------

  /** The action, if carried out, takes away `target`'s standing as an active admin. */
  predicate Demotes(a: Action, target: UserId) {
    a == RevokeOf(target) || (a.ChangeRoleOf? && a.target == target && a.role != ADMIN)
  }

  /** For any caller, however old its authentication: an org with an admin keeps one exactly unless
      the action is accepted and takes down its only active admin. */
  lemma KeepsAdminIff(db: Db, caller: AuthContext, a: Action, org: OrgId)
    requires HasAdmin(db, org)
    ensures HasAdmin(Acted(db, caller, a), org) <==>
            Refused(db, caller, a) || !Demotes(a, a.target) || exists id :: id != a.target && ActiveAdmin(db, org, id)
  {
    var db' := Acted(db, caller, a);
    if !Refused(db, caller, a) {
      forall id ensures ActiveAdmin(db', org, id) && id != a.target <==> ActiveAdmin(db, org, id) && id != a.target {
      }
      if !Demotes(a, a.target) {
        var id :| ActiveAdmin(db, org, id);
        assert ActiveAdmin(db', org, id);
      } else {
        assert !ActiveAdmin(db', org, a.target);
      }
    }
  }

  /** A caller authenticated against the current table is an active admin other than the target. */
  lemma CallerRemains(db: Db, fp: string, a: Action)
    requires Resolve(db, fp).Ok? && !Refused(db, Resolve(db, fp).value, a) && Demotes(a, a.target)
    ensures var caller := Resolve(db, fp).value;
            caller.user != a.target && ActiveAdmin(db, caller.org, caller.user)
  {
  }

  lemma ServedKeepsAdmins(db: Db, r: Request, org: OrgId)
    requires org in db.orgs ==> HasAdmin(db, org)
    requires org in Served(db, r).orgs
    ensures HasAdmin(Served(db, r), org)
  {
    var db' := Served(db, r);
    if r.Act? {
      var caller := Resolve(db, r.fingerprint);
      if caller.Ok? {
        KeepsAdminIff(db, caller.value, r.action, org);
        if !Refused(db, caller.value, r.action) && Demotes(r.action, r.action.target) {
          CallerRemains(db, r.fingerprint, r.action);
          if caller.value.org != org {
            var id :| ActiveAdmin(db, org, id);
          }
        }
      }
    } else if db' != db {
      if r.Register? && r.org == org && org !in db.orgs {
        assert db'.keys[r.fingerprint] == r.id;
        assert ActiveAdmin(db', org, r.id);
      } else {
        var id :| ActiveAdmin(db, org, id);
        var fp :| fp in db.keys && db.keys[fp] == id;
        assert db'.keys[fp] == id;
        assert ActiveAdmin(db', org, id);
      }
    }
  }

  /** No lockout: when every request is authenticated and carried out as one step, each registered
      org always has an unrevoked admin with a registered key. */
  lemma {:induction false} NoLockout(requests: seq<Request>, org: OrgId)
    ensures var db := ServedAll(requests);
            org in db.orgs ==> HasAdmin(db, org)
  {
    if requests != [] {
      var init := ServedAll(requests[..|requests| - 1]);
      NoLockout(requests[..|requests| - 1], org);
      if org in ServedAll(requests).orgs {
        ServedKeepsAdmins(init, requests[|requests| - 1], org);
      }
    }
  }

  /** When authenticating and acting are separate steps the guarantee fails: two admins that both
      authenticate before either acts can revoke each other. */
  lemma StaleRequestsLockOut()
    ensures exists requests, fpA, fpB, a, b, org ::
              var db := ServedAll(requests);
              && org in db.orgs && Resolve(db, fpA).Ok? && Resolve(db, fpB).Ok?
              && !HasAdmin(Acted(Acted(db, Resolve(db, fpA).value, a), Resolve(db, fpB).value, b), org)
  {
    var requests := [Register(0, "a", "ka", 0), Join(0, "b", ADMIN, "kb", 1)];
    assert requests[..1] == [requests[0]] && [requests[0]][..0] == [];
    var db1 := Served(Db({}, map[], map[]), requests[0]);
    assert ServedAll([requests[0]]) == db1;
    var db := ServedAll(requests);
    assert db == Served(db1, requests[1]);
    assert db.users == map[0 := User(0, "a", ADMIN, false), 1 := User(0, "b", ADMIN, false)];
    var a, b := RevokeOf(1), RevokeOf(0);
    var db2 := Acted(Acted(db, Resolve(db, "ka").value, a), Resolve(db, "kb").value, b);
    assert db2.users[0].revoked && db2.users[1].revoked && db2.users.Keys == {0, 1};
    assert !HasAdmin(db2, 0);
  }
}
