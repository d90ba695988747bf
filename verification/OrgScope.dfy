/**
 Every request acts within its caller's org (internal/service/projects.go, secrets.go, vault.go,
 users.go).  Tables carry their UNIQUE indexes; deletes cascade.
 */
module OrgScope {
  import opened Wrappers
  import Members
  import VersionedTables

  type OrgId = Members.OrgId
  type Id = nat
  type User = Members.User
  type Caller = Members.AuthContext

  /** The secret rows of one environment, or the vault rows of one org. */
  type Rows = VersionedTables.Tables

  datatype Project = Project(org: OrgId, slug: string)
  datatype Env = Env(proj: Id, slug: string)

  datatype Db = Db(
    projects: map<Id, Project>, projectIndex: map<Project, Id>,
    envs: map<Id, Env>, envIndex: map<Env, Id>,
    secrets: map<Id, Rows>,
    vault: map<OrgId, Rows>,
    users: map<Id, User>)

  datatype Error = Access(why: Members.AccessError) | ProjectExists | ProjectNotFound | EnvExists | EnvNotFound

  datatype Reply = Nothing | NewId(id: Id) | Text(text: string) | Row(user: User) | Users(users: map<Id, User>)

  /** What an operation on secret rows does once the rows are found. */
  type Work = Rows -> (Rows, string)

  datatype Op =
    | CreateProject(slug: string, id: Id, devId: Id)
    | DeleteProject(slug: string)
    | CreateEnv(project: string, slug: string, id: Id)
    | CloneEnv(project: string, src: string, dest: string, id: Id)
    | DeleteEnv(project: string, slug: string)
    | OnSecrets(project: string, env: string, work: Work)
    | ReadVault(view: Rows -> string)
    | WriteVault(vaultWork: Work)
    | ListUsers
    | ChangeRole(target: Id, role: string)
    | Revoke(target: Id)

  const FORBIDDEN := Access(Members.Forbidden)
  const INVALID := Access(Members.InvalidArgument)

  // ---- Lookups ----------------------------------------------------------------------------

  /** requireProject: absent and other-org projects look the same. */
  function RequireProject(db: Db, caller: Caller, slug: string): Result<Id, Error> {
    var key := Project(caller.org, slug);
    if key in db.projectIndex then Ok(db.projectIndex[key]) else Err(ProjectNotFound)
  }

  function ResolveEnv(db: Db, caller: Caller, project: string, env: string): Result<Id, Error> {
    match RequireProject(db, caller, project)
    case Err(e) => Err(e)
    case Ok(p) => if Env(p, env) in db.envIndex then Ok(db.envIndex[Env(p, env)]) else Err(EnvNotFound)
  }

  // ---- Changes of rows --------------------------------------------------------------------

  function WithProject(db: Db, id: Id, p: Project): Db {
    db.(projects := db.projects[id := p], projectIndex := db.projectIndex[p := id])
  }

  function WithEnv(db: Db, id: Id, e: Env): Db {
    db.(envs := db.envs[id := e], envIndex := db.envIndex[e := id], secrets := db.secrets[id := map[]])
  }

  function WithoutEnvs(db: Db, gone: set<Id>): Db {
    db.(
      envs := db.envs - gone,
      envIndex := map e | e in db.envIndex && db.envIndex[e] !in gone :: db.envIndex[e],
      secrets := db.secrets - gone)
  }

  /** Removing a project cascades to its environments and their secrets. */
  function WithoutProject(db: Db, id: Id): Db
    requires id in db.projects
  {
    WithoutEnvs(db, set e | e in db.envs && db.envs[e].proj == id).(
      projects := db.projects - {id},
      projectIndex := db.projectIndex - {db.projects[id]})
  }

  function WithSecrets(db: Db, id: Id, rows: Rows): Db {
    db.(secrets := db.secrets[id := rows])
  }

  function WithVault(db: Db, org: OrgId, rows: Rows): Db {
    db.(vault := db.vault[org := rows])
  }

  function WithUser(db: Db, id: Id, user: User): Db {
    db.(users := db.users[id := user])
  }

  // ---- Requests ---------------------------------------------------------------------------

  /** One request by an authenticated caller: the tables after it, and the reply. */
  function Serve(db: Db, caller: Caller, op: Op): (Db, Result<Reply, Error>)
    requires Inv(db)
  {
    match op
    case CreateProject(slug, id, devId) =>
      if !Members.IsAdmin(caller) then (db, Err(FORBIDDEN))
      else if slug == "" then (db, Err(INVALID))
      else if Project(caller.org, slug) in db.projectIndex then (db, Err(ProjectExists))
      else (WithEnv(WithProject(db, id, Project(caller.org, slug)), devId, Env(id, "dev")), Ok(NewId(id)))
    case DeleteProject(slug) =>
      if !Members.IsAdmin(caller) then (db, Err(FORBIDDEN))
      else
        (match RequireProject(db, caller, slug)
         case Err(e) => (db, Err(e))
         case Ok(p) => (WithoutProject(db, p), Ok(Nothing)))
    case CreateEnv(project, slug, id) =>
      if !Members.IsAdmin(caller) then (db, Err(FORBIDDEN))
      else if slug == "" then (db, Err(INVALID))
      else
        (match RequireProject(db, caller, project)
         case Err(e) => (db, Err(e))
         case Ok(p) =>
           if Env(p, slug) in db.envIndex then (db, Err(EnvExists)) else (WithEnv(db, id, Env(p, slug)), Ok(NewId(id))))
    case CloneEnv(project, src, dest, id) =>
      if !Members.IsAdmin(caller) then (db, Err(FORBIDDEN))
      else if dest == "" then (db, Err(INVALID))
      else
        (match RequireProject(db, caller, project)
         case Err(e) => (db, Err(e))
         case Ok(p) =>
           if Env(p, src) !in db.envIndex then (db, Err(EnvNotFound))
           else if Env(p, dest) in db.envIndex then (db, Err(EnvExists))
           else (WithEnv(db, id, Env(p, dest)), Ok(NewId(id))))
    case DeleteEnv(project, slug) =>
      if !Members.IsAdmin(caller) then (db, Err(FORBIDDEN))
      else
        (match ResolveEnv(db, caller, project, slug)
         case Err(e) => (db, Err(e))
         case Ok(id) => (WithoutEnvs(db, {id}), Ok(Nothing)))
    case OnSecrets(project, env, work) =>
      (match ResolveEnv(db, caller, project, env)
       case Err(e) => (db, Err(e))
       case Ok(id) =>
         var (rows, text) := work(db.secrets[id]);
         (WithSecrets(db, id, rows), Ok(Text(text))))
    case ReadVault(view) => (db, Ok(Text(view(VaultOf(db, caller.org)))))
    case WriteVault(work) =>
      if !Members.IsAdmin(caller) then (db, Err(FORBIDDEN))
      else
        var (rows, text) := work(VaultOf(db, caller.org));
        (WithVault(db, caller.org, rows), Ok(Text(text)))
    case ListUsers =>
      if !Members.IsAdmin(caller) then (db, Err(FORBIDDEN)) else (db, Ok(Users(UsersOf(db, caller.org))))
    case ChangeRole(target, role) =>
      (match Members.ChangeRoleError(db.users, caller, target, role)
       case Some(e) => (db, Err(Access(e)))
       case None =>
         var user := db.users[target].(role := role);
         (WithUser(db, target, user), Ok(Row(user))))
    case Revoke(target) =>
      (match Members.RevokeError(db.users, caller, target)
       case Some(e) => (db, Err(Access(e)))
       case None => (WithUser(db, target, db.users[target].(revoked := true)), Ok(Nothing)))
  }

  function VaultOf(db: Db, org: OrgId): Rows {
    if org in db.vault then db.vault[org] else map[]
  }

  function UsersOf(db: Db, org: OrgId): map<Id, User> {
    map u | u in db.users && db.users[u].org == org :: db.users[u]
  }

  /** Indexes mirror their tables, environments belong to projects, and exactly the environments have
      secret rows. */
  predicate Inv(db: Db) {
    && (forall p | p in db.projects :: db.projects[p] in db.projectIndex && db.projectIndex[db.projects[p]] == p)
    && (forall k | k in db.projectIndex :: db.projectIndex[k] in db.projects && db.projects[db.projectIndex[k]] == k)
    && (forall e | e in db.envs :: db.envs[e] in db.envIndex && db.envIndex[db.envs[e]] == e && db.envs[e].proj in db.projects)
    && (forall k | k in db.envIndex :: db.envIndex[k] in db.envs && db.envs[db.envIndex[k]] == k)
    && db.secrets.Keys == db.envs.Keys
  }

  /** The identifiers an operation generates are new. */
  predicate Fresh(db: Db, op: Op) {
    match op
    case CreateProject(_, id, devId) => id !in db.projects && devId !in db.envs
    case CreateEnv(_, _, id) => id !in db.envs
    case CloneEnv(_, _, _, id) => id !in db.envs
    case _ => true
  }

  predicate ChangesEnvs(op: Op) {
    op.CreateProject? || op.DeleteProject? || op.CreateEnv? || op.CloneEnv? || op.DeleteEnv?
  }

  lemma WithProjectKeepsInv(db: Db, id: Id, p: Project)
    requires Inv(db) && id !in db.projects && p !in db.projectIndex
    ensures Inv(WithProject(db, id, p))
  {
  }

  lemma WithEnvKeepsInv(db: Db, id: Id, e: Env)
    requires Inv(db) && id !in db.envs && e !in db.envIndex && e.proj in db.projects
    ensures Inv(WithEnv(db, id, e))
  {
  }

  lemma WithoutEnvsKeepsInv(db: Db, gone: set<Id>)
    requires Inv(db)
    ensures Inv(WithoutEnvs(db, gone))
  {
  }

  lemma WithoutProjectKeepsInv(db: Db, id: Id)
    requires Inv(db) && id in db.projects
    ensures Inv(WithoutProject(db, id))
  {
  }

  lemma RestKeepsInv(db: Db, caller: Caller, op: Op)
    requires Inv(db) && !ChangesEnvs(op)
    ensures Inv(Serve(db, caller, op).0)
  {
  }

  lemma ServeKeepsInv(db: Db, caller: Caller, op: Op)
    requires Inv(db) && Fresh(db, op)
    ensures Inv(Serve(db, caller, op).0)
  {
    if !ChangesEnvs(op) {
      RestKeepsInv(db, caller, op);
    } else if Serve(db, caller, op).1.Ok? {
      match op
      case CreateProject(slug, id, devId) =>
        var p := Project(caller.org, slug);
        WithProjectKeepsInv(db, id, p);
        WithEnvKeepsInv(WithProject(db, id, p), devId, Env(id, "dev"));
      case DeleteProject(slug) => WithoutProjectKeepsInv(db, RequireProject(db, caller, slug).value);
      case CreateEnv(project, slug, id) => WithEnvKeepsInv(db, id, Env(RequireProject(db, caller, project).value, slug));
      case CloneEnv(project, _, dest, id) => WithEnvKeepsInv(db, id, Env(RequireProject(db, caller, project).value, dest));
      case DeleteEnv(project, slug) => WithoutEnvsKeepsInv(db, {ResolveEnv(db, caller, project, slug).value});
    }
  }

  // ---- What belongs to an org -------------------------------------------------------------

  predicate ProjectIn(db: Db, org: OrgId, p: Id) {
    p in db.projects && db.projects[p].org == org
  }

  /** The row with this identifier if it is the org's. */
  function ProjectRow(db: Db, org: OrgId, p: Id): Option<Project> {
    if ProjectIn(db, org, p) then Some(db.projects[p]) else None
  }

  datatype EnvContent = EnvContent(env: Env, rows: Rows)

  function EnvRow(db: Db, org: OrgId, e: Id): Option<EnvContent> {
    if e in db.envs && e in db.secrets && ProjectIn(db, org, db.envs[e].proj)
    then Some(EnvContent(db.envs[e], db.secrets[e]))
    else None
  }

  function UserRow(db: Db, org: OrgId, u: Id): Option<User> {
    if u in db.users && db.users[u].org == org then Some(db.users[u]) else None
  }

  /** `a` and `b` hold the same rows for `org`. */
  ghost predicate Agree(a: Db, b: Db, org: OrgId) {
    && (forall p :: ProjectRow(a, org, p) == ProjectRow(b, org, p))
    && (forall e :: EnvRow(a, org, e) == EnvRow(b, org, e))
    && (forall u :: UserRow(a, org, u) == UserRow(b, org, u))
    && VaultOf(a, org) == VaultOf(b, org)
  }

  // ---- What each change does to an org's rows -----------------------------------------------

  lemma RowsWithProject(db: Db, id: Id, p: Project, org: OrgId, x: Id)
    requires Inv(db) && id !in db.projects
    ensures var db' := WithProject(db, id, p);
            && ProjectRow(db', org, x) == (if x == id then (if p.org == org then Some(p) else None) else ProjectRow(db, org, x))
            && EnvRow(db', org, x) == EnvRow(db, org, x)
  {
  }

  lemma RowsWithEnv(db: Db, id: Id, e: Env, org: OrgId, x: Id)
    requires Inv(db) && id !in db.envs
    ensures var db' := WithEnv(db, id, e);
            EnvRow(db', org, x) ==
            (if x == id then (if ProjectIn(db, org, e.proj) then Some(EnvContent(e, map[])) else None) else EnvRow(db, org, x))
  {
  }

  lemma RowsWithoutEnvs(db: Db, gone: set<Id>, org: OrgId, x: Id)
    ensures EnvRow(WithoutEnvs(db, gone), org, x) == if x in gone then None else EnvRow(db, org, x)
  {
  }

  lemma RowsWithoutProject(db: Db, id: Id, org: OrgId, x: Id)
    requires Inv(db) && id in db.projects
    ensures var db' := WithoutProject(db, id);
            && ProjectRow(db', org, x) == (if x == id then None else ProjectRow(db, org, x))
            && EnvRow(db', org, x) ==
               (if EnvRow(db, org, x).Some? && EnvRow(db, org, x).value.env.proj == id then None else EnvRow(db, org, x))
  {
  }

  lemma AgreeWithProject(a: Db, b: Db, id: Id, p: Project, org: OrgId)
    requires Inv(a) && Inv(b) && Agree(a, b, org) && id !in a.projects && id !in b.projects
    ensures Agree(WithProject(a, id, p), WithProject(b, id, p), org)
  {
    var a', b' := WithProject(a, id, p), WithProject(b, id, p);
    forall x ensures ProjectRow(a', org, x) == ProjectRow(b', org, x) {
      RowsWithProject(a, id, p, org, x);
      RowsWithProject(b, id, p, org, x);
    }
    forall x ensures EnvRow(a', org, x) == EnvRow(b', org, x) {
      RowsWithProject(a, id, p, org, x);
      RowsWithProject(b, id, p, org, x);
    }
    forall u ensures UserRow(a', org, u) == UserRow(b', org, u) {
      assert UserRow(a, org, u) == UserRow(b, org, u);
    }
  }

  lemma AgreeWithEnv(a: Db, b: Db, id: Id, e: Env, org: OrgId)
    requires Inv(a) && Inv(b) && Agree(a, b, org) && id !in a.envs && id !in b.envs
    ensures Agree(WithEnv(a, id, e), WithEnv(b, id, e), org)
  {
    var a', b' := WithEnv(a, id, e), WithEnv(b, id, e);
    assert ProjectRow(a, org, e.proj) == ProjectRow(b, org, e.proj);
    forall x ensures EnvRow(a', org, x) == EnvRow(b', org, x) {
      RowsWithEnv(a, id, e, org, x);
      RowsWithEnv(b, id, e, org, x);
    }
    SameElsewhere(a, b, a', b', org);
  }

  /** Changes to environments and secrets only leave the rest in agreement. */
  lemma SameElsewhere(a: Db, b: Db, a': Db, b': Db, org: OrgId)
    requires Agree(a, b, org)
    requires a'.projects == a.projects && a'.users == a.users && a'.vault == a.vault
    requires b'.projects == b.projects && b'.users == b.users && b'.vault == b.vault
    requires forall x :: EnvRow(a', org, x) == EnvRow(b', org, x)
    ensures Agree(a', b', org)
  {
    forall p ensures ProjectRow(a', org, p) == ProjectRow(b', org, p) {
      assert ProjectRow(a, org, p) == ProjectRow(b, org, p);
    }
    forall u ensures UserRow(a', org, u) == UserRow(b', org, u) {
      assert UserRow(a, org, u) == UserRow(b, org, u);
    }
  }

  lemma AgreeWithoutEnvs(a: Db, b: Db, gone: set<Id>, org: OrgId)
    requires Agree(a, b, org)
    ensures Agree(WithoutEnvs(a, gone), WithoutEnvs(b, gone), org)
  {
    var a', b' := WithoutEnvs(a, gone), WithoutEnvs(b, gone);
    forall x ensures EnvRow(a', org, x) == EnvRow(b', org, x) {
      RowsWithoutEnvs(a, gone, org, x);
      RowsWithoutEnvs(b, gone, org, x);
    }
    SameElsewhere(a, b, a', b', org);
  }

  lemma AgreeWithoutProject(a: Db, b: Db, id: Id, org: OrgId)
    requires Inv(a) && Inv(b) && Agree(a, b, org) && id in a.projects && id in b.projects
    ensures Agree(WithoutProject(a, id), WithoutProject(b, id), org)
  {
    var a', b' := WithoutProject(a, id), WithoutProject(b, id);
    forall x ensures ProjectRow(a', org, x) == ProjectRow(b', org, x) {
      RowsWithoutProject(a, id, org, x);
      RowsWithoutProject(b, id, org, x);
    }
    forall x ensures EnvRow(a', org, x) == EnvRow(b', org, x) {
      RowsWithoutProject(a, id, org, x);
      RowsWithoutProject(b, id, org, x);
      assert EnvRow(a, org, x) == EnvRow(b, org, x);
    }
    forall u ensures UserRow(a', org, u) == UserRow(b', org, u) {
      assert UserRow(a, org, u) == UserRow(b, org, u);
    }
  }

  // ---- Other orgs are untouched -----------------------------------------------------------

  lemma AgreeTransitive(a: Db, b: Db, c: Db, o: OrgId)
    requires Agree(a, b, o) && Agree(b, c, o)
    ensures Agree(a, c, o)
  {
  }

  lemma FrameWithProject(db: Db, id: Id, p: Project, o: OrgId)
    requires Inv(db) && o != p.org && id !in db.projects
    ensures Agree(WithProject(db, id, p), db, o)
  {
  }

  lemma FrameWithEnv(db: Db, id: Id, e: Env, org: OrgId, o: OrgId)
    requires Inv(db) && o != org && id !in db.envs && ProjectIn(db, org, e.proj)
    ensures Agree(WithEnv(db, id, e), db, o)
  {
  }

  lemma FrameWithoutEnvs(db: Db, gone: set<Id>, o: OrgId)
    requires forall x | x in gone :: EnvRow(db, o, x).None?
    ensures Agree(WithoutEnvs(db, gone), db, o)
  {
  }

  lemma FrameWithoutProject(db: Db, id: Id, org: OrgId, o: OrgId)
    requires Inv(db) && o != org && ProjectIn(db, org, id)
    ensures Agree(WithoutProject(db, id), db, o)
  {
  }

  lemma FrameWithSecrets(db: Db, id: Id, rows: Rows, o: OrgId)
    requires Inv(db) && EnvRow(db, o, id).None?
    ensures Agree(WithSecrets(db, id, rows), db, o)
  {
  }

  lemma FrameWithVault(db: Db, org: OrgId, rows: Rows, o: OrgId)
    requires o != org
    ensures Agree(WithVault(db, org, rows), db, o)
  {
  }

  lemma FrameWithUser(db: Db, id: Id, user: User, o: OrgId)
    requires id in db.users && db.users[id].org != o && user.org != o
    ensures Agree(WithUser(db, id, user), db, o)
  {
  }

  lemma FrameRest(db: Db, caller: Caller, op: Op, o: OrgId)
    requires Inv(db) && o != caller.org && !ChangesEnvs(op)
    ensures Agree(Serve(db, caller, op).0, db, o)
  {
    if Serve(db, caller, op).1.Ok? {
      match op
      case OnSecrets(project, env, work) =>
        SameResolve(db, db, caller, project, env);
        var e := ResolveEnv(db, caller, project, env).value;
        FrameWithSecrets(db, e, work(db.secrets[e]).0, o);
      case WriteVault(work) => FrameWithVault(db, caller.org, work(VaultOf(db, caller.org)).0, o);
      case ChangeRole(target, role) => FrameWithUser(db, target, db.users[target].(role := role), o);
      case Revoke(target) => FrameWithUser(db, target, db.users[target].(revoked := true), o);
      case ListUsers =>
      case ReadVault(_) =>
    }
  }

  lemma FrameCreateProject(db: Db, caller: Caller, op: Op, o: OrgId)
    requires op.CreateProject? && Inv(db) && Fresh(db, op) && o != caller.org && Serve(db, caller, op).1.Ok?
    ensures Agree(Serve(db, caller, op).0, db, o)
  {
    var p := Project(caller.org, op.slug);
    FrameWithProject(db, op.id, p, o);
    WithProjectKeepsInv(db, op.id, p);
    FrameWithEnv(WithProject(db, op.id, p), op.devId, Env(op.id, "dev"), caller.org, o);
    AgreeTransitive(Serve(db, caller, op).0, WithProject(db, op.id, p), db, o);
  }

  lemma FrameChangeEnv(db: Db, caller: Caller, op: Op, o: OrgId)
    requires (op.CreateEnv? || op.CloneEnv? || op.DeleteEnv?) && Inv(db) && Fresh(db, op) && o != caller.org
    requires Serve(db, caller, op).1.Ok?
    ensures Agree(Serve(db, caller, op).0, db, o)
  {
    match op
    case CreateEnv(project, slug, id) =>
      FrameWithEnv(db, id, Env(RequireProject(db, caller, project).value, slug), caller.org, o);
    case CloneEnv(project, _, dest, id) =>
      FrameWithEnv(db, id, Env(RequireProject(db, caller, project).value, dest), caller.org, o);
    case DeleteEnv(project, slug) =>
      SameResolve(db, db, caller, project, slug);
      FrameWithoutEnvs(db, {ResolveEnv(db, caller, project, slug).value}, o);
  }

  /** A request leaves every row of every other org as it is. */
  lemma OtherOrgsUntouched(db: Db, caller: Caller, op: Op, o: OrgId)
    requires Inv(db) && Fresh(db, op) && o != caller.org
    ensures Agree(Serve(db, caller, op).0, db, o)
  {
    if !ChangesEnvs(op) {
      FrameRest(db, caller, op, o);
    } else if Serve(db, caller, op).1.Ok? {
      if op.CreateProject? {
        FrameCreateProject(db, caller, op, o);
      } else if op.DeleteProject? {
        FrameWithoutProject(db, RequireProject(db, caller, op.slug).value, caller.org, o);
      } else {
        FrameChangeEnv(db, caller, op, o);
      }
    }
  }

  // ---- Replies depend on the caller's org only ----------------------------------------------

  lemma SameProject(a: Db, b: Db, caller: Caller, slug: string)
    requires Inv(a) && Inv(b) && Agree(a, b, caller.org)
    ensures RequireProject(a, caller, slug) == RequireProject(b, caller, slug)
    ensures RequireProject(a, caller, slug).Ok? ==>
              var p := RequireProject(a, caller, slug).value;
              ProjectIn(a, caller.org, p) && ProjectIn(b, caller.org, p)
  {
    var k := Project(caller.org, slug);
    if k in a.projectIndex { assert ProjectRow(a, caller.org, a.projectIndex[k]) == Some(k); }
    if k in b.projectIndex { assert ProjectRow(b, caller.org, b.projectIndex[k]) == Some(k); }
  }

  lemma SameEnvIndex(a: Db, b: Db, org: OrgId, e: Env)
    requires Inv(a) && Inv(b) && Agree(a, b, org) && ProjectIn(a, org, e.proj) && ProjectIn(b, org, e.proj)
    ensures e in a.envIndex <==> e in b.envIndex
    ensures e in a.envIndex ==>
              && a.envIndex[e] == b.envIndex[e]
              && EnvRow(a, org, a.envIndex[e]).Some? && EnvRow(a, org, a.envIndex[e]) == EnvRow(b, org, a.envIndex[e])
  {
    if e in a.envIndex {
      assert EnvRow(a, org, a.envIndex[e]) == EnvRow(b, org, a.envIndex[e]);
    }
    if e in b.envIndex {
      assert EnvRow(a, org, b.envIndex[e]) == EnvRow(b, org, b.envIndex[e]);
    }
  }

  lemma SameResolve(a: Db, b: Db, caller: Caller, project: string, env: string)
    requires Inv(a) && Inv(b) && Agree(a, b, caller.org)
    ensures ResolveEnv(a, caller, project, env) == ResolveEnv(b, caller, project, env)
    ensures ResolveEnv(a, caller, project, env).Ok? ==>
              var e := ResolveEnv(a, caller, project, env).value;
              && EnvRow(a, caller.org, e).Some? && EnvRow(a, caller.org, e) == EnvRow(b, caller.org, e)
  {
    SameProject(a, b, caller, project);
    var p := RequireProject(a, caller, project);
    if p.Ok? { SameEnvIndex(a, b, caller.org, Env(p.value, env)); }
  }

  lemma SameUsers(a: Db, b: Db, org: OrgId)
    requires Agree(a, b, org)
    ensures UsersOf(a, org) == UsersOf(b, org)
  {
    forall u
      ensures u in UsersOf(a, org) <==> u in UsersOf(b, org)
      ensures u in UsersOf(a, org) ==> UsersOf(a, org)[u] == UsersOf(b, org)[u]
    {
      assert UserRow(a, org, u) == UserRow(b, org, u);
    }
  }

  lemma CreateProjectAgrees(a: Db, b: Db, caller: Caller, op: Op)
    requires op.CreateProject?
    requires Inv(a) && Inv(b) && Fresh(a, op) && Fresh(b, op) && Agree(a, b, caller.org)
    ensures Serve(a, caller, op).1 == Serve(b, caller, op).1
    ensures Agree(Serve(a, caller, op).0, Serve(b, caller, op).0, caller.org)
  {
    SameProject(a, b, caller, op.slug);
    var p := Project(caller.org, op.slug);
    if Serve(a, caller, op).1.Ok? {
      WithProjectKeepsInv(a, op.id, p);
      WithProjectKeepsInv(b, op.id, p);
      AgreeWithProject(a, b, op.id, p, caller.org);
      AgreeWithEnv(WithProject(a, op.id, p), WithProject(b, op.id, p), op.devId, Env(op.id, "dev"), caller.org);
    }
  }

  lemma DeleteProjectAgrees(a: Db, b: Db, caller: Caller, op: Op)
    requires op.DeleteProject? && Inv(a) && Inv(b) && Agree(a, b, caller.org)
    ensures Serve(a, caller, op).1 == Serve(b, caller, op).1
    ensures Agree(Serve(a, caller, op).0, Serve(b, caller, op).0, caller.org)
  {
    SameProject(a, b, caller, op.slug);
    var p := RequireProject(a, caller, op.slug);
    if p.Ok? { AgreeWithoutProject(a, b, p.value, caller.org); }
  }

  lemma CreateEnvAgrees(a: Db, b: Db, caller: Caller, op: Op)
    requires op.CreateEnv? && Inv(a) && Inv(b) && Fresh(a, op) && Fresh(b, op) && Agree(a, b, caller.org)
    ensures Serve(a, caller, op).1 == Serve(b, caller, op).1
    ensures Agree(Serve(a, caller, op).0, Serve(b, caller, op).0, caller.org)
  {
    SameProject(a, b, caller, op.project);
    var p := RequireProject(a, caller, op.project);
    if p.Ok? {
      SameEnvIndex(a, b, caller.org, Env(p.value, op.slug));
      AgreeWithEnv(a, b, op.id, Env(p.value, op.slug), caller.org);
    }
  }

  lemma CloneEnvAgrees(a: Db, b: Db, caller: Caller, op: Op)
    requires op.CloneEnv? && Inv(a) && Inv(b) && Fresh(a, op) && Fresh(b, op) && Agree(a, b, caller.org)
    ensures Serve(a, caller, op).1 == Serve(b, caller, op).1
    ensures Agree(Serve(a, caller, op).0, Serve(b, caller, op).0, caller.org)
  {
    SameProject(a, b, caller, op.project);
    var p := RequireProject(a, caller, op.project);
    if p.Ok? {
      SameEnvIndex(a, b, caller.org, Env(p.value, op.src));
      SameEnvIndex(a, b, caller.org, Env(p.value, op.dest));
      AgreeWithEnv(a, b, op.id, Env(p.value, op.dest), caller.org);
    }
  }

  lemma DeleteEnvAgrees(a: Db, b: Db, caller: Caller, op: Op)
    requires op.DeleteEnv? && Inv(a) && Inv(b) && Agree(a, b, caller.org)
    ensures Serve(a, caller, op).1 == Serve(b, caller, op).1
    ensures Agree(Serve(a, caller, op).0, Serve(b, caller, op).0, caller.org)
  {
    SameResolve(a, b, caller, op.project, op.slug);
    var e := ResolveEnv(a, caller, op.project, op.slug);
    if e.Ok? { AgreeWithoutEnvs(a, b, {e.value}, caller.org); }
  }

  lemma ChangeEnvsAgrees(a: Db, b: Db, caller: Caller, op: Op)
    requires ChangesEnvs(op)
    requires Inv(a) && Inv(b) && Fresh(a, op) && Fresh(b, op) && Agree(a, b, caller.org)
    ensures Serve(a, caller, op).1 == Serve(b, caller, op).1
    ensures Agree(Serve(a, caller, op).0, Serve(b, caller, op).0, caller.org)
  {
    match op
    case CreateProject(_, _, _) => CreateProjectAgrees(a, b, caller, op);
    case DeleteProject(_) => DeleteProjectAgrees(a, b, caller, op);
    case CreateEnv(_, _, _) => CreateEnvAgrees(a, b, caller, op);
    case CloneEnv(_, _, _, _) => CloneEnvAgrees(a, b, caller, op);
    case DeleteEnv(_, _) => DeleteEnvAgrees(a, b, caller, op);
  }

  lemma AgreeWithSecrets(a: Db, b: Db, id: Id, rows: Rows, org: OrgId)
    requires Agree(a, b, org) && EnvRow(a, org, id).Some?
    ensures Agree(WithSecrets(a, id, rows), WithSecrets(b, id, rows), org)
  {
    var a', b' := WithSecrets(a, id, rows), WithSecrets(b, id, rows);
    assert EnvRow(a, org, id) == EnvRow(b, org, id);
    forall x ensures EnvRow(a', org, x) == EnvRow(b', org, x) {
      assert EnvRow(a, org, x) == EnvRow(b, org, x);
    }
    SameElsewhere(a, b, a', b', org);
  }

  lemma OnSecretsAgrees(a: Db, b: Db, caller: Caller, op: Op)
    requires op.OnSecrets? && Inv(a) && Inv(b) && Agree(a, b, caller.org)
    ensures Serve(a, caller, op).1 == Serve(b, caller, op).1
    ensures Agree(Serve(a, caller, op).0, Serve(b, caller, op).0, caller.org)
  {
    SameResolve(a, b, caller, op.project, op.env);
    var e := ResolveEnv(a, caller, op.project, op.env);
    if e.Ok? { AgreeWithSecrets(a, b, e.value, (op.work)(a.secrets[e.value]).0, caller.org); }
  }

  /** Changes to vaults and users leave projects and environments in agreement. */
  lemma SameProjectsAndEnvs(a: Db, b: Db, a': Db, b': Db, org: OrgId)
    requires Agree(a, b, org)
    requires a' == a.(vault := a'.vault, users := a'.users) && b' == b.(vault := b'.vault, users := b'.users)
    requires VaultOf(a', org) == VaultOf(b', org)
    requires forall u :: UserRow(a', org, u) == UserRow(b', org, u)
    ensures Agree(a', b', org)
  {
    forall p ensures ProjectRow(a', org, p) == ProjectRow(b', org, p) { assert ProjectRow(a, org, p) == ProjectRow(b, org, p); }
    forall e ensures EnvRow(a', org, e) == EnvRow(b', org, e) { assert EnvRow(a, org, e) == EnvRow(b, org, e); }
  }

  lemma AgreeWithUser(a: Db, b: Db, target: Id, user: User, org: OrgId)
    requires Agree(a, b, org)
    ensures Agree(WithUser(a, target, user), WithUser(b, target, user), org)
  {
    var a', b' := WithUser(a, target, user), WithUser(b, target, user);
    forall u ensures UserRow(a', org, u) == UserRow(b', org, u) {
      assert UserRow(a, org, u) == UserRow(b, org, u);
    }
    SameProjectsAndEnvs(a, b, a', b', org);
  }

  lemma AgreeWithVault(a: Db, b: Db, rows: Rows, org: OrgId)
    requires Agree(a, b, org)
    ensures Agree(WithVault(a, org, rows), WithVault(b, org, rows), org)
  {
    var a', b' := WithVault(a, org, rows), WithVault(b, org, rows);
    forall u ensures UserRow(a', org, u) == UserRow(b', org, u) {
      assert UserRow(a, org, u) == UserRow(b, org, u);
    }
    SameProjectsAndEnvs(a, b, a', b', org);
  }

  lemma UserOpAgrees(a: Db, b: Db, caller: Caller, op: Op)
    requires (op.ChangeRole? || op.Revoke?) && Inv(a) && Inv(b) && Agree(a, b, caller.org)
    ensures Serve(a, caller, op).1 == Serve(b, caller, op).1
    ensures Agree(Serve(a, caller, op).0, Serve(b, caller, op).0, caller.org)
  {
    assert UserRow(a, caller.org, op.target) == UserRow(b, caller.org, op.target);
    if Members.InOrg(a.users, caller.org, op.target) {
      var user := a.users[op.target];
      AgreeWithUser(a, b, op.target, if op.ChangeRole? then user.(role := op.role) else user.(revoked := true), caller.org);
    }
  }

  lemma ReadsAgree(a: Db, b: Db, caller: Caller, op: Op)
    requires (op.ListUsers? || op.ReadVault?) && Inv(a) && Inv(b) && Agree(a, b, caller.org)
    ensures Serve(a, caller, op).1 == Serve(b, caller, op).1
    ensures Agree(Serve(a, caller, op).0, Serve(b, caller, op).0, caller.org)
  {
    SameUsers(a, b, caller.org);
  }

  lemma WriteVaultAgrees(a: Db, b: Db, caller: Caller, op: Op)
    requires op.WriteVault? && Inv(a) && Inv(b) && Agree(a, b, caller.org)
    ensures Serve(a, caller, op).1 == Serve(b, caller, op).1
    ensures Agree(Serve(a, caller, op).0, Serve(b, caller, op).0, caller.org)
  {
    if Serve(a, caller, op).1.Ok? {
      AgreeWithVault(a, b, (op.vaultWork)(VaultOf(a, caller.org)).0, caller.org);
    }
  }

  /** Two servers that agree on the caller's org give the same reply and still agree on it after. */
  lemma OnlyOwnOrgMatters(a: Db, b: Db, caller: Caller, op: Op)
    requires Inv(a) && Inv(b) && Fresh(a, op) && Fresh(b, op) && Agree(a, b, caller.org)
    ensures Serve(a, caller, op).1 == Serve(b, caller, op).1
    ensures Agree(Serve(a, caller, op).0, Serve(b, caller, op).0, caller.org)
  {
    if ChangesEnvs(op) {
      ChangeEnvsAgrees(a, b, caller, op);
    } else if op.OnSecrets? {
      OnSecretsAgrees(a, b, caller, op);
    } else if op.ChangeRole? || op.Revoke? {
      UserOpAgrees(a, b, caller, op);
    } else if op.WriteVault? {
      WriteVaultAgrees(a, b, caller, op);
    } else {
      ReadsAgree(a, b, caller, op);
    }
  }

  // ---- Roles and cascades -------------------------------------------------------------------

  /** Members who are not admins change nothing but secret rows, and those only by secret operations. */
  lemma OnlyAdminsManage(db: Db, caller: Caller, op: Op)
    requires Inv(db) && !Members.IsAdmin(caller)
    ensures var db' := Serve(db, caller, op).0;
            db' == db.(secrets := db'.secrets) && (!op.OnSecrets? ==> db' == db)
  {
  }

  /** Deleting a project removes it and every environment and secret row of it, and nothing else of
      the org. */
  lemma DeleteCascades(db: Db, caller: Caller, slug: string, x: Id)
    requires Inv(db) && Serve(db, caller, DeleteProject(slug)).1.Ok?
    ensures var db', p := Serve(db, caller, DeleteProject(slug)).0, RequireProject(db, caller, slug).value;
            && RequireProject(db', caller, slug) == Err(ProjectNotFound)
            && (x in db'.envs <==> x in db.envs && db.envs[x].proj != p)
            && (x in db'.secrets <==> x in db'.envs)
            && (x in db'.envs ==> db'.secrets[x] == db.secrets[x])
            && (x in db'.projects <==> x in db.projects && x != p)
  {
  }

  /** What the lookups find, told from the tables: a project of the caller's org by its slug, and an
      environment of that project by its own. */
  lemma LookupsFind(db: Db, caller: Caller, project: string, env: string, x: Id)
    requires Inv(db)
    ensures RequireProject(db, caller, project) == Ok(x) <==> x in db.projects && db.projects[x] == Project(caller.org, project)
    ensures RequireProject(db, caller, project).Err? ==> RequireProject(db, caller, project) == Err(ProjectNotFound)
    ensures ResolveEnv(db, caller, project, env) == Ok(x) <==>
              && x in db.envs && db.envs[x].slug == env && db.envs[x].proj in db.projects
              && db.projects[db.envs[x].proj] == Project(caller.org, project)
    ensures ResolveEnv(db, caller, project, env).Err? ==>
              ResolveEnv(db, caller, project, env) ==
              Err(if RequireProject(db, caller, project).Err? then ProjectNotFound else EnvNotFound)
  {
  }

  /** `e` is the environment `env` of the project `project` of the caller's org. */
  predicate Names(db: Db, caller: Caller, project: string, env: string, e: Id) {
    && e in db.envs && e in db.secrets && db.envs[e].slug == env && db.envs[e].proj in db.projects
    && db.projects[db.envs[e].proj] == Project(caller.org, project)
  }

  /** A secret operation works on exactly the rows of the environment it names: its reply and its
      change come from them, and nothing else changes. */
  lemma OnSecretsEffect(db: Db, caller: Caller, project: string, env: string, work: Work, e: Id)
    requires Inv(db) && Names(db, caller, project, env, e)
    ensures var (rows, text) := work(db.secrets[e]);
            Serve(db, caller, OnSecrets(project, env, work)) ==
            (db.(secrets := db.secrets[e := rows]), Ok(Text(text)))
  {
    LookupsFind(db, caller, project, env, e);
  }

  /** A secret operation that names no environment of the caller's org fails and changes nothing. */
  lemma OnSecretsRefused(db: Db, caller: Caller, project: string, env: string, work: Work)
    requires Inv(db) && forall e :: !Names(db, caller, project, env, e)
    ensures var (db', r) := Serve(db, caller, OnSecrets(project, env, work));
            && db' == db
            && r == Err(if RequireProject(db, caller, project).Err? then ProjectNotFound else EnvNotFound)
  {
    var e := ResolveEnv(db, caller, project, env);
    if e.Ok? {
      LookupsFind(db, caller, project, env, e.value);
      assert Names(db, caller, project, env, e.value);
    } else {
      LookupsFind(db, caller, project, env, 0);
    }
  }

  /** What one request of an org writes to an environment is what the org's next request reads there. */
  lemma ReadAfterWrite(db: Db, writer: Caller, reader: Caller, project: string, env: string, write: Work, read: Work, e: Id)
    requires Inv(db) && Names(db, writer, project, env, e) && reader.org == writer.org
    ensures var db' := Serve(db, writer, OnSecrets(project, env, write)).0;
            && Inv(db')
            && Serve(db', reader, OnSecrets(project, env, read)).1 == Ok(Text(read(write(db.secrets[e]).0).1))
  {
    OnSecretsEffect(db, writer, project, env, write, e);
    ServeKeepsInv(db, writer, OnSecrets(project, env, write));
    OnSecretsEffect(Serve(db, writer, OnSecrets(project, env, write)).0, reader, project, env, read, e);
  }

  /** The vault is the org's own: any member reads its rows, an admin's write is what is read next, and
      nothing else changes. */
  lemma VaultEffect(db: Db, caller: Caller, reader: Caller, write: Work, view: Rows -> string)
    requires Inv(db) && reader.org == caller.org
    ensures var rows := if caller.org in db.vault then db.vault[caller.org] else map[];
            var (db', r) := Serve(db, caller, WriteVault(write));
            && Serve(db, reader, ReadVault(view)) == (db, Ok(Text(view(rows))))
            && (caller.role != "admin" ==> db' == db && r == Err(Access(Members.Forbidden)))
            && (caller.role == "admin" ==>
                  && db' == db.(vault := db.vault[caller.org := write(rows).0])
                  && r == Ok(Text(write(rows).1))
                  && Inv(db') && Serve(db', reader, ReadVault(view)).1 == Ok(Text(view(write(rows).0))))
  {
    ServeKeepsInv(db, caller, WriteVault(write));
  }

  /** An admin sees exactly the users of the own org; nobody else sees any. */
  lemma ListUsersEffect(db: Db, caller: Caller, u: Id)
    requires Inv(db)
    ensures var (db', r) := Serve(db, caller, ListUsers);
            && db' == db
            && (caller.role != "admin" ==> r == Err(Access(Members.Forbidden)))
            && (caller.role == "admin" ==>
                  && r.Ok? && r.value.Users?
                  && (u in r.value.users <==> u in db.users && db.users[u].org == caller.org)
                  && (u in r.value.users ==> r.value.users[u] == db.users[u]))
  {
  }

  /** A user operation either is refused and changes nothing, or changes exactly its target's role or
      revocation. */
  lemma UserOpEffect(db: Db, caller: Caller, target: Id, role: string)
    requires Inv(db)
    ensures var (db', r) := Serve(db, caller, ChangeRole(target, role));
            && (r.Ok? <==>
                  && caller.role == "admin" && (role == "admin" || role == "developer")
                  && target in db.users && db.users[target].org == caller.org
                  && (target == caller.user ==> role == "admin"))
            && (r.Err? ==> db' == db)
            && (r.Ok? ==>
                  var u := db.users[target];
                  && r.value == Row(Members.User(u.org, u.email, role, u.revoked))
                  && db' == db.(users := db.users[target := Members.User(u.org, u.email, role, u.revoked)]))
    ensures var (db', r) := Serve(db, caller, Revoke(target));
            && (r.Ok? <==>
                  caller.role == "admin" && target != caller.user && target in db.users && db.users[target].org == caller.org)
            && (r.Err? ==> db' == db)
            && (r.Ok? ==>
                  var u := db.users[target];
                  db' == db.(users := db.users[target := Members.User(u.org, u.email, u.role, true)]))
  {
  }

  /** Creating a project succeeds exactly for an admin and a nonempty slug that is free in the org.  It
      adds the project with one empty environment `dev`; all else resolves as before. */
  lemma CreateProjectEffect(db: Db, caller: Caller, slug: string, id: Id, devId: Id)
    requires Inv(db) && Fresh(db, CreateProject(slug, id, devId))
    ensures var (db', r) := Serve(db, caller, CreateProject(slug, id, devId));
            && (r.Ok? <==> Members.IsAdmin(caller) && slug != "" && RequireProject(db, caller, slug).Err?)
            && (r.Err? ==>
                  && db' == db
                  && r == (if !Members.IsAdmin(caller) then Err(FORBIDDEN) else if slug == "" then Err(INVALID) else Err(ProjectExists)))
            && (r.Ok? ==>
                  && r.value == NewId(id)
                  && db'.projects == db.projects[id := Project(caller.org, slug)]
                  && db'.envs == db.envs[devId := Env(id, "dev")] && db'.secrets == db.secrets[devId := map[]]
                  && db'.vault == db.vault && db'.users == db.users
                  && (forall p, e ::
                        ResolveEnv(db', caller, p, e) ==
                        if p != slug then ResolveEnv(db, caller, p, e)
                        else if e == "dev" then Ok(devId) else Err(EnvNotFound)))
  {
    if Serve(db, caller, CreateProject(slug, id, devId)).1.Ok? { CreatedWithDev(db, caller, slug, id, devId); }
  }

  /** Deleting a project succeeds exactly for an admin and an existing project.  The project goes with
      its environments and their rows; all else resolves as before. */
  lemma DeleteProjectEffect(db: Db, caller: Caller, slug: string)
    requires Inv(db)
    ensures var (db', r) := Serve(db, caller, DeleteProject(slug));
            && (r.Ok? <==> Members.IsAdmin(caller) && RequireProject(db, caller, slug).Ok?)
            && (r.Err? ==> db' == db && r == if !Members.IsAdmin(caller) then Err(FORBIDDEN) else Err(ProjectNotFound))
            && (r.Ok? ==>
                  var p := RequireProject(db, caller, slug).value;
                  && db'.projects == db.projects - {p}
                  && db'.envs == (map x | x in db.envs && db.envs[x].proj != p :: db.envs[x])
                  && db'.secrets == (map x | x in db.secrets && x in db'.envs :: db.secrets[x])
                  && db'.vault == db.vault && db'.users == db.users
                  && (forall q, e ::
                        ResolveEnv(db', caller, q, e) ==
                        if q == slug then Err(ProjectNotFound) else ResolveEnv(db, caller, q, e)))
  {
  }

  /** A new project resolves at once, and starts with an empty `dev` environment. */
  lemma CreatedWithDev(db: Db, caller: Caller, slug: string, id: Id, devId: Id)
    requires Inv(db) && Fresh(db, CreateProject(slug, id, devId))
    requires Serve(db, caller, CreateProject(slug, id, devId)).1.Ok?
    ensures var db' := Serve(db, caller, CreateProject(slug, id, devId)).0;
            && RequireProject(db', caller, slug) == Ok(id)
            && (forall env :: ResolveEnv(db', caller, slug, env) == (if env == "dev" then Ok(devId) else Err(EnvNotFound)))
            && devId in db'.secrets && db'.secrets[devId] == map[]
  {
  }

  /** `db'` is `db` with one more environment, `slug` of `project`: it resolves to `id` and has no rows,
      and every other environment resolves as before and keeps its rows. */
  predicate AddsEmptyEnv(db: Db, db': Db, id: Id) {
    && id !in db.envs && db'.envs.Keys == db.envs.Keys + {id}
    && db'.secrets == db.secrets[id := map[]]
    && (forall x | x in db.envs :: x in db'.envs && db'.envs[x] == db.envs[x])
    && db' == db.(envs := db'.envs, envIndex := db'.envIndex, secrets := db'.secrets)
  }

  ghost predicate OnlyResolves(db: Db, db': Db, caller: Caller, project: string, slug: string, to: Result<Id, Error>) {
    forall p, e ::
      ResolveEnv(db', caller, p, e) == if p == project && e == slug then to else ResolveEnv(db, caller, p, e)
  }

  lemma WithEnvEffect(db: Db, caller: Caller, project: string, slug: string, id: Id)
    requires Inv(db) && id !in db.envs && ResolveEnv(db, caller, project, slug) == Err(EnvNotFound)
    ensures RequireProject(db, caller, project).Ok?
    ensures var db' := WithEnv(db, id, Env(RequireProject(db, caller, project).value, slug));
            AddsEmptyEnv(db, db', id) && OnlyResolves(db, db', caller, project, slug, Ok(id))
  {
  }

  /** Creating an environment succeeds exactly for an admin, a nonempty slug, an existing project and
      a slug that is not taken; it adds an empty environment and changes nothing else. */
  lemma CreateEnvEffect(db: Db, caller: Caller, project: string, slug: string, id: Id)
    requires Inv(db) && Fresh(db, CreateEnv(project, slug, id))
    ensures var (db', r) := Serve(db, caller, CreateEnv(project, slug, id));
            && (r.Ok? <==> Members.IsAdmin(caller) && slug != "" && ResolveEnv(db, caller, project, slug) == Err(EnvNotFound))
            && (r == Err(FORBIDDEN) <==> !Members.IsAdmin(caller))
            && (r == Err(INVALID) <==> Members.IsAdmin(caller) && slug == "")
            && (r == Err(EnvExists) <==> Members.IsAdmin(caller) && slug != "" && ResolveEnv(db, caller, project, slug).Ok?)
            && (r.Ok? ==>
                  && r.value == NewId(id) && AddsEmptyEnv(db, db', id)
                  && OnlyResolves(db, db', caller, project, slug, Ok(id)))
            && (r.Err? ==> db' == db)
  {
    if ResolveEnv(db, caller, project, slug) == Err(EnvNotFound) {
      WithEnvEffect(db, caller, project, slug, id);
    }
  }

  /** A clone takes no rows along, so it shows the source's live secrets exactly if there are none. */
  lemma EmptyShowsIff(rows: Rows)
    ensures (forall k :: VersionedTables.At(map[], k).live == VersionedTables.At(rows, k).live) <==>
            (forall k :: VersionedTables.At(rows, k).live.None?)
  {
    if forall k :: VersionedTables.At(map[], k).live == VersionedTables.At(rows, k).live {
      forall k ensures VersionedTables.At(rows, k).live.None? {
        assert VersionedTables.At(map[], k).live == VersionedTables.At(rows, k).live;
      }
    }
  }

  /** Cloning succeeds exactly for an admin, a nonempty new slug and an existing source; it adds an
      empty environment, whatever the source holds, and leaves the source as it is. */
  lemma CloneEnvEffect(db: Db, caller: Caller, project: string, src: string, dest: string, id: Id)
    requires Inv(db) && Fresh(db, CloneEnv(project, src, dest, id))
    ensures var (db', r) := Serve(db, caller, CloneEnv(project, src, dest, id));
            && (r.Ok? <==>
                  && Members.IsAdmin(caller) && dest != "" && ResolveEnv(db, caller, project, src).Ok?
                  && ResolveEnv(db, caller, project, dest) == Err(EnvNotFound))
            && (r == Err(FORBIDDEN) <==> !Members.IsAdmin(caller))
            && (r == Err(INVALID) <==> Members.IsAdmin(caller) && dest == "")
            && (r.Err? && Members.IsAdmin(caller) && dest != "" ==>
                  r.error == if ResolveEnv(db, caller, project, src).Err? then ResolveEnv(db, caller, project, src).error else EnvExists)
            && (r.Ok? ==>
                  var from := ResolveEnv(db, caller, project, src).value;
                  && r.value == NewId(id) && AddsEmptyEnv(db, db', id)
                  && OnlyResolves(db, db', caller, project, dest, Ok(id))
                  && from in db'.secrets && db'.secrets[from] == db.secrets[from]
                  && ((forall k :: VersionedTables.At(db'.secrets[id], k).live == VersionedTables.At(db.secrets[from], k).live)
                      <==> (forall k :: VersionedTables.At(db.secrets[from], k).live.None?)))
            && (r.Err? ==> db' == db)
  {
    if ResolveEnv(db, caller, project, src).Ok? && ResolveEnv(db, caller, project, dest) == Err(EnvNotFound) {
      WithEnvEffect(db, caller, project, dest, id);
      EmptyShowsIff(db.secrets[ResolveEnv(db, caller, project, src).value]);
    }
  }

  /** A clone does lose secrets: a source with one live secret and its clone without it. */
  lemma CloneDropsSecrets(key: string, row: VersionedTables.Row)
    ensures var secret := VersionedTables.Cell(Some(row), [VersionedTables.HistRow(row.version, row.blob)]);
            var p, e := Project(0, "web"), Env(0, "dev");
            var db := Db(map[0 := p], map[p := 0], map[0 := e], map[e := 0], map[0 := map[key := secret]], map[], map[]);
            var caller := Members.AuthContext(0, 0, Members.ADMIN);
            && Inv(db)
            && var (db', r) := Serve(db, caller, CloneEnv("web", "dev", "qa", 1));
               && r.Ok?
               && ResolveEnv(db', caller, "web", "qa") == Ok(1) && 1 in db'.secrets
               && VersionedTables.At(db.secrets[0], key).live == Some(row)
               && VersionedTables.At(db'.secrets[1], key).live == None
  {
  }

  /** `db'` is `db` without one environment and its rows. */
  predicate RemovesEnv(db: Db, db': Db, id: Id) {
    && id in db.envs && db'.envs == db.envs - {id} && db'.secrets == db.secrets - {id}
    && db' == db.(envs := db'.envs, envIndex := db'.envIndex, secrets := db'.secrets)
  }

  /** Deleting an environment succeeds exactly for an admin and an existing environment; it and its
      rows go, and every other environment resolves as before and keeps its rows. */
  lemma DeleteEnvEffect(db: Db, caller: Caller, project: string, slug: string)
    requires Inv(db)
    ensures var (db', r) := Serve(db, caller, DeleteEnv(project, slug));
            && (r.Ok? <==> Members.IsAdmin(caller) && ResolveEnv(db, caller, project, slug).Ok?)
            && (r == Err(FORBIDDEN) <==> !Members.IsAdmin(caller))
            && (r.Err? && Members.IsAdmin(caller) ==> r == Err(ResolveEnv(db, caller, project, slug).error))
            && (r.Ok? ==>
                  && RemovesEnv(db, db', ResolveEnv(db, caller, project, slug).value)
                  && OnlyResolves(db, db', caller, project, slug, Err(EnvNotFound)))
            && (r.Err? ==> db' == db)
  {
  }

  // ---- Whole runs -------------------------------------------------------------------------

  datatype Call = Call(caller: Caller, op: Op)

  /** The tables after a run and the replies to it; None if some call repeats an identifier. */
  function ServeAll(db: Db, calls: seq<Call>): (r: Option<Db>)
    requires Inv(db)
    ensures r.Some? ==> Inv(r.value)
  {
    if calls == [] then Some(db)
    else
      match ServeAll(db, calls[..|calls| - 1])
      case None => None
      case Some(before) =>
        var last := calls[|calls| - 1];
        if !Fresh(before, last.op) then None
        else
          ServeKeepsInv(before, last.caller, last.op);
          Some(Serve(before, last.caller, last.op).0)
  }

  /** The calls of one org's users. */
  function CallsOf(calls: seq<Call>, org: OrgId): seq<Call> {
    if calls == [] then []
    else
      var init, last := CallsOf(calls[..|calls| - 1], org), calls[|calls| - 1];
      if last.caller.org == org then init + [last] else init
  }

  /** Isolation over whole runs: after any run an org's rows are what they would be had only its own
      users called, and so is the reply to the next call of one of them. */
  lemma {:induction false} OrgsIsolated(db: Db, calls: seq<Call>, org: OrgId)
    requires Inv(db) && ServeAll(db, calls).Some? && ServeAll(db, CallsOf(calls, org)).Some?
    ensures var all, own := ServeAll(db, calls).value, ServeAll(db, CallsOf(calls, org)).value;
            && Agree(all, own, org)
            && forall caller: Caller, op | caller.org == org && Fresh(all, op) && Fresh(own, op) ::
                 Serve(all, caller, op).1 == Serve(own, caller, op).1
  {
    RowsIsolated(db, calls, org);
    var all, own := ServeAll(db, calls).value, ServeAll(db, CallsOf(calls, org)).value;
    forall caller: Caller, op | caller.org == org && Fresh(all, op) && Fresh(own, op)
      ensures Serve(all, caller, op).1 == Serve(own, caller, op).1
    {
      OnlyOwnOrgMatters(all, own, caller, op);
    }
  }

  lemma {:induction false} RowsIsolated(db: Db, calls: seq<Call>, org: OrgId)
    requires Inv(db) && ServeAll(db, calls).Some? && ServeAll(db, CallsOf(calls, org)).Some?
    ensures Agree(ServeAll(db, calls).value, ServeAll(db, CallsOf(calls, org)).value, org)
  {
    if calls != [] {
      var init, last := calls[..|calls| - 1], calls[|calls| - 1];
      var own := CallsOf(init, org);
      if last.caller.org == org {
        assert CallsOf(calls, org)[..|own|] == own;
        RowsIsolated(db, init, org);
        OnlyOwnOrgMatters(ServeAll(db, init).value, ServeAll(db, own).value, last.caller, last.op);
      } else {
        RowsIsolated(db, init, org);
        OtherOrgsUntouched(ServeAll(db, init).value, last.caller, last.op, org);
        AgreeTransitive(ServeAll(db, calls).value, ServeAll(db, init).value, ServeAll(db, own).value, org);
      }
    }
  }

  // ---- A write that comes after its lookup ---------------------------------------------------

  predicate Creates(op: Op, e: Id) {
    (op.CreateProject? && op.devId == e) || ((op.CreateEnv? || op.CloneEnv?) && op.id == e)
  }

  /** A request gives no org an environment but the one it creates. */
  lemma NotGained(db: Db, caller: Caller, op: Op, o: OrgId, e: Id)
    requires Inv(db) && Fresh(db, op) && !Creates(op, e) && EnvRow(db, o, e).None?
    ensures EnvRow(Serve(db, caller, op).0, o, e).None?
  {
    if caller.org != o {
      OtherOrgsUntouched(db, caller, op, o);
      assert EnvRow(Serve(db, caller, op).0, o, e) == EnvRow(db, o, e);
    } else if ChangesEnvs(op) {
      OwnNotGained(db, caller, op, e);
    } else if op.OnSecrets? {
      SameResolve(db, db, caller, op.project, op.env);
    }
  }

  lemma OwnNotGained(db: Db, caller: Caller, op: Op, e: Id)
    requires Inv(db) && Fresh(db, op) && !Creates(op, e) && EnvRow(db, caller.org, e).None? && ChangesEnvs(op)
    ensures EnvRow(Serve(db, caller, op).0, caller.org, e).None?
  {
    if Serve(db, caller, op).1.Ok? {
      match op
      case CreateProject(slug, id, devId) =>
        var p := Project(caller.org, slug);
        RowsWithProject(db, id, p, caller.org, e);
        WithProjectKeepsInv(db, id, p);
        RowsWithEnv(WithProject(db, id, p), devId, Env(id, "dev"), caller.org, e);
      case DeleteProject(slug) => RowsWithoutProject(db, RequireProject(db, caller, slug).value, caller.org, e);
      case CreateEnv(project, slug, id) =>
        RowsWithEnv(db, id, Env(RequireProject(db, caller, project).value, slug), caller.org, e);
      case CloneEnv(project, _, dest, id) =>
        RowsWithEnv(db, id, Env(RequireProject(db, caller, project).value, dest), caller.org, e);
      case DeleteEnv(project, slug) =>
        RowsWithoutEnvs(db, {ResolveEnv(db, caller, project, slug).value}, caller.org, e);
    }
  }

  /** A caller that looked an environment up, and writes its rows after any requests of anybody,
      still reaches no other org: the environment is its own org's or gone. */
  lemma {:induction false} StaleWriteStaysInOrg(
    db: Db, caller: Caller, project: string, env: string, calls: seq<Call>, rows: Rows, o: OrgId)
    requires Inv(db) && ResolveEnv(db, caller, project, env).Ok? && o != caller.org
    requires ServeAll(db, calls).Some?
    requires forall i | 0 <= i < |calls| :: !Creates(calls[i].op, ResolveEnv(db, caller, project, env).value)
    ensures var e, now := ResolveEnv(db, caller, project, env).value, ServeAll(db, calls).value;
            EnvRow(now, o, e) == None && Agree(WithSecrets(now, e, rows), now, o)
  {
    var e := ResolveEnv(db, caller, project, env).value;
    if calls == [] {
      SameResolve(db, db, caller, project, env);
    } else {
      var init, last := calls[..|calls| - 1], calls[|calls| - 1];
      StaleWriteStaysInOrg(db, caller, project, env, init, rows, o);
      NotGained(ServeAll(db, init).value, last.caller, last.op, o, e);
    }
    FrameWithSecrets(ServeAll(db, calls).value, e, rows, o);
  }
}
