/** internal/service/projects.go: the methods that change project and environment rows. */
module ProjectService {
  import opened Wrappers
  import opened OrgScope
  import Members
  import Slug
  import Text

  /** A name that is blank has no slug, and trimming a name first does not change its slug. */
  lemma NameSlug(name: string, lower: Slug.Lower)
    ensures Slug.Slugify(Text.TrimSpace(name), lower) == Slug.Slugify(name, lower)
    ensures Text.TrimSpace(name) == "" ==> Slug.Slugify(name, lower) == ""
  {
    Text.TrimSpaceFacts(name);
  }

  class Projects {
    var db: Db

    ghost predicate Valid()
      reads this
    {
      Inv(db)
    }

    constructor ()
      ensures Valid()
    {
      db := Db(map[], map[], map[], map[], map[], map[], map[]);
    }

    /** Creates the project and, in the same transaction, its `dev` environment. */
    method Create(caller: Caller, name: string, lower: Slug.Lower, id: Id, devId: Id) returns (r: Result<Reply, Error>)
      requires Valid() && id !in db.projects && devId !in db.envs
      modifies this
      ensures Valid() && (db, r) == Serve(old(db), caller, CreateProject(Slug.Slugify(name, lower), id, devId))
      ensures var slug := Slug.Slugify(name, lower);
              && (r.Ok? <==> Members.IsAdmin(caller) && slug != "" && RequireProject(old(db), caller, slug).Err?)
              && (r.Ok? ==>
                    && RequireProject(db, caller, slug) == Ok(id)
                    && ResolveEnv(db, caller, slug, "dev") == Ok(devId)
                    && db.secrets == old(db.secrets)[devId := map[]])
      ensures r.Err? ==> db == old(db)
    {
      NameSlug(name, lower);
      ghost var op := CreateProject(Slug.Slugify(name, lower), id, devId);
      ServeKeepsInv(db, caller, op);
      if !Members.IsAdmin(caller) {
        return Err(FORBIDDEN);
      }
      var trimmed := Text.TrimSpace(name);
      if trimmed == "" {
        return Err(INVALID);
      }
      var slug := Slug.Slugify(trimmed, lower);
      if slug == "" {
        return Err(INVALID);
      }
      var p := Project(caller.org, slug);
      if p in db.projectIndex {
        return Err(ProjectExists);
      }
      CreatedWithDev(db, caller, slug, id, devId);
      db := WithProject(db, id, p);
      db := WithEnv(db, devId, Env(id, "dev"));
      return Ok(NewId(id));
    }

    /** Deletes the project; its environments and secrets go with it. */
    method Delete(caller: Caller, slug: string) returns (r: Result<Reply, Error>)
      requires Valid()
      modifies this
      ensures Valid() && (db, r) == Serve(old(db), caller, DeleteProject(slug))
      ensures r.Ok? <==> Members.IsAdmin(caller) && RequireProject(old(db), caller, slug).Ok?
      ensures r.Ok? ==>
                && RequireProject(db, caller, slug) == Err(ProjectNotFound)
                && db.envs.Keys == set x | x in old(db.envs) && old(db.envs)[x].proj != RequireProject(old(db), caller, slug).value
                && forall x | x in db.envs :: x in db.secrets && db.secrets[x] == old(db.secrets)[x]
      ensures r.Err? ==> db == old(db)
    {
      ServeKeepsInv(db, caller, DeleteProject(slug));
      if !Members.IsAdmin(caller) {
        return Err(FORBIDDEN);
      }
      var p := RequireProject(db, caller, slug);
      if p.Err? {
        return Err(p.error);
      }
      db := WithoutProject(db, p.value);
      return Ok(Nothing);
    }

    /** Adds an empty environment and nothing else. */
    method CreateEnvironment(caller: Caller, project: string, name: string, lower: Slug.Lower, id: Id)
      returns (r: Result<Reply, Error>)
      requires Valid() && id !in db.envs
      modifies this
      ensures Valid() && (db, r) == Serve(old(db), caller, CreateEnv(project, Slug.Slugify(name, lower), id))
      ensures var slug := Slug.Slugify(name, lower);
              && (r.Ok? <==>
                    Members.IsAdmin(caller) && slug != "" && ResolveEnv(old(db), caller, project, slug) == Err(EnvNotFound))
              && (r.Ok? ==>
                    && AddsEmptyEnv(old(db), db, id)
                    && OnlyResolves(old(db), db, caller, project, slug, Ok(id)))
      ensures r.Err? ==> db == old(db)
    {
      ghost var op := CreateEnv(project, Slug.Slugify(name, lower), id);
      ServeKeepsInv(db, caller, op);
      CreateEnvEffect(db, caller, project, op.slug, id);
      if !Members.IsAdmin(caller) {
        return Err(FORBIDDEN);
      }
      var slug := Slug.Slugify(name, lower);
      if slug == "" {
        return Err(INVALID);
      }
      var p := RequireProject(db, caller, project);
      if p.Err? {
        return Err(p.error);
      }
      if Env(p.value, slug) in db.envIndex {
        return Err(EnvExists);
      }
      db := WithEnv(db, id, Env(p.value, slug));
      return Ok(NewId(id));
    }

    /** Clones the slug only: whatever the source holds, the new environment is empty. */
    method CloneEnvironment(caller: Caller, project: string, src: string, destName: string, lower: Slug.Lower, id: Id)
      returns (r: Result<Reply, Error>)
      requires Valid() && id !in db.envs
      modifies this
      ensures Valid() && (db, r) == Serve(old(db), caller, CloneEnv(project, src, Slug.Slugify(destName, lower), id))
      ensures var dest := Slug.Slugify(destName, lower);
              && (r.Ok? <==>
                    && Members.IsAdmin(caller) && dest != "" && ResolveEnv(old(db), caller, project, src).Ok?
                    && ResolveEnv(old(db), caller, project, dest) == Err(EnvNotFound))
              && (r.Ok? ==>
                    && AddsEmptyEnv(old(db), db, id)
                    && OnlyResolves(old(db), db, caller, project, dest, Ok(id)))
      ensures r.Err? ==> db == old(db)
    {
      ghost var op := CloneEnv(project, src, Slug.Slugify(destName, lower), id);
      ServeKeepsInv(db, caller, op);
      CloneEnvEffect(db, caller, project, src, op.dest, id);
      if !Members.IsAdmin(caller) {
        return Err(FORBIDDEN);
      }
      var dest := Slug.Slugify(destName, lower);
      if dest == "" {
        return Err(INVALID);
      }
      var p := RequireProject(db, caller, project);
      if p.Err? {
        return Err(p.error);
      }
      if Env(p.value, src) !in db.envIndex {
        return Err(EnvNotFound);
      }
      if Env(p.value, dest) in db.envIndex {
        return Err(EnvExists);
      }
      db := WithEnv(db, id, Env(p.value, dest));
      return Ok(NewId(id));
    }

    /** Removes one environment and its rows and nothing else. */
    method DeleteEnvironment(caller: Caller, project: string, slug: string) returns (r: Result<Reply, Error>)
      requires Valid()
      modifies this
      ensures Valid() && (db, r) == Serve(old(db), caller, DeleteEnv(project, slug))
      ensures r.Ok? <==> Members.IsAdmin(caller) && ResolveEnv(old(db), caller, project, slug).Ok?
      ensures r.Ok? ==>
                && RemovesEnv(old(db), db, ResolveEnv(old(db), caller, project, slug).value)
                && OnlyResolves(old(db), db, caller, project, slug, Err(EnvNotFound))
      ensures r.Err? ==> db == old(db)
    {
      ServeKeepsInv(db, caller, DeleteEnv(project, slug));
      DeleteEnvEffect(db, caller, project, slug);
      if !Members.IsAdmin(caller) {
        return Err(FORBIDDEN);
      }
      var e := ResolveEnv(db, caller, project, slug);
      if e.Err? {
        return Err(e.error);
      }
      db := WithoutEnvs(db, {e.value});
      return Ok(Nothing);
    }
  }
}
