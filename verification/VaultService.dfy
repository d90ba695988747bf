/** internal/service/vault.go: the org-wide vault, written by admins only. */
module VaultService {
  import opened Wrappers
  import opened VersionedTables
  import opened Replay
  import opened Refinement
  import opened SecretsRepo
  import VaultTables

  datatype VaultError = Forbidden | InvalidArgument | VaultKeyNotFound | Db(error: DbError)

  /** Written before and not live now. */
  predicate Buried(c: Cell) {
    c.live.None? && c.hist != []
  }

  lemma NotBuriedCanPut(s: State, k: Key)
    requires Inv(s) && s.numbering.FromOne?
    ensures CanPut(s, k) <==> !Buried(At(s.db, k))
  {
    assert At(s.db, k) == Stored(ReplayKey(s.log, k));
  }

  lemma BuriedStays(s: State, s': State, k: Key)
    requires Inv(s) && s.numbering.FromOne? && Reaches(s, s') && Buried(At(s.db, k))
    ensures At(s'.db, k) == At(s.db, k)
  {
    var steps :| Run(s, steps) == s';
    assert At(s.db, k) == Stored(ReplayKey(s.log, k));
    VaultTables.DeadStaysDead(s, steps, k);
    RunKeepsInv(s, steps);
    assert At(s'.db, k) == Stored(ReplayKey(s'.log, k));
  }

  /** A vault key whose delete was ever committed is not live. */
  lemma LoggedDeleteIsFinal(s: State, k: Key)
    requires Reachable(s) && s.numbering.FromOne?
    ensures DeletedSince([], s.log, k) ==> At(s.db, k).live.None?
  {
    var steps :| Run(Init(FromOne), steps) == s;
    VaultTables.DeletedIsDead(steps, k);
    ReachableInv(s);
    assert At(s.db, k) == Stored(ReplayKey(s.log, k));
  }

  class Vault {
    const repo: Repo

    constructor (repo: Repo)
      ensures this.repo == repo
    {
      this.repo := repo;
    }

    /** Set fails on every deleted key and otherwise adds a version. */
    method Set(admin: bool, t: TxId, it: Item, others: Schedule) returns (r: Result<nat, VaultError>)
      requires repo.Valid() && repo.s.numbering.FromOne? && OthersOnly(others, t) && t !in repo.s.txs
      modifies repo
      ensures repo.Valid() && repo.s.numbering.FromOne? && t !in repo.s.txs
      ensures !admin ==> r == Err(Forbidden) && repo.s == old(repo.s)
      ensures admin && (it.key == "" || it.blob.ciphertext == [] || it.blob.nonce == []) ==>
                r == Err(InvalidArgument) && repo.s == old(repo.s)
      ensures Buried(old(At(repo.s.db, it.key))) ==> r.Err? && At(repo.s.db, it.key) == old(At(repo.s.db, it.key))
      ensures r.Ok? ==>
                && Appended(old(At(repo.s.db, it.key)).hist, At(repo.s.db, it.key), it.blob)
                && r.value == |At(repo.s.db, it.key).hist|
      ensures admin && it.key != "" && it.blob.ciphertext != [] && it.blob.nonce != []
              && Quiet(others) && old(repo.s.txs) == map[] ==>
                (r.Ok? <==> !Buried(old(At(repo.s.db, it.key))))
    {
      if !admin {
        return Err(Forbidden);
      }
      if it.key == "" || it.blob.ciphertext == [] || it.blob.nonce == [] {
        return Err(InvalidArgument);
      }
      ReachableInv(repo.s);
      NotBuriedCanPut(repo.s, it.key);
      var v := repo.Upsert(t, it, others);
      if Buried(old(At(repo.s.db, it.key))) {
        BuriedStays(old(repo.s), repo.s, it.key);
      }
      return if v.Ok? then Ok(v.value) else Err(Db(v.error));
    }

    /** Delete clears the live row and keeps the history. */
    method Delete(admin: bool, t: TxId, key: Key, others: Schedule, missed: bool) returns (r: Result<(), VaultError>)
      requires repo.Valid() && repo.s.numbering.FromOne? && OthersOnly(others, t) && t !in repo.s.txs
      modifies repo
      ensures repo.Valid() && repo.s.numbering.FromOne? && t !in repo.s.txs
      ensures !admin ==> r == Err(Forbidden) && repo.s == old(repo.s)
      ensures r.Ok? ==> At(repo.s.db, key).live.None? && old(At(repo.s.db, key)).hist <= At(repo.s.db, key).hist
      ensures r == Err(VaultKeyNotFound) ==> At(repo.s.db, key).live.None?
      ensures admin && Quiet(others) && old(repo.s.txs) == map[] ==> (r.Ok? <==> old(At(repo.s.db, key)).live.Some?)
      ensures Buried(old(At(repo.s.db, key))) ==> At(repo.s.db, key) == old(At(repo.s.db, key))
    {
      if !admin {
        return Err(Forbidden);
      }
      ReachableInv(repo.s);
      ghost var was := repo.s;
      var v := repo.Delete(t, key, others, missed);
      LoggedDeleteIsFinal(repo.s, key);
      if Buried(At(was.db, key)) {
        BuriedStays(was, repo.s, key);
      }
      ghost var steps :| Run(was, steps) == repo.s;
      HistoryImmutable(was, steps, key);
      return if v.Ok? then Ok(()) else Err(if v.error == NotFound then VaultKeyNotFound else Db(v.error));
    }

    /** Rollback restores a version of a live key, and fails on a deleted one. */
    method Rollback(admin: bool, t: TxId, key: Key, target: int, others: Schedule) returns (r: Result<nat, VaultError>)
      requires repo.Valid() && repo.s.numbering.FromOne? && OthersOnly(others, t) && t !in repo.s.txs
      modifies repo
      ensures repo.Valid() && repo.s.numbering.FromOne? && t !in repo.s.txs
      ensures !admin ==> r == Err(Forbidden) && repo.s == old(repo.s)
      ensures admin && target <= 0 ==> r == Err(InvalidArgument) && repo.s == old(repo.s)
      ensures Buried(old(At(repo.s.db, key))) ==> r.Err? && At(repo.s.db, key) == old(At(repo.s.db, key))
      ensures admin && Quiet(others) && old(repo.s.txs) == map[] && 1 <= target <= |old(At(repo.s.db, key)).hist| ==>
                (r.Ok? <==> !Buried(old(At(repo.s.db, key))))
      ensures r == Err(VaultKeyNotFound) ==> target > |old(At(repo.s.db, key)).hist|
      ensures admin && Quiet(others) && target > 0 && target > |old(At(repo.s.db, key)).hist| ==>
                r == Err(VaultKeyNotFound) && repo.s == old(repo.s)
      ensures r.Ok? ==>
                var now := At(repo.s.db, key);
                && 1 <= target < |now.hist| && r.value == |now.hist|
                && Appended(old(At(repo.s.db, key)).hist, now, now.hist[target - 1].blob)
    {
      if !admin {
        return Err(Forbidden);
      }
      if target <= 0 {
        return Err(InvalidArgument);
      }
      ReachableInv(repo.s);
      NotBuriedCanPut(repo.s, key);
      ghost var was := repo.s;
      var h := repo.GetHistoryVersion(t, key, target, others(0));
      ghost var read := repo.s;
      if h.None? {
        if Buried(At(was.db, key)) { BuriedStays(was, repo.s, key); }
        return Err(VaultKeyNotFound);
      }
      var v := repo.Upsert(t, Item(key, h.value), Later(others, 1));
      if Buried(At(was.db, key)) {
        ReachesThen(was, read, repo.s);
        BuriedStays(was, repo.s, key);
      }
      return if v.Ok? then Ok(v.value) else Err(Db(v.error));
    }
  }
}
