/**
 internal/service/secrets.go on top of the repository, for one environment.  Finding the
 environment is OrgScope's subject.
 */
module SecretsService {
  import opened Wrappers
  import opened VersionedTables
  import opened Replay
  import opened Refinement
  import opened SecretsRepo

  const MAX_BULK_SECRETS: nat := 500
  const MAX_CIPHERTEXT_LEN: nat := 64 * 1024

  datatype ServiceError = InvalidArgument | SecretNotFound | Db(error: DbError)

  datatype SecretView = SecretView(key: Key, blob: Blob, version: nat)

  predicate ValidItem(it: Item) {
    it.key != "" && it.blob.ciphertext != [] && it.blob.nonce != [] && |it.blob.ciphertext| <= MAX_CIPHERTEXT_LEN
  }

  predicate DistinctKeys(items: seq<Item>) {
    forall i, j | 0 <= i < j < |items| :: items[i].key != items[j].key
  }

  predicate ValidBulk(items: seq<Item>) {
    0 < |items| <= MAX_BULK_SECRETS && (forall i | 0 <= i < |items| :: ValidItem(items[i])) && DistinctKeys(items)
  }

  /** The validation loop of BulkSet accepts exactly the well-formed batches. */
  method CheckBulk(items: seq<Item>) returns (ok: bool)
    ensures ok <==> ValidBulk(items)
    ensures ok <==>
              && 1 <= |items| <= 500
              && (forall i | 0 <= i < |items| ::
                    && items[i].key != "" && items[i].blob.nonce != []
                    && 1 <= |items[i].blob.ciphertext| <= 65536)
              && (forall i, j | 0 <= i < j < |items| :: items[i].key != items[j].key)
  {
    if |items| == 0 || |items| > MAX_BULK_SECRETS {
      return false;
    }
    var seen: set<Key> := {};
    for n := 0 to |items|
      invariant forall k :: k in seen <==> HasKey(items[..n], k)
      invariant forall i | 0 <= i < n :: ValidItem(items[i])
      invariant DistinctKeys(items[..n])
    {
      var it := items[n];
      if !ValidItem(it) {
        return false;
      }
      if it.key in seen {
        assert HasKey(items[..n], it.key);
        return false;
      }
      assert forall i | 0 <= i < n :: items[..n][i] == items[i];
      seen := seen + {it.key};
      forall k ensures HasKey(items[..n + 1], k) <==> HasKey(items[..n], k) || it.key == k {
        DoneGrows(KeyLog([], false), items, n, k);
      }
    }
    assert items[..|items|] == items;
    return true;
  }

  class Secrets {
    const repo: Repo

    constructor (repo: Repo)
      ensures this.repo == repo
    {
      this.repo := repo;
    }

    method BulkSet(t: TxId, items: seq<Item>, others: Schedule) returns (r: Result<map<Key, nat>, ServiceError>)
      requires repo.Valid() && OthersOnly(others, t) && t !in repo.s.txs
      modifies repo
      ensures repo.Valid() && t !in repo.s.txs && repo.s.numbering == old(repo.s.numbering)
      ensures !ValidBulk(items) ==> r == Err(InvalidArgument) && repo.s == old(repo.s)
      ensures r.Ok? ==>
                && repo.s.log != []
                && repo.s.log[|repo.s.log| - 1] == Committed(t, Upserts(items))
                && ExtendedByOthers(old(repo.s.log), repo.s.log[..|repo.s.log| - 1], t)
                && (forall k :: k in r.value <==> HasKey(items, k))
                && forall k | k in r.value ::
                     At(repo.s.db, k).live.Some? && At(repo.s.db, k).live.value.version == r.value[k]
      ensures r.Err? ==> ExtendedByOthers(old(repo.s.log), repo.s.log, t)
      ensures ValidBulk(items) && Quiet(others) && old(repo.s.txs) == map[] && repo.s.numbering.FromHistory? ==>
                r.Ok? && repo.s.txs == map[] && repo.s.log == old(repo.s.log) + [Committed(t, Upserts(items))]
    {
      var ok := CheckBulk(items);
      if !ok {
        return Err(InvalidArgument);
      }
      var v := repo.BulkUpsert(t, items, others);
      return if v.Ok? then Ok(v.value) else Err(Db(v.error));
    }

    method Set(t: TxId, it: Item, others: Schedule) returns (r: Result<SecretView, ServiceError>)
      requires repo.Valid() && OthersOnly(others, t) && t !in repo.s.txs
      modifies repo
      ensures repo.Valid() && t !in repo.s.txs && repo.s.numbering == old(repo.s.numbering)
      ensures it.key == "" || it.blob.ciphertext == [] || it.blob.nonce == [] ==>
                r == Err(InvalidArgument) && repo.s == old(repo.s)
      ensures r.Ok? ==>
                && Appended(old(At(repo.s.db, it.key)).hist, At(repo.s.db, it.key), it.blob)
                && r.value == SecretView(it.key, it.blob, |At(repo.s.db, it.key).hist|)
      ensures it.key != "" && it.blob.ciphertext != [] && it.blob.nonce != []
              && Quiet(others) && old(repo.s.txs) == map[] && repo.s.numbering.FromHistory? ==>
                r.Ok? && r.value.version == |old(At(repo.s.db, it.key)).hist| + 1
    {
      if it.key == "" || it.blob.ciphertext == [] || it.blob.nonce == [] {
        return Err(InvalidArgument);
      }
      var v := repo.Upsert(t, it, others);
      return if v.Ok? then Ok(SecretView(it.key, it.blob, v.value)) else Err(Db(v.error));
    }

    /** Rollback reads the target version outside the write transaction.  Whatever runs in between
        and meanwhile, the new version holds what the target version holds in the final state, and
        the versions before it are as they were. */
    method Rollback(t: TxId, key: Key, target: int, others: Schedule) returns (r: Result<SecretView, ServiceError>)
      requires repo.Valid() && OthersOnly(others, t) && t !in repo.s.txs
      modifies repo
      ensures repo.Valid() && t !in repo.s.txs && repo.s.numbering == old(repo.s.numbering)
      ensures target <= 0 ==> r == Err(InvalidArgument) && repo.s == old(repo.s)
      ensures r == Err(SecretNotFound) ==> target > |old(At(repo.s.db, key)).hist|
      ensures Quiet(others) && target > 0 && target > |old(At(repo.s.db, key)).hist| ==>
                r == Err(SecretNotFound) && repo.s == old(repo.s)
      ensures r.Ok? ==>
                var now := At(repo.s.db, key);
                && 1 <= target < |now.hist|
                && Appended(old(At(repo.s.db, key)).hist, now, now.hist[target - 1].blob)
                && r.value == SecretView(key, now.hist[target - 1].blob, |now.hist|)
      ensures Quiet(others) && old(repo.s.txs) == map[] && repo.s.numbering.FromHistory?
              && 1 <= target <= |old(At(repo.s.db, key)).hist| ==>
                r.Ok? && r.value.version == |old(At(repo.s.db, key)).hist| + 1 && repo.s.txs == map[]
    {
      if target <= 0 {
        return Err(InvalidArgument);
      }
      var h := repo.GetHistoryVersion(t, key, target, others(0));
      if h.None? {
        return Err(SecretNotFound);
      }
      var v := repo.Upsert(t, Item(key, h.value), Later(others, 1));
      return if v.Ok? then Ok(SecretView(key, h.value, v.value)) else Err(Db(v.error));
    }

    /** Rollback is reversible: rolling back to `target` and then to the version that was newest
        before makes that version's content live again, with every version kept, whatever other
        transactions do around and during both calls.  Undisturbed, both calls succeed. */
    method RollbackUndone(t: TxId, key: Key, target: int, others1: Schedule, others2: Schedule)
      returns (r: Result<SecretView, ServiceError>)
      requires repo.Valid() && t !in repo.s.txs && OthersOnly(others1, t) && OthersOnly(others2, t)
      requires At(repo.s.db, key).hist != []
      modifies repo
      ensures repo.Valid()
      ensures r.Ok? ==>
                var before, now := old(At(repo.s.db, key)).hist, At(repo.s.db, key);
                && now.live == Some(Row(before[|before| - 1].blob, |now.hist|))
                && |before| + 2 <= |now.hist| && before <= now.hist
                && r.value == SecretView(key, before[|before| - 1].blob, |now.hist|)
      ensures Quiet(others1) && Quiet(others2) && old(repo.s.txs) == map[] && repo.s.numbering.FromHistory?
              && 1 <= target <= |old(At(repo.s.db, key)).hist| ==>
                r.Ok? && r.value.version == |old(At(repo.s.db, key)).hist| + 2
    {
      var newest := |At(repo.s.db, key).hist|;
      r := Rollback(t, key, target, others1);
      if r.Ok? {
        r := Rollback(t, key, newest, others2);
      }
    }
  }
}
