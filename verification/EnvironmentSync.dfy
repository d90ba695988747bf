/**
 The MCP tool environment_sync (internal/mcpserver/sync.go): pull, diff against a dotenv file,
 upload what differs in one bulk write.  Run while no other transaction is active.
 */
module EnvironmentSync {
  import opened Wrappers
  import opened VersionedTables
  import opened Replay
  import opened Refinement
  import opened SecretsRepo
  import opened SecretsService
  import opened StringOrder
  import Watch

  /** AES-GCM, left abstract.  `seal` takes the plaintext and the random nonce's seed. */
  datatype Engine = Engine(seal: (string, nat) -> Blob, open: Watch.Decrypt)

  /** What sealed values are opened to; sealed values and nonces are never empty. */
  ghost predicate RoundTrips(engine: Engine) {
    forall v, n ::
      var b := engine.seal(v, n);
      engine.open(b) == Some(v) && b.ciphertext != [] && b.nonce != []
  }

  datatype SyncError = DecryptFailed | Rejected(error: ServiceError)

  /** A key's plaintext on the server; an absent key counts as "". */
  function Remote(db: Tables, k: Key, open: Watch.Decrypt): string {
    var live := At(db, k).live;
    if live.Some? && open(live.value.blob).Some? then open(live.value.blob).value else ""
  }

  predicate Readable(db: Tables, open: Watch.Decrypt) {
    forall k | k in db :: db[k].live.Some? ==> open(db[k].live.value.blob).Some?
  }

  function Differing(db: Tables, pairs: map<Key, string>, open: Watch.Decrypt): set<Key> {
    set k | k in pairs && Remote(db, k, open) != pairs[k]
  }

  /** The server's limits admit everything that differs: at most 500 keys, none empty, and no sealed
      value over 64 KiB. */
  ghost predicate Accepts(differing: set<Key>, pairs: map<Key, string>, engine: Engine) {
    && |differing| <= MAX_BULK_SECRETS && "" !in differing
    && forall k, n | k in differing && k in pairs :: |engine.seal(pairs[k], n).ciphertext| <= MAX_CIPHERTEXT_LEN
  }

  lemma ItemsAccepted(items: seq<Item>, changed: seq<Key>, pairs: map<Key, string>, engine: Engine, differing: set<Key>)
    requires RoundTrips(engine) && Itemizes(items, changed, pairs, engine) && items != []
    requires Enumerates(changed, differing) && Accepts(differing, pairs, engine) && |changed| == |differing|
    ensures ValidBulk(items)
  {
  }

  /** `now` is `was` with one more version, live, that opens to `v`. */
  predicate Bumped(was: Cell, now: Cell, v: string, open: Watch.Decrypt) {
    && |now.hist| == |was.hist| + 1 && was.hist <= now.hist
    && now.live.Some? && now.live.value.version == |now.hist|
    && open(now.live.value.blob) == Some(v)
  }

  /** The server's listing of live secrets, ordered by key. */
  method ListSecrets(db: Tables) returns (rows: seq<Watch.SecretDTO>)
    ensures Watch.Lists(rows, db)
  {
    var keys := SortedKeys(set k | k in db && db[k].live.Some?);
    rows := [];
    for n := 0 to |keys|
      invariant |rows| == n
      invariant forall i | 0 <= i < n ::
          keys[i] in db && db[keys[i]].live.Some? &&
          rows[i] == Watch.SecretDTO(keys[i], db[keys[i]].live.value.blob, db[keys[i]].live.value.version)
    {
      assert keys[n] in keys;
      var row := db[keys[n]].live.value;
      rows := rows + [Watch.SecretDTO(keys[n], row.blob, row.version)];
    }
    forall k | At(db, k).live.Some? ensures exists i | 0 <= i < |rows| :: rows[i].key == k {
      assert k in keys;
      var i :| 0 <= i < |keys| && keys[i] == k;
      assert rows[i].key == k;
    }
  }

  /** pullRemoteSecrets: fails exactly if some live row does not decrypt. */
  method PullRemote(db: Tables, open: Watch.Decrypt) returns (r: Option<map<Key, string>>)
    ensures r.Some? <==> Readable(db, open)
    ensures r.Some? ==> forall k :: (if k in r.value then r.value[k] else "") == Remote(db, k, open)
  {
    var rows := ListSecrets(db);
    var snap := Watch.PullSnapshot(rows, db, open);
    if snap.None? {
      return None;
    }
    forall k | k in db && db[k].live.Some? ensures open(db[k].live.value.blob).Some? {
      assert At(db, k) == db[k];
    }
    return Some(snap.value.secrets);
  }

  /** `items` are sealed uploads of exactly the pairs in `changed`. */
  ghost predicate Itemizes(items: seq<Item>, changed: seq<Key>, pairs: map<Key, string>, engine: Engine) {
    && |items| == |changed|
    && forall i | 0 <= i < |items| ::
         && items[i].key == changed[i] && changed[i] in pairs
         && items[i].blob == engine.seal(pairs[changed[i]], i)
         && engine.open(items[i].blob) == Some(pairs[changed[i]])
  }

  predicate Differs(current: map<Key, string>, k: Key, v: string) {
    (if k in current then current[k] else "") != v
  }

  /** The diff loop, over the pairs in arbitrary order. */
  method Diff(pairs: map<Key, string>, current: map<Key, string>, engine: Engine)
    returns (changed: seq<Key>, items: seq<Item>)
    requires RoundTrips(engine)
    ensures Enumerates(changed, set k | k in pairs && Differs(current, k, pairs[k]))
    ensures Itemizes(items, changed, pairs, engine)
  {
    changed, items := [], [];
    var todo := pairs.Keys;
    ghost var seen: set<Key> := {};
    while todo != {}
      invariant todo <= pairs.Keys && Enumerates(changed, seen)
      invariant seen == set k | k in pairs && k !in todo && Differs(current, k, pairs[k])
      invariant Itemizes(items, changed, pairs, engine)
      decreases todo
    {
      var key :| key in todo;
      todo := todo - {key};
      if !Differs(current, key, pairs[key]) {
        continue;
      }
      seen := seen + {key};
      changed := changed + [key];
      items := items + [Item(key, engine.seal(pairs[key], |items|))];
    }
  }

  lemma {:induction false} PutOnce(c: KeyLog, items: seq<Item>, i: nat)
    requires i < |items| && DistinctKeys(items)
    ensures PutAll(c, items, items[i].key) == KeyLog(c.values + [items[i].blob], true)
  {
    var init, last := items[..|items| - 1], |items| - 1;
    if i == last {
      assert !HasKey(init, items[i].key);
      PutAllFrame(c, init, items[i].key);
    } else {
      PutOnce(c, init, i);
    }
  }

  /** What one committed bulk write of distinct keys does to each key's rows. */
  lemma BulkEffect(s: State, s': State, t: TxId, items: seq<Item>, k: Key)
    requires Inv(s) && Inv(s') && DistinctKeys(items)
    requires s'.log == s.log + [Committed(t, Upserts(items))]
    ensures !HasKey(items, k) ==> At(s'.db, k) == At(s.db, k)
    ensures forall i | 0 <= i < |items| && items[i].key == k ::
              var was, now := At(s.db, k), At(s'.db, k);
              && now.live == Some(Row(items[i].blob, |was.hist| + 1))
              && |now.hist| == |was.hist| + 1 && was.hist <= now.hist
  {
    assert s'.log[..|s'.log| - 1] == s.log;
    PutAllFrame(ReplayKey(s.log, k), items, k);
    StoredHistory(s, k);
    StoredHistory(s', k);
    forall i | 0 <= i < |items| && items[i].key == k
      ensures ReplayKey(s'.log, k) == KeyLog(ReplayKey(s.log, k).values + [items[i].blob], true)
    {
      PutOnce(ReplayKey(s.log, k), items, i);
    }
  }

  lemma UploadEffect(s: State, s': State, t: TxId, items: seq<Item>, changed: seq<Key>, pairs: map<Key, string>,
                     engine: Engine)
    requires Inv(s) && Inv(s') && DistinctKeys(items) && Itemizes(items, changed, pairs, engine)
    requires s'.log == s.log + [Committed(t, Upserts(items))]
    ensures forall k | k in changed :: k in pairs && Bumped(At(s.db, k), At(s'.db, k), pairs[k], engine.open)
    ensures forall k | k !in changed :: At(s'.db, k) == At(s.db, k)
  {
    forall k | k in changed ensures k in pairs && Bumped(At(s.db, k), At(s'.db, k), pairs[k], engine.open) {
      var i :| 0 <= i < |changed| && changed[i] == k;
      BulkEffect(s, s', t, items, k);
      assert items[i].key == k;
    }
    forall k | k !in changed ensures At(s'.db, k) == At(s.db, k) {
      BulkEffect(s, s', t, items, k);
    }
  }

  /** The bulk write of the changed pairs. */
  method Upload(svc: Secrets, t: TxId, items: seq<Item>, ghost changed: seq<Key>, ghost pairs: map<Key, string>,
                ghost engine: Engine)
    returns (r: Result<(), ServiceError>)
    requires svc.repo.Valid() && svc.repo.s.txs == map[] && svc.repo.s.numbering.FromHistory?
    requires Itemizes(items, changed, pairs, engine)
    modifies svc.repo
    ensures svc.repo.Valid() && svc.repo.s.txs == map[] && svc.repo.s.numbering.FromHistory?
    ensures r.Err? ==> svc.repo.s == old(svc.repo.s)
    ensures r.Ok? <==> ValidBulk(items)
    ensures r.Ok? ==>
              var db, db' := old(svc.repo.s.db), svc.repo.s.db;
              && (forall k | k in changed :: k in pairs && Bumped(At(db, k), At(db', k), pairs[k], engine.open))
              && (forall k | k !in changed :: At(db', k) == At(db, k))
  {
    var none := (i: nat) => [];
    ghost var s := svc.repo.s;
    ReachableInv(s);
    var v := svc.BulkSet(t, items, none);
    if v.Err? {
      return Err(v.error);
    }
    ReachableInv(svc.repo.s);
    UploadEffect(s, svc.repo.s, t, items, changed, pairs, engine);
    return Ok(());
  }

  /** On success every pair reads back as its value, exactly the returned keys were bumped and all
      other rows are as they were.  On failure nothing changed; in particular when more than 500
      keys differ. */
  method Sync(svc: Secrets, t: TxId, pairs: map<Key, string>, engine: Engine) returns (r: Result<seq<Key>, SyncError>)
    requires svc.repo.Valid() && svc.repo.s.txs == map[] && svc.repo.s.numbering.FromHistory?
    requires RoundTrips(engine)
    modifies svc.repo
    ensures svc.repo.Valid() && svc.repo.s.txs == map[] && svc.repo.s.numbering.FromHistory?
    ensures r.Err? ==> svc.repo.s == old(svc.repo.s)
    ensures |Differing(old(svc.repo.s.db), pairs, engine.open)| > MAX_BULK_SECRETS ==> r.Err?
    ensures !Readable(old(svc.repo.s.db), engine.open) ==> r == Err(DecryptFailed)
    ensures r.Ok? ==> Synced(old(svc.repo.s.db), svc.repo.s.db, pairs, r.value, engine.open)
    ensures Readable(old(svc.repo.s.db), engine.open) && Differing(old(svc.repo.s.db), pairs, engine.open) == {} ==>
              r == Ok([]) && svc.repo.s == old(svc.repo.s)
    ensures var db := old(svc.repo.s.db);
            Readable(db, engine.open) && Accepts(Differing(db, pairs, engine.open), pairs, engine) ==> r.Ok?
  {
    var current := PullRemote(svc.repo.s.db, engine.open);
    if current.None? {
      return Err(DecryptFailed);
    }
    ghost var db := svc.repo.s.db;
    var changed, items := Diff(pairs, current.value, engine);
    ghost var differing := Differing(db, pairs, engine.open);
    assert differing == set k | k in pairs && Differs(current.value, k, pairs[k]);
    EnumerationSize(changed, differing);
    if |items| == 0 {
      SyncedByUpload(db, db, pairs, changed, engine.open);
      return Ok([]);
    }
    if Accepts(differing, pairs, engine) { ItemsAccepted(items, changed, pairs, engine, differing); }
    var v := Upload(svc, t, items, changed, pairs, engine);
    if v.Err? {
      return Err(Rejected(v.error));
    }
    SyncedByUpload(db, svc.repo.s.db, pairs, changed, engine.open);
    return Ok(SortStrings(changed));
  }

  lemma SyncedByUpload(db: Tables, db': Tables, pairs: map<Key, string>, changed: seq<Key>, open: Watch.Decrypt)
    requires Enumerates(changed, Differing(db, pairs, open))
    requires forall k | k in changed :: k in pairs && Bumped(At(db, k), At(db', k), pairs[k], open)
    requires forall k | k !in changed :: At(db', k) == At(db, k)
    ensures Synced(db, db', pairs, SortStrings(changed), open)
    ensures changed == [] ==> SortStrings(changed) == []
  {
    SortEnumerates(changed, Differing(db, pairs, open));
    forall k ensures k in SortStrings(changed) <==> k in changed {
      assert k in SortStrings(changed) <==> k in Differing(db, pairs, open);
    }
    forall k | k in pairs ensures Remote(db', k, open) == pairs[k] {
      if k !in changed { assert k !in Differing(db, pairs, open); }
    }
  }

  /** Between `db` and `db'` exactly the `changed` keys, those that differed, got a new version, and
      every pair now reads back. */
  ghost predicate Synced(db: Tables, db': Tables, pairs: map<Key, string>, changed: seq<Key>, open: Watch.Decrypt) {
    && StrictlyAscending(changed)
    && Enumerates(changed, Differing(db, pairs, open))
    && (forall k | k in pairs :: Remote(db', k, open) == pairs[k])
    && (forall k | k in changed :: Bumped(At(db, k), At(db', k), pairs[k], open))
    && (forall k | k !in changed :: At(db', k) == At(db, k))
  }

  /** A second sync of the same pairs finds nothing to upload. */
  lemma SyncIdempotent(db: Tables, db': Tables, pairs: map<Key, string>, changed: seq<Key>, open: Watch.Decrypt)
    requires Readable(db, open) && Synced(db, db', pairs, changed, open)
    ensures Differing(db', pairs, open) == {} && Readable(db', open)
  {
    forall k | k in db' && db'[k].live.Some? ensures open(db'[k].live.value.blob).Some? {
      assert At(db', k) == db'[k];
      if k !in changed { assert k in db; }
    }
  }

  lemma {:induction false} EnumerationSize(xs: seq<string>, s: set<string>)
    requires Enumerates(xs, s)
    ensures |xs| == |s|
  {
    if xs == [] {
      assert s == {};
    } else {
      assert xs[0] in s;
      EnumeratesTail(xs, s);
      EnumerationSize(xs[1..], s - {xs[0]});
    }
  }
}
