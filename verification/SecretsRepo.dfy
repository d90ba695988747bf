/**
 internal/repo/secrets.go and internal/repo/vault.go as they run: a sequence of SQL statements
 with other transactions stepping in between.  `others(i)` is what the rest of the server does
 before the i-th statement; every method is proved for all such schedules.
 */
module SecretsRepo {
  import opened Wrappers
  import opened VersionedTables
  import opened Replay
  import opened Refinement

  /** `UniqueViolation`: the history insert failed.  `Canceled`: a statement's lock wait was given
      up (deadlock victim or canceled context). */
  datatype DbError = NotFound | UniqueViolation | Canceled

  type Schedule = nat -> seq<Step>

  ghost predicate OthersOnly(others: Schedule, t: TxId) {
    forall i :: StepsOfOthers(others(i), t)
  }

  predicate StepsOfOthers(steps: seq<Step>, t: TxId) {
    forall i | 0 <= i < |steps| :: steps[i].t != t
  }

  ghost predicate Quiet(others: Schedule) {
    forall i :: others(i) == []
  }

  function Later(others: Schedule, n: nat): Schedule {
    (i: nat) => others(i + n)
  }

  /** `log'` is `log` plus commits of transactions other than `t`. */
  predicate ExtendedByOthers(log: seq<Committed>, log': seq<Committed>, t: TxId) {
    log <= log' && forall i | |log| <= i < |log'| :: log'[i].tx != t
  }

  /** From `s` to `s'`, `t` kept its program and place in it, and only others committed. */
  predicate SameTask(s: State, s': State, t: TxId) {
    && t in s.txs && t in s'.txs
    && s'.txs[t].prog == s.txs[t].prog && s'.txs[t].next == s.txs[t].next
    && ExtendedByOthers(s.log, s'.log, t)
    && s'.numbering == s.numbering
  }

  /** How many versions of its current key `t` sees. */
  function Count(s: State, t: TxId): nat
    requires Upserting(s, t)
  {
    |Seen(s, s.txs[t], Current(s, t).key).values|
  }

  /** Nothing committed stands in the way of an upsert of `k`: project secrets always can, a vault
      key only if it was never deleted. */
  predicate CanPut(s: State, k: Key) {
    s.numbering.FromOne? ==> !Dead(ReplayKey(s.log, k))
  }

  predicate CanPutAll(s: State, items: seq<Item>) {
    forall i | 0 <= i < |items| :: CanPut(s, items[i].key)
  }

  /** No transaction but `t` is running. */
  predicate Alone(s: State, t: TxId) {
    s.txs.Keys <= {t}
  }

  lemma {:induction false} OthersLeaveTx(s: State, steps: seq<Step>, t: TxId)
    requires StepsOfOthers(steps, t)
    ensures var s' := Run(s, steps);
            && (t in s'.txs <==> t in s.txs)
            && (t in s.txs ==> s'.txs[t] == s.txs[t])
            && ExtendedByOthers(s.log, s'.log, t)
            && s'.numbering == s.numbering
  {
    if steps != [] {
      OthersLeaveTx(s, steps[..|steps| - 1], t);
    }
  }

  /** The tables went from `s` to `s'` by statements of the machine. */
  ghost predicate Reaches(s: State, s': State) {
    exists steps :: Run(s, steps) == s'
  }

  lemma ReachesThen(s: State, s': State, s'': State)
    requires Reaches(s, s') && Reaches(s', s'')
    ensures Reaches(s, s'')
  {
    var a :| Run(s, a) == s';
    var b :| Run(s', b) == s'';
    RunConcat(s, a, b);
  }

  ghost predicate Reachable(s: State) {
    Reaches(Init(s.numbering), s)
  }

  lemma ReachableThen(s: State, s': State)
    requires Reachable(s) && Reaches(s, s') && s'.numbering == s.numbering
    ensures Reachable(s')
  {
    ReachesThen(Init(s.numbering), s, s');
  }

  lemma ReachableInv(s: State)
    requires Reachable(s)
    ensures Inv(s)
  {
    var steps :| Run(Init(s.numbering), steps) == s;
    InitInv(s.numbering);
    RunKeepsInv(Init(s.numbering), steps);
  }

  lemma ReachesTurn(s: State, others: seq<Step>, step: Step)
    ensures Reaches(s, Next(Run(s, others), step))
  {
    assert (others + [step])[..|others|] == others;
    assert Run(s, others + [step]) == Next(Run(s, others), step);
  }

  lemma ReachesNext(s: State, step: Step)
    ensures Reaches(s, Next(s, step))
  {
    ReachesTurn(s, [], step);
  }

  /** What the upsert statement does to its own transaction, and the version it writes when the
      maximum is current. */
  lemma WriteLiveEffect(s: State, t: TxId)
    requires Reachable(s) && Upserting(s, t) && s.txs[t].pc.HasMax?
    ensures Enabled(s, WriteLive(t)) ==>
              var tx, tx', k := s.txs[t], DoWriteLive(s, t).txs[t], Current(s, t).key;
              && tx'.prog == tx.prog && tx'.next == tx.next && tx'.pc.Wrote?
              && k in tx'.own && tx'.own - {k} == tx.own - {k}
              && (CanPut(s, k) && (s.numbering.FromHistory? ==> tx.pc.base == Count(s, t)) ==>
                    tx'.pc.version == Count(s, t) + 1)
    ensures Alone(s, t) ==> Enabled(s, WriteLive(t))
  {
    var k := Current(s, t).key;
    if CanPut(s, k) && (s.numbering.FromHistory? ==> s.txs[t].pc.base == Count(s, t)) {
      FreshVersion(s, t);
    }
  }

  /** The version an upsert with a current maximum is about to write. */
  lemma {:induction false} FreshVersion(s: State, t: TxId)
    requires Reachable(s) && Upserting(s, t) && s.txs[t].pc.HasMax? && CanPut(s, Current(s, t).key)
    requires s.numbering.FromHistory? ==> s.txs[t].pc.base == Count(s, t)
    ensures DoWriteLive(s, t).txs[t].pc.version == Count(s, t) + 1
  {
    var k := Current(s, t).key;
    ReachableInv(s);
    assert TxOk(s, s.txs[t]);
    ViewIsSeen(s, t, k);
    PutAllFrame(ReplayKey(s.log, k), s.txs[t].prog.items[..s.txs[t].next], k);
  }

  /** `SELECT ... WHERE version = $3`. */
  function FindVersion(h: seq<HistRow>, v: int): Option<Blob> {
    if h == [] then None
    else if h[0].version == v then Some(h[0].blob)
    else FindVersion(h[1..], v)
  }

  lemma {:induction false} FindNumbered(h: seq<HistRow>, first: nat, v: int)
    requires forall i | 0 <= i < |h| :: h[i].version == first + i
    ensures FindVersion(h, v) == if first <= v < first + |h| then Some(h[v - first].blob) else None
  {
    if h != [] {
      FindNumbered(h[1..], first + 1, v);
    }
  }

  /** `now` extends the rows `was` and ends in a live row and its history row holding `blob`. */
  predicate Appended(was: seq<HistRow>, now: Cell, blob: Blob) {
    && now.hist != []
    && was <= now.hist[..|now.hist| - 1]
    && now.hist[|now.hist| - 1] == HistRow(|now.hist|, blob)
    && now.live == Some(Row(blob, |now.hist|))
  }

  lemma SinglePut(c: KeyLog, it: Item)
    ensures PutAll(c, [it], it.key) == KeyLog(c.values + [it.blob], true)
  {
  }

  /** Committing one put after `s` adds one history row to the rows `s` already had. */
  lemma PutAppends(s: State, s': State, t: TxId, it: Item)
    requires Inv(s) && Inv(s') && s'.log != []
    requires s'.log[|s'.log| - 1] == Committed(t, Upserts([it]))
    requires ExtendedByOthers(s.log, s'.log[..|s'.log| - 1], t)
    ensures Appended(At(s.db, it.key).hist, At(s'.db, it.key), it.blob)
    ensures s'.log == s.log + [Committed(t, Upserts([it]))] ==>
              |At(s'.db, it.key).hist| == |At(s.db, it.key).hist| + 1
  {
    var log := s'.log[..|s'.log| - 1];
    SinglePut(ReplayKey(log, it.key), it);
    ReplayFrame(log, |s.log|, it.key);
    assert log[..|s.log|] == s.log;
    StoredHistory(s, it.key);
    StoredHistory(s', it.key);
  }

  lemma StoredHistory(s: State, k: Key)
    requires Inv(s)
    ensures At(s.db, k) == Stored(ReplayKey(s.log, k))
    ensures forall i | 0 <= i < |At(s.db, k).hist| :: At(s.db, k).hist[i] == HistRow(i + 1, ReplayKey(s.log, k).values[i])
  {
  }

  lemma ReachesSelf(s: State)
    ensures Reaches(s, s)
  {
    assert Run(s, []) == s;
  }

  class Repo {
    var s: State

    /** The tables are what some interleaving has made of empty ones. */
    ghost predicate Valid()
      reads this
    {
      Reachable(s)
    }

    constructor (numbering: Numbering)
      ensures Valid() && s == Init(numbering)
    {
      s := Init(numbering);
      ReachesSelf(Init(numbering));
    }

    /** The other transactions run `steps`. */
    method Wait(t: TxId, steps: seq<Step>)
      requires Valid() && StepsOfOthers(steps, t)
      modifies this
      ensures Valid() && s == Run(old(s), steps) && s.numbering == old(s.numbering)
      ensures Reaches(old(s), s)
      ensures ExtendedByOthers(old(s.log), s.log, t)
      ensures t in s.txs <==> t in old(s.txs)
      ensures t in s.txs ==> s.txs[t] == old(s.txs)[t]
    {
      OthersLeaveTx(s, steps, t);
      s := Run(s, steps);
      ReachableThen(old(s), s);
    }

    /** `SELECT COALESCE(MAX(version), 0)`, after the other transactions ran `steps`. */
    method QueryMax(t: TxId, steps: seq<Step>)
      requires Valid() && StepsOfOthers(steps, t)
      requires Upserting(s, t) && s.txs[t].pc.Ready?
      modifies this
      ensures Valid() && s == Next(Run(old(s), steps), ReadMax(t))
      ensures Reaches(old(s), s)
      ensures SameTask(old(s), s, t) && s.txs[t].pc.HasMax? && s.txs[t].own == old(s).txs[t].own
      ensures steps == [] && old(Alone(s, t)) ==> s.log == old(s.log) && Alone(s, t) && Count(s, t) == old(Count(s, t))
      ensures s.numbering.FromHistory? ==> s.txs[t].pc.base == Count(s, t)
    {
      Wait(t, steps);
      ReachableInv(s);
      ViewIsSeen(s, t, Current(s, t).key);
      NumberedVersions(Seen(s, s.txs[t], Current(s, t).key).values);
      s := DoReadMax(s, t);
      ReachesTurn(old(s), steps, ReadMax(t));
      ReachableThen(old(s), s);
    }

    /** The upsert statement; it waits for the key's lock and here gives up if it is not free. */
    method ExecUpsert(t: TxId, steps: seq<Step>) returns (ran: bool)
      requires Valid() && StepsOfOthers(steps, t)
      requires Upserting(s, t) && s.txs[t].pc.HasMax?
      modifies this
      ensures Valid() && s == Next(Run(old(s), steps), WriteLive(t))
      ensures Reaches(old(s), s)
      ensures ExtendedByOthers(old(s.log), s.log, t) && s.numbering == old(s.numbering)
      ensures ran ==>
                && SameTask(old(s), s, t) && s.txs[t].pc.Wrote?
                && var k := Current(s, t).key;
                   k in s.txs[t].own && s.txs[t].own - {k} == old(s).txs[t].own - {k}
      ensures steps == [] && old(Alone(s, t)) ==> ran && s.log == old(s.log) && Alone(s, t)
      ensures steps == [] && old(Alone(s, t)) && old(CanPut(s, Current(s, t).key))
              && (s.numbering.FromHistory? ==> old(s.txs[t].pc.base == Count(s, t))) ==>
                s.txs[t].pc.version == Count(s, t) + 1
    {
      Wait(t, steps);
      ran := Enabled(s, WriteLive(t));
      WriteLiveEffect(s, t);
      s := Next(s, WriteLive(t));
      ReachesTurn(old(s), steps, WriteLive(t));
      ReachableThen(old(s), s);
    }

    /** The history insert; a UNIQUE violation ends the transaction. */
    method ExecHistory(t: TxId, steps: seq<Step>) returns (ok: bool)
      requires Valid() && StepsOfOthers(steps, t)
      requires Upserting(s, t) && s.txs[t].pc.Wrote?
      modifies this
      ensures Valid() && s == Next(Run(old(s), steps), WriteHistory(t))
      ensures Reaches(old(s), s)
      ensures ExtendedByOthers(old(s.log), s.log, t) && s.numbering == old(s.numbering)
      ensures ok <==> t in s.txs
      ensures ok ==>
                var tx, it := old(s.txs[t]), old(Current(s, t));
                && s.txs[t].prog == tx.prog && s.txs[t].next == tx.next + 1 && s.txs[t].pc == Ready
                && it.key in s.txs[t].own
                && s.txs[t].own - {it.key} == tx.own - {it.key}
                && s.txs[t].own[it.key].live == Some(Row(it.blob, tx.pc.version))
      ensures steps == [] && old(Alone(s, t)) ==> s.log == old(s.log) && Alone(s, t)
      ensures steps == [] && old(s.txs[t].pc.version == Count(s, t) + 1) ==> ok
    {
      Wait(t, steps);
      ReachableInv(s);
      assert TxOk(s, s.txs[t]);
      ConflictIffTaken(s, t);
      s := DoWriteHistory(s, t);
      ReachesTurn(old(s), steps, WriteHistory(t));
      ReachableThen(old(s), s);
      ok := t in s.txs;
    }

    /** Ends `t` without effect, as InTx does when its body or its commit fails. */
    method Rollback(t: TxId)
      requires Valid()
      modifies this
      ensures Valid() && s == old(s).(txs := old(s.txs) - {t})
      ensures Reaches(old(s), s)
    {
      s := Next(s, Abort(t));
      ReachesNext(old(s), Abort(t));
      ReachableThen(old(s), s);
    }

    /** The body of Upsert and BulkUpsert for the next item of `t`. */
    method UpsertTx(t: TxId, others: Schedule) returns (r: Result<nat, DbError>)
      requires Valid() && OthersOnly(others, t)
      requires Upserting(s, t) && s.txs[t].pc.Ready?
      modifies this
      ensures Valid() && s.numbering == old(s.numbering)
      ensures Reaches(old(s), s)
      ensures ExtendedByOthers(old(s.log), s.log, t)
      ensures r.Ok? ==>
                var tx, it := old(s.txs[t]), old(Current(s, t));
                && t in s.txs
                && s.txs[t].prog == tx.prog && s.txs[t].next == tx.next + 1 && s.txs[t].pc == Ready
                && it.key in s.txs[t].own
                && s.txs[t].own - {it.key} == tx.own - {it.key}
                && s.txs[t].own[it.key].live == Some(Row(it.blob, r.value))
      ensures Quiet(others) && old(Alone(s, t)) ==>
                s.log == old(s.log) && Alone(s, t) && (old(CanPut(s, Current(s, t).key)) ==> r.Ok?)
    {
      QueryMax(t, others(0));
      ghost var s1 := s;
      var ran := ExecUpsert(t, others(1));
      ReachesThen(old(s), s1, s);
      if !ran {
        return Err(Canceled);
      }
      var version := s.txs[t].pc.version;
      ghost var s2 := s;
      var ok := ExecHistory(t, others(2));
      ReachesThen(old(s), s2, s);
      return if ok then Ok(version) else Err(UniqueViolation);
    }

    /** One iteration of BulkUpsert's loop. */
    method UpsertItem(t: TxId, items: seq<Item>, i: nat, versions: map<Key, nat>, others: Schedule)
      returns (r: Result<map<Key, nat>, DbError>)
      requires Valid() && OthersOnly(others, t) && i < |items|
      requires t in s.txs && AtItem(s.txs[t], items, i) && Tracks(versions, s.txs[t], items[..i])
      modifies this
      ensures Valid() && s.numbering == old(s.numbering) && ExtendedByOthers(old(s.log), s.log, t)
      ensures Reaches(old(s), s)
      ensures r.Ok? ==> t in s.txs && AtItem(s.txs[t], items, i + 1) && Tracks(r.value, s.txs[t], items[..i + 1])
      ensures Quiet(others) && old(Alone(s, t)) ==>
                s.log == old(s.log) && Alone(s, t) && (old(CanPut(s, items[i].key)) ==> r.Ok?)
    {
      ghost var tx := s.txs[t];
      var v := UpsertTx(t, Later(others, 3 * i));
      if v.Err? {
        return Err(v.error);
      }
      TracksNext(versions, v.value, tx, s.txs[t], items, i);
      return Ok(versions[items[i].key := v.value]);
    }

    /** The loop of BulkUpsert, inside its transaction. */
    method UpsertAll(t: TxId, items: seq<Item>, others: Schedule) returns (r: Result<map<Key, nat>, DbError>)
      requires Valid() && OthersOnly(others, t) && t in s.txs && AtItem(s.txs[t], items, 0)
      modifies this
      ensures Valid() && s.numbering == old(s.numbering) && ExtendedByOthers(old(s.log), s.log, t)
      ensures Reaches(old(s), s)
      ensures r.Ok? ==> t in s.txs && AtItem(s.txs[t], items, |items|) && Tracks(r.value, s.txs[t], items)
      ensures Quiet(others) && old(Alone(s, t)) ==>
                s.log == old(s.log) && Alone(s, t) && (old(CanPutAll(s, items)) ==> r.Ok?)
    {
      var versions: map<Key, nat> := map[];
      ReachesSelf(s);
      for i := 0 to |items|
        invariant Reaches(old(s), s)
        invariant Valid() && s.numbering == old(s.numbering) && ExtendedByOthers(old(s.log), s.log, t)
        invariant t in s.txs && AtItem(s.txs[t], items, i) && Tracks(versions, s.txs[t], items[..i])
        invariant Quiet(others) && old(Alone(s, t)) ==> s.log == old(s.log) && Alone(s, t)
      {
        ghost var before := s;
        var next := UpsertItem(t, items, i, versions, others);
        ReachesThen(old(s), before, s);
        if next.Err? {
          return next;
        }
        versions := next.value;
      }
      assert items[..|items|] == items;
      return Ok(versions);
    }

    /** Upsert and BulkUpsert: one transaction for all items.  Either every item lands, as one
        commit, or the transaction leaves nothing behind. */
    method BulkUpsert(t: TxId, items: seq<Item>, others: Schedule) returns (r: Result<map<Key, nat>, DbError>)
      requires Valid() && OthersOnly(others, t) && t !in s.txs
      modifies this
      ensures Valid() && t !in s.txs && s.numbering == old(s.numbering) && Reaches(old(s), s)
      ensures r.Ok? ==>
                && s.log != []
                && s.log[|s.log| - 1] == Committed(t, Upserts(items))
                && ExtendedByOthers(old(s.log), s.log[..|s.log| - 1], t)
                && (forall k :: k in r.value <==> HasKey(items, k))
                && forall k | k in r.value ::
                     At(s.db, k).live.Some? && At(s.db, k).live.value.version == r.value[k]
      ensures r.Err? ==> ExtendedByOthers(old(s.log), s.log, t)
      ensures Quiet(others) && old(s.txs) == map[] ==>
                && s.txs == map[]
                && s.log == old(s.log) + (if r.Ok? then [Committed(t, Upserts(items))] else [])
                && (old(CanPutAll(s, items)) ==> r.Ok?)
    {
      StartTx(t, Upserts(items));
      ghost var s1 := s;
      r := UpsertAll(t, items, others);
      ReachesThen(old(s), s1, s);
      ghost var s2 := s;
      if r.Err? {
        Rollback(t);
        ReachesThen(old(s), s2, s);
        return;
      }
      Wait(t, others(3 * |items|));
      ReachesThen(old(s), s2, s);
      ghost var s3 := s;
      Commit(t);
      ReachesThen(old(s), s3, s);
    }

    /** Upsert: a bulk of one. */
    method Upsert(t: TxId, it: Item, others: Schedule) returns (r: Result<nat, DbError>)
      requires Valid() && OthersOnly(others, t) && t !in s.txs
      modifies this
      ensures Valid() && t !in s.txs && s.numbering == old(s.numbering) && Reaches(old(s), s)
      ensures r.Ok? ==>
                && Appended(old(At(s.db, it.key)).hist, At(s.db, it.key), it.blob)
                && r.value == |At(s.db, it.key).hist|
      ensures r.Err? ==> ExtendedByOthers(old(s.log), s.log, t)
      ensures Quiet(others) && old(s.txs) == map[] && old(CanPut(s, it.key)) ==>
                r.Ok? && r.value == |old(At(s.db, it.key)).hist| + 1
      ensures Quiet(others) && old(s.txs) == map[] ==> s.txs == map[]
    {
      var v := BulkUpsert(t, [it], others);
      if v.Err? {
        return Err(v.error);
      }
      assert HasKey([it], it.key) by { assert [it][0].key == it.key; }
      ReachableInv(old(s));
      ReachableInv(s);
      PutAppends(old(s), s, t, it);
      return Ok(v.value[it.key]);
    }

    /** GetHistoryVersion, outside any transaction. */
    method GetHistoryVersion(t: TxId, key: Key, target: nat, steps: seq<Step>) returns (h: Option<Blob>)
      requires Valid() && StepsOfOthers(steps, t) && t !in s.txs
      modifies this
      ensures Valid() && t !in s.txs && s.numbering == old(s.numbering) && Reaches(old(s), s)
      ensures old(At(s.db, key)).hist <= At(s.db, key).hist
      ensures var hist := At(s.db, key).hist;
              h == if 1 <= target <= |hist| then Some(hist[target - 1].blob) else None
      ensures steps == [] ==> s == old(s)
    {
      ReachableInv(s);
      HistoryImmutable(s, steps, key);
      Wait(t, steps);
      ReachableInv(s);
      StoredHistory(s, key);
      FindNumbered(At(s.db, key).hist, 1, target);
      h := FindVersion(At(s.db, key).hist, target);
    }

    /** The soft delete, a transaction of its own.  `missed` as in ExecDelete. */
    method Delete(t: TxId, k: Key, others: Schedule, missed: bool) returns (r: Result<(), DbError>)
      requires Valid() && OthersOnly(others, t) && t !in s.txs
      modifies this
      ensures Valid() && t !in s.txs && s.numbering == old(s.numbering) && Reaches(old(s), s)
      ensures r.Ok? ==>
                && s.log != []
                && s.log[|s.log| - 1] == Committed(t, Prog.Delete(k))
                && ExtendedByOthers(old(s.log), s.log[..|s.log| - 1], t)
                && At(s.db, k).live.None?
      ensures r.Err? ==> ExtendedByOthers(old(s.log), s.log, t)
      ensures r == Err(NotFound) ==> At(s.db, k).live.None? || (missed && DeletedSince(old(s.log), s.log, k))
      ensures Quiet(others) && old(s.txs) == map[] ==>
                && (r.Ok? <==> old(At(s.db, k)).live.Some?)
                && s.log == old(s.log) + (if r.Ok? then [Committed(t, Prog.Delete(k))] else [])
    {
      StartTx(t, Prog.Delete(k));
      ghost var s1 := s;
      r := ExecDelete(t, others(0), missed);
      ReachesThen(old(s), s1, s);
      ghost var s2 := s;
      if r.Err? {
        Rollback(t);
        ReachesThen(old(s), s2, s);
        return;
      }
      Wait(t, others(1));
      ReachesThen(old(s), s2, s);
      ghost var s3 := s;
      Commit(t);
      ReachesThen(old(s), s3, s);
    }

    /** The soft-delete statement; like the upsert it gives up if the key is not free.  If another
        delete of the key committed while it waited for the row, it may report no row although a
        later upsert has made the key live again: that row is newer than its snapshot (`missed`). */
    method ExecDelete(t: TxId, steps: seq<Step>, missed: bool) returns (r: Result<(), DbError>)
      requires Valid() && StepsOfOthers(steps, t)
      requires t in s.txs && s.txs[t].prog.Delete? && s.txs[t].next == 0
      modifies this
      ensures Valid() && s.numbering == old(s.numbering) && Reaches(old(s), s)
      ensures ExtendedByOthers(old(s.log), s.log, t)
      ensures r.Ok? ==>
                var k := old(s.txs[t].prog.key);
                && t in s.txs && s.txs[t].prog == Prog.Delete(k) && s.txs[t].next == 1
                && k in s.txs[t].own && s.txs[t].own[k].live.None?
      ensures r.Err? ==> r.error == NotFound || r.error == Canceled
      ensures r == Err(NotFound) ==>
                var k := old(s.txs[t].prog.key);
                At(s.db, k).live.None? || (missed && DeletedSince(old(s.log), s.log, k))
      ensures steps == [] && old(Alone(s, t)) ==>
                s.log == old(s.log) && (r.Ok? <==> old(At(s.db, s.txs[t].prog.key)).live.Some?)
    {
      var before := s;
      Wait(t, steps);
      ghost var waited := s;
      if missed && DeletedSince(before.log, s.log, s.txs[t].prog.key) {
        return Err(NotFound);
      }
      if !Enabled(s, DeleteLive(t)) {
        return Err(Canceled);
      }
      s := Next(s, DeleteLive(t));
      ReachesNext(waited, DeleteLive(t));
      ReachesThen(old(s), waited, s);
      ReachableThen(old(s), s);
      return if t in s.txs then Ok(()) else Err(NotFound);
    }

    /** BEGIN, for a transaction that is to run `prog`. */
    method StartTx(t: TxId, prog: Prog)
      requires Valid() && t !in s.txs
      modifies this
      ensures Valid() && s == old(s).(txs := old(s.txs)[t := Tx(prog, 0, Ready, map[])])
      ensures Reaches(old(s), s)
    {
      ReachesNext(s, Begin(t, prog));
      s := Next(s, Begin(t, prog));
      ReachableThen(old(s), s);
    }

    /** COMMIT: the transaction's rows become visible at once, and its locks are gone. */
    method Commit(t: TxId)
      requires Valid() && t in s.txs && Finished(s.txs[t])
      modifies this
      ensures Valid() && s.txs == old(s.txs) - {t} && s.numbering == old(s.numbering)
      ensures s.log == old(s.log) + [Committed(t, old(s.txs[t].prog))]
      ensures s.db == old(s.db) + old(s.txs[t].own)
      ensures Reaches(old(s), s)
    {
      ReachesNext(s, CommitTx(t));
      s := Next(s, CommitTx(t));
      ReachableThen(old(s), s);
    }
  }

  /** `tx` has completed the first `n` of `items` and stands between statements. */
  predicate AtItem(tx: Tx, items: seq<Item>, n: nat) {
    tx.prog == Upserts(items) && tx.next == n && tx.pc == Ready
  }

  /** `versions` maps exactly the keys of `done` to the versions `tx` gave them. */
  ghost predicate Tracks(versions: map<Key, nat>, tx: Tx, done: seq<Item>) {
    && (forall k :: k in versions <==> HasKey(done, k))
    && forall k | k in versions ::
         k in tx.own && tx.own[k].live.Some? && tx.own[k].live.value.version == versions[k]
  }

  lemma TracksNext(versions: map<Key, nat>, v: nat, tx: Tx, tx': Tx, items: seq<Item>, i: nat)
    requires i < |items| && Tracks(versions, tx, items[..i])
    requires var k := items[i].key;
             k in tx'.own && tx'.own[k].live == Some(Row(items[i].blob, v)) && tx'.own - {k} == tx.own - {k}
    ensures Tracks(versions[items[i].key := v], tx', items[..i + 1])
  {
    var key := items[i].key;
    forall k ensures HasKey(items[..i + 1], k) <==> k in versions || k == key {
      DoneGrows(KeyLog([], false), items, i, k);
    }
    forall k | k in versions && k != key
      ensures k in tx'.own && tx'.own[k] == tx.own[k]
    {
      assert k in tx.own - {key} && k in tx'.own - {key};
      assert (tx.own - {key})[k] == (tx'.own - {key})[k];
    }
  }
}
