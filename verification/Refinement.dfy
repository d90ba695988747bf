/**
 Every interleaving of the transactions of VersionedTables refines the sequential specification
 of Replay: the committed tables are exactly what replaying the committed programs in commit
 order gives.
 */
module Refinement {
  import opened Wrappers
  import opened VersionedTables
  import opened Replay

  /** The specification state of `k` as transaction `tx` sees it between two upserts. */
  function Seen(s: State, tx: Tx, k: Key): KeyLog
    requires tx.prog.Upserts? && tx.next <= |tx.prog.items|
  {
    PutAll(ReplayKey(s.log, k), tx.prog.items[..tx.next], k)
  }

  ghost predicate CommittedOk(s: State) {
    forall k :: At(s.db, k) == Stored(ReplayKey(s.log, k))
  }

  predicate Dead(c: KeyLog) {
    !c.live && c.values != []
  }

  /** `base` is the number of versions committed when the maximum was read, or the transaction's
      own count for a key it has written. */
  ghost predicate BaseOk(s: State, tx: Tx, k: Key, base: nat, readAt: nat)
    requires tx.prog.Upserts? && tx.next <= |tx.prog.items|
  {
    readAt <= |s.log| && base <= |Seen(s, tx, k).values| &&
    match s.numbering
    case FromOne => base == 0
    case FromHistory =>
      !HasKey(tx.prog.items[..tx.next], k) ==> base == |ReplayKey(s.log[..readAt], k).values|
  }

  /** The written row bumps a live row, or is numbered from `base`. */
  ghost predicate WroteOk(s: State, tx: Tx)
    requires tx.prog.Upserts? && tx.next < |tx.prog.items| && tx.pc.Wrote?
  {
    var it := tx.prog.items[tx.next];
    var seen := Seen(s, tx, it.key);
    it.key in tx.own &&
    BaseOk(s, tx, it.key, tx.pc.base, tx.pc.readAt) &&
    tx.pc.version == (if seen.live then |seen.values| + 1 else tx.pc.base + 1) &&
    tx.own[it.key] == Cell(Some(Row(it.blob, tx.pc.version)), Numbered(seen.values))
  }

  /** The keys whose upsert is complete hold their specification state. */
  ghost predicate OwnOk(s: State, tx: Tx)
    requires tx.prog.Upserts? && tx.next <= |tx.prog.items|
  {
    var done := tx.prog.items[..tx.next];
    forall k ::
      && (HasKey(done, k) ==> k in tx.own && (s.numbering.FromOne? ==> !Dead(ReplayKey(s.log, k))))
      && (k in tx.own && !(tx.pc.Wrote? && tx.next < |tx.prog.items| && k == tx.prog.items[tx.next].key) ==>
            HasKey(done, k) && tx.own[k] == Stored(Seen(s, tx, k)))
  }

  ghost predicate TxOk(s: State, tx: Tx) {
    match tx.prog
    case Upserts(items) =>
      && tx.next <= |items|
      && OwnOk(s, tx)
      && (tx.pc.Ready? || tx.next < |items|)
      && (tx.pc.HasMax? ==> BaseOk(s, tx, items[tx.next].key, tx.pc.base, tx.pc.readAt))
      && (tx.pc.Wrote? ==> WroteOk(s, tx))
    case Delete(k) =>
      && tx.next <= 1
      && (tx.next == 0 ==> tx.own == map[])
      && (tx.next == 1 ==>
            && ReplayKey(s.log, k).live
            && tx.own == map[k := Stored(KeyLog(ReplayKey(s.log, k).values, false))])
  }

  /** Two transactions never hold the same key. */
  ghost predicate LocksExclusive(s: State) {
    forall t, u, k :: t in s.txs && u in s.txs && k in s.txs[t].own && k in s.txs[u].own ==> t == u
  }

  ghost predicate Inv(s: State) {
    && CommittedOk(s)
    && LocksExclusive(s)
    && forall t :: t in s.txs ==> TxOk(s, s.txs[t])
  }

  // ---- One lemma a step -------------------------------------------------------------------

  /** Changing one transaction keeps the invariant if that one stays right and takes no lock of
      another. */
  lemma OneTxChanged(s: State, t: TxId, tx: Tx)
    requires Inv(s)
    requires TxOk(s, tx)
    requires forall k :: k in tx.own ==> !LockedByOther(s, t, k)
    ensures Inv(s.(txs := s.txs[t := tx]))
  {
    var s' := s.(txs := s.txs[t := tx]);
    forall u | u in s'.txs ensures TxOk(s', s'.txs[u]) {
      assert TxOk(s, s'.txs[u]);
      TxOkDependsOnLog(s, s', s'.txs[u]);
    }
  }

  lemma TxOkDependsOnLog(s: State, s': State, tx: Tx)
    requires s.log == s'.log && s.numbering == s'.numbering && TxOk(s, tx)
    ensures TxOk(s', tx)
  {
    if tx.prog.Upserts? {
      assert forall k :: Seen(s, tx, k) == Seen(s', tx, k);
    }
  }

  lemma EndKeepsInv(s: State, t: TxId)
    requires Inv(s)
    ensures Inv(End(s, t))
  {
    forall u | u in End(s, t).txs ensures TxOk(End(s, t), s.txs[u]) {
      TxOkDependsOnLog(s, End(s, t), s.txs[u]);
    }
  }

  /** What a transaction sees of the key it is about to write. */
  lemma ViewIsSeen(s: State, t: TxId, k: Key)
    requires Inv(s) && Upserting(s, t) && !s.txs[t].pc.Wrote?
    ensures View(s, s.txs[t], k) == Stored(Seen(s, s.txs[t], k))
    ensures HasKey(s.txs[t].prog.items[..s.txs[t].next], k) <==> k in s.txs[t].own
  {
    assert TxOk(s, s.txs[t]);
    PutAllFrame(ReplayKey(s.log, k), s.txs[t].prog.items[..s.txs[t].next], k);
  }

  lemma ReadMaxKeepsInv(s: State, t: TxId)
    requires Inv(s) && Enabled(s, ReadMax(t))
    ensures Inv(DoReadMax(s, t))
  {
    var tx, k := s.txs[t], Current(s, t).key;
    assert TxOk(s, tx);
    ViewIsSeen(s, t, k);
    NumberedVersions(Seen(s, tx, k).values);
    PutAllFrame(ReplayKey(s.log, k), tx.prog.items[..tx.next], k);
    assert s.log[..|s.log|] == s.log;
    OneTxChanged(s, t, DoReadMax(s, t).txs[t]);
  }

  lemma WriteLiveKeepsInv(s: State, t: TxId)
    requires Inv(s) && Enabled(s, WriteLive(t))
    ensures Inv(DoWriteLive(s, t))
  {
    var tx, k := s.txs[t], Current(s, t).key;
    assert TxOk(s, tx);
    ViewIsSeen(s, t, k);
    OneTxChanged(s, t, DoWriteLive(s, t).txs[t]);
  }

  /** The history insert violates UNIQUE exactly if the version written is already taken. */
  lemma ConflictIffTaken(s: State, t: TxId)
    requires Inv(s) && Enabled(s, WriteHistory(t))
    ensures var tx, k := s.txs[t], Current(s, t).key;
            HasVersion(View(s, tx, k).hist, tx.pc.version) <==> tx.pc.version <= |Seen(s, tx, k).values|
  {
    assert TxOk(s, s.txs[t]);
    NumberedVersions(Seen(s, s.txs[t], Current(s, t).key).values);
  }

  lemma DoneGrows(c: KeyLog, items: seq<Item>, n: nat, k: Key)
    requires n < |items|
    ensures HasKey(items[..n + 1], k) <==> HasKey(items[..n], k) || items[n].key == k
    ensures items[n].key != k ==> PutAll(c, items[..n + 1], k) == PutAll(c, items[..n], k)
    ensures items[n].key == k ==>
              PutAll(c, items[..n + 1], k) == KeyLog(PutAll(c, items[..n], k).values + [items[n].blob], true)
  {
    assert items[..n + 1][..n] == items[..n];
    if i :| 0 <= i < |items[..n]| && items[..n][i].key == k {
      assert items[..n + 1][i].key == k;
    }
    if items[n].key == k {
      assert items[..n + 1][n].key == k;
    }
  }

  /** `tx` has written the live row of its current item and `row` is what its history row makes of it. */
  function HistoryWritten(tx: Tx, row: Cell): Tx
    requires tx.prog.Upserts? && tx.next < |tx.prog.items|
  {
    tx.(pc := Ready, next := tx.next + 1, own := tx.own[tx.prog.items[tx.next].key := row])
  }

  /** The rows `tx` holds for `k` are those of its finished items. */
  ghost predicate OwnRowOk(s: State, tx: Tx, k: Key)
    requires tx.prog.Upserts? && tx.next <= |tx.prog.items|
  {
    var done := tx.prog.items[..tx.next];
    && (HasKey(done, k) ==> k in tx.own && (s.numbering.FromOne? ==> !Dead(ReplayKey(s.log, k))))
    && (k in tx.own ==> HasKey(done, k) && tx.own[k] == Stored(Seen(s, tx, k)))
  }

  lemma {:induction false} HistoryKeepsOthers(s: State, tx: Tx, row: Cell, k: Key)
    requires tx.prog.Upserts? && tx.pc.Wrote? && tx.next < |tx.prog.items| && TxOk(s, tx)
    requires k != tx.prog.items[tx.next].key
    ensures OwnRowOk(s, HistoryWritten(tx, row), k)
  {
    DoneGrows(ReplayKey(s.log, k), tx.prog.items, tx.next, k);
  }

  /** An accepted history row makes the key's rows those of the put. */
  lemma {:induction false} HistoryCompletesRow(s: State, tx: Tx)
    requires tx.prog.Upserts? && tx.pc.Wrote? && tx.next < |tx.prog.items| && TxOk(s, tx)
    requires tx.pc.version > |Seen(s, tx, tx.prog.items[tx.next].key).values|
    ensures var it := tx.prog.items[tx.next];
            var seen := Seen(s, tx, it.key);
            && it.key in tx.own
            && Stored(KeyLog(seen.values + [it.blob], true)) ==
               tx.own[it.key].(hist := tx.own[it.key].hist + [HistRow(tx.pc.version, it.blob)])
            && (s.numbering.FromOne? ==> !Dead(ReplayKey(s.log, it.key)))
  {
    var it := tx.prog.items[tx.next];
    var seen := Seen(s, tx, it.key);
    assert Numbered(seen.values + [it.blob]) == Numbered(seen.values) + [HistRow(|seen.values| + 1, it.blob)];
    PutAllFrame(ReplayKey(s.log, it.key), tx.prog.items[..tx.next], it.key);
  }

  lemma {:induction false} HistoryKeepsCurrent(s: State, tx: Tx)
    requires tx.prog.Upserts? && tx.pc.Wrote? && tx.next < |tx.prog.items| && TxOk(s, tx)
    requires tx.pc.version > |Seen(s, tx, tx.prog.items[tx.next].key).values|
    ensures var it := tx.prog.items[tx.next];
            && it.key in tx.own
            && var row := tx.own[it.key].(hist := tx.own[it.key].hist + [HistRow(tx.pc.version, it.blob)]);
               OwnRowOk(s, HistoryWritten(tx, row), it.key)
  {
    HistoryCompletesRow(s, tx);
    DoneGrows(ReplayKey(s.log, tx.prog.items[tx.next].key), tx.prog.items, tx.next, tx.prog.items[tx.next].key);
  }

  lemma OwnRowsOk(s: State, tx: Tx)
    requires tx.prog.Upserts? && tx.pc.Ready? && tx.next <= |tx.prog.items|
    requires forall k :: OwnRowOk(s, tx, k)
    ensures TxOk(s, tx)
  {
    forall k
      ensures HasKey(tx.prog.items[..tx.next], k) ==>
                k in tx.own && (s.numbering.FromOne? ==> !Dead(ReplayKey(s.log, k)))
      ensures k in tx.own ==> HasKey(tx.prog.items[..tx.next], k) && tx.own[k] == Stored(Seen(s, tx, k))
    {
      assert OwnRowOk(s, tx, k);
    }
  }

  lemma {:induction false} AcceptedRowOk(s: State, tx: Tx)
    requires tx.prog.Upserts? && tx.pc.Wrote? && tx.next < |tx.prog.items| && TxOk(s, tx)
    requires tx.pc.version > |Seen(s, tx, tx.prog.items[tx.next].key).values|
    ensures var it := tx.prog.items[tx.next];
            && it.key in tx.own
            && var row := tx.own[it.key].(hist := tx.own[it.key].hist + [HistRow(tx.pc.version, it.blob)]);
               TxOk(s, HistoryWritten(tx, row))
  {
    var it := tx.prog.items[tx.next];
    HistoryKeepsCurrent(s, tx);
    var row := tx.own[it.key].(hist := tx.own[it.key].hist + [HistRow(tx.pc.version, it.blob)]);
    forall k ensures OwnRowOk(s, HistoryWritten(tx, row), k) {
      if k != it.key { HistoryKeepsOthers(s, tx, row, k); }
    }
    OwnRowsOk(s, HistoryWritten(tx, row));
  }

  lemma {:induction false} WriteHistoryKeepsTx(s: State, t: TxId)
    requires Inv(s) && Enabled(s, WriteHistory(t)) && t in DoWriteHistory(s, t).txs
    ensures var tx' := DoWriteHistory(s, t).txs[t];
            TxOk(s, tx') && tx'.own.Keys == s.txs[t].own.Keys
  {
    assert TxOk(s, s.txs[t]);
    ConflictIffTaken(s, t);
    AcceptedRowOk(s, s.txs[t]);
  }

  /** OneTxChanged for a transaction that takes no further lock. */
  lemma SameLocksKeepsInv(s: State, t: TxId, tx: Tx)
    requires Inv(s) && t in s.txs && TxOk(s, tx) && tx.own.Keys == s.txs[t].own.Keys
    ensures Inv(s.(txs := s.txs[t := tx]))
  {
    OneTxChanged(s, t, tx);
  }

  lemma {:induction false} WriteHistoryKeepsInv(s: State, t: TxId)
    requires Inv(s) && Enabled(s, WriteHistory(t))
    ensures Inv(DoWriteHistory(s, t))
  {
    if t !in DoWriteHistory(s, t).txs {
      EndKeepsInv(s, t);
    } else {
      WriteHistoryKeepsTx(s, t);
      SameLocksKeepsInv(s, t, DoWriteHistory(s, t).txs[t]);
    }
  }

  lemma DeleteLiveKeepsInv(s: State, t: TxId)
    requires Inv(s) && Enabled(s, DeleteLive(t))
    ensures Inv(DoDeleteLive(s, t))
  {
    var tx := s.txs[t];
    assert TxOk(s, tx);
    if At(s.db, tx.prog.key).live.None? {
      EndKeepsInv(s, t);
    } else {
      OneTxChanged(s, t, DoDeleteLive(s, t).txs[t]);
    }
  }

  /** A committing transaction holds exactly the keys its program touches, each in the state the
      program gives it. */
  lemma FinishedOwn(s: State, t: TxId, k: Key)
    requires Inv(s) && Enabled(s, CommitTx(t))
    ensures k in s.txs[t].own <==> Touches(s.txs[t].prog, k)
    ensures k in s.txs[t].own ==> s.txs[t].own[k] == Stored(Apply(ReplayKey(s.log, k), s.txs[t].prog, k))
    ensures k !in s.txs[t].own ==> Apply(ReplayKey(s.log, k), s.txs[t].prog, k) == ReplayKey(s.log, k)
  {
    var tx := s.txs[t];
    assert TxOk(s, tx);
    if tx.prog.Upserts? {
      assert tx.prog.items[..tx.next] == tx.prog.items;
      PutAllFrame(ReplayKey(s.log, k), tx.prog.items, k);
    }
  }

  /** A commit appends one entry to the log. */
  lemma ReplayCommit(s: State, t: TxId, k: Key)
    requires t in s.txs
    ensures ReplayKey(DoCommit(s, t).log, k) == Apply(ReplayKey(s.log, k), s.txs[t].prog, k)
  {
    assert DoCommit(s, t).log[..|s.log|] == s.log;
  }

  /** A commit leaves other transactions right: it touches none of their keys, and only adds
      versions. */
  lemma CommitKeepsOther(s: State, t: TxId, u: TxId)
    requires Inv(s) && Enabled(s, CommitTx(t)) && u in s.txs && u != t
    ensures TxOk(DoCommit(s, t), s.txs[u])
  {
    var s', tx := DoCommit(s, t), s.txs[u];
    assert TxOk(s, tx);
    forall k | k in tx.own ensures ReplayKey(s'.log, k) == ReplayKey(s.log, k) {
      FinishedOwn(s, t, k);
      ReplayCommit(s, t, k);
    }
    if tx.prog.Upserts? {
      assert forall k | k in tx.own :: Seen(s', tx, k) == Seen(s, tx, k);
      if !tx.pc.Ready? {
        CommitKeepsBase(s, t, tx, tx.prog.items[tx.next].key, tx.pc.base, tx.pc.readAt);
      }
    }
  }

  lemma CommitKeepsBase(s: State, t: TxId, tx: Tx, k: Key, base: nat, readAt: nat)
    requires t in s.txs && tx.prog.Upserts? && tx.next <= |tx.prog.items|
    requires BaseOk(s, tx, k, base, readAt)
    requires HasKey(tx.prog.items[..tx.next], k) ==> ReplayKey(DoCommit(s, t).log, k) == ReplayKey(s.log, k)
    ensures BaseOk(DoCommit(s, t), tx, k, base, readAt)
  {
    var s' := DoCommit(s, t);
    assert s'.log[..readAt] == s.log[..readAt] && s'.log[..|s.log|] == s.log;
    ReplayFrame(s'.log, |s.log|, k);
    PutAllFrame(ReplayKey(s.log, k), tx.prog.items[..tx.next], k);
    PutAllFrame(ReplayKey(s'.log, k), tx.prog.items[..tx.next], k);
  }

  lemma CommitKeepsInv(s: State, t: TxId)
    requires Inv(s) && Enabled(s, CommitTx(t))
    ensures Inv(DoCommit(s, t))
  {
    var s' := DoCommit(s, t);
    forall k ensures At(s'.db, k) == Stored(ReplayKey(s'.log, k)) {
      FinishedOwn(s, t, k);
      ReplayCommit(s, t, k);
      assert At(s.db, k) == Stored(ReplayKey(s.log, k));
    }
    forall u | u in s'.txs ensures TxOk(s', s'.txs[u]) {
      CommitKeepsOther(s, t, u);
    }
  }

  lemma BeginKeepsInv(s: State, t: TxId, prog: Prog)
    requires Inv(s) && t !in s.txs
    ensures Inv(Next(s, Begin(t, prog)))
  {
    OneTxChanged(s, t, Tx(prog, 0, Ready, map[]));
  }

  lemma StepKeepsInv(s: State, step: Step)
    requires Inv(s)
    ensures Inv(Next(s, step))
  {
    if Enabled(s, step) {
      match step
      case Begin(t, prog) => BeginKeepsInv(s, t, prog);
      case ReadMax(t) => ReadMaxKeepsInv(s, t);
      case WriteLive(t) => WriteLiveKeepsInv(s, t);
      case WriteHistory(t) => WriteHistoryKeepsInv(s, t);
      case DeleteLive(t) => DeleteLiveKeepsInv(s, t);
      case CommitTx(t) => CommitKeepsInv(s, t);
      case Abort(t) => EndKeepsInv(s, t);
    }
  }

  lemma {:induction false} RunKeepsInv(s: State, steps: seq<Step>)
    requires Inv(s)
    ensures Inv(Run(s, steps))
  {
    if steps != [] {
      RunKeepsInv(s, steps[..|steps| - 1]);
      StepKeepsInv(Run(s, steps[..|steps| - 1]), steps[|steps| - 1]);
    }
  }

  lemma InitInv(numbering: Numbering)
    ensures Inv(Init(numbering))
  {
  }

  // ---- The theorems -----------------------------------------------------------------------

  /** Refinement: after every interleaving, each key's committed rows are those of running the
      committed programs one at a time in commit order. */
  lemma Serializable(numbering: Numbering, steps: seq<Step>, k: Key)
    ensures var s := Run(Init(numbering), steps);
            At(s.db, k) == Stored(ReplayKey(s.log, k))
  {
    InitInv(numbering);
    RunKeepsInv(Init(numbering), steps);
  }

  /** After every interleaving, history versions are exactly 1..n in order, and a live row is the
      newest version with that version's ciphertext and nonce. */
  lemma VersionsConsecutive(numbering: Numbering, steps: seq<Step>, k: Key)
    ensures var c := At(Run(Init(numbering), steps).db, k);
            && (forall i | 0 <= i < |c.hist| :: c.hist[i].version == i + 1)
            && (c.live.Some? ==>
                  && c.hist != []
                  && c.live.value.version == |c.hist|
                  && c.live.value.blob == c.hist[|c.hist| - 1].blob)
  {
    Serializable(numbering, steps, k);
  }

  /** The first upsert of a key in a transaction hits the UNIQUE constraint exactly if the key was
      both written and deleted by transactions that committed after its maximum was read. */
  lemma AbortIffWrittenThenDeleted(steps: seq<Step>, t: TxId)
    requires Enabled(Run(Init(FromHistory), steps), WriteHistory(t))
    ensures var s := Run(Init(FromHistory), steps);
            var tx, k := s.txs[t], Current(s, t).key;
            !HasKey(tx.prog.items[..tx.next], k) ==>
              tx.pc.readAt <= |s.log| &&
              (t !in Next(s, WriteHistory(t)).txs <==> WrittenThenDeleted(s.log, tx.pc.readAt, k))
  {
    var s := Run(Init(FromHistory), steps);
    RunKeepsInv(Init(FromHistory), steps);
    var tx, k := s.txs[t], Current(s, t).key;
    assert TxOk(s, tx);
    ConflictIffTaken(s, t);
    if !HasKey(tx.prog.items[..tx.next], k) {
      PutAllFrame(ReplayKey(s.log, k), tx.prog.items[..tx.next], k);
      StaleIffWrittenThenDeleted(s.log, tx.pc.readAt, k);
      ReplayFrame(s.log, tx.pc.readAt, k);
      assert s.numbering == FromHistory by { RunExtendsLog(Init(FromHistory), steps); }
    }
  }

  /** A later upsert of a key the transaction has already written never hits the constraint. */
  lemma RepeatedKeyNeverAborts(steps: seq<Step>, t: TxId)
    requires Enabled(Run(Init(FromHistory), steps), WriteHistory(t))
    ensures var s := Run(Init(FromHistory), steps);
            HasKey(s.txs[t].prog.items[..s.txs[t].next], Current(s, t).key) ==> t in Next(s, WriteHistory(t)).txs
  {
    var s := Run(Init(FromHistory), steps);
    RunKeepsInv(Init(FromHistory), steps);
    var tx, k := s.txs[t], Current(s, t).key;
    assert TxOk(s, tx);
    ConflictIffTaken(s, t);
    PutAllFrame(ReplayKey(s.log, k), tx.prog.items[..tx.next], k);
  }

  /** A delete acts on committed rows: with a live row it waits for the key's holder and then clears
      that row alone; without one it ends at once, whoever holds the key. */
  lemma DeleteStatement(s: State, t: TxId)
    requires t in s.txs && s.txs[t].prog.Delete? && s.txs[t].next == 0
    ensures var k, s' := s.txs[t].prog.key, Next(s, DeleteLive(t));
            && (At(s.db, k).live.None? ==> s' == s.(txs := s.txs - {t}))
            && (At(s.db, k).live.Some? && LockedByOther(s, t, k) ==> s' == s)
            && (At(s.db, k).live.Some? && !LockedByOther(s, t, k) ==>
                  t in s'.txs && s'.txs[t].own == map[k := Cell(None, At(s.db, k).hist)])
  {
  }

  /** The log only grows along a run. */
  lemma {:induction false} RunExtendsLog(s: State, steps: seq<Step>)
    ensures s.log <= Run(s, steps).log
    ensures Run(s, steps).numbering == s.numbering
  {
    if steps != [] {
      RunExtendsLog(s, steps[..|steps| - 1]);
    }
  }

  /** Version numbers stand for contents: at any two points of a run, a key live with the same
      version has the same row. */
  lemma VersionDeterminesRow(s: State, steps: seq<Step>, k: Key)
    requires Inv(s)
    ensures var a, b := At(s.db, k).live, At(Run(s, steps).db, k).live;
            a.Some? && b.Some? && a.value.version == b.value.version ==> a == b
  {
    var s' := Run(s, steps);
    RunKeepsInv(s, steps);
    RunExtendsLog(s, steps);
    assert s'.log[..|s.log|] == s.log;
    assert At(s.db, k) == Stored(ReplayKey(s.log, k)) && At(s'.db, k) == Stored(ReplayKey(s'.log, k));
    ReplayFrame(s'.log, |s.log|, k);
  }

  /** History rows are never rewritten or removed. */
  lemma HistoryImmutable(s: State, steps: seq<Step>, k: Key)
    requires Inv(s)
    ensures At(s.db, k).hist <= At(Run(s, steps).db, k).hist
  {
    var s' := Run(s, steps);
    RunKeepsInv(s, steps);
    RunExtendsLog(s, steps);
    assert s'.log[..|s.log|] == s.log;
    assert At(s.db, k) == Stored(ReplayKey(s.log, k)) && At(s'.db, k) == Stored(ReplayKey(s'.log, k));
    ReplayFrame(s'.log, |s.log|, k);
  }

  // ---- A run in which a key is written and deleted -------------------------------------------

  lemma RunSnoc(s: State, steps: seq<Step>, step: Step)
    ensures Run(s, steps + [step]) == Next(Run(s, steps), step)
  {
    assert (steps + [step])[..|steps|] == steps;
  }

  lemma FirstStep(s: State, step: Step)
    ensures Run(s, [step]) == Next(s, step)
  {
    RunSnoc(s, [], step);
    assert [] + [step] == [step];
  }

  predicate Unlocked(s: State, k: Key) {
    forall u | u in s.txs :: k !in s.txs[u].own
  }

  /** The steps of one upsert of a single item, by itself. */
  function PutSteps(t: TxId, it: Item): seq<Step> {
    [Begin(t, Upserts([it]))] + [ReadMax(t)] + [WriteLive(t)] + [WriteHistory(t)] + [CommitTx(t)]
  }

  function DeleteSteps(t: TxId, k: Key): seq<Step> {
    [Begin(t, Delete(k))] + [DeleteLive(t)] + [CommitTx(t)]
  }

  lemma {:induction false} WriteRuns(s: State, t: TxId, it: Item)
    requires t !in s.txs && Unlocked(s, it.key) && it.key !in s.db
    ensures Run(s, [Begin(t, Upserts([it]))] + [ReadMax(t)] + [WriteLive(t)]) ==
            s.(txs := s.txs[t := Tx(Upserts([it]), 0, Wrote(1, 0, |s.log|), map[it.key := Cell(Some(Row(it.blob, 1)), [])])])
  {
    var s1 := Next(s, Begin(t, Upserts([it])));
    FirstStep(s, Begin(t, Upserts([it])));
    var s2 := Next(s1, ReadMax(t));
    RunSnoc(s, [Begin(t, Upserts([it]))], ReadMax(t));
    assert s2.txs[t] == Tx(Upserts([it]), 0, HasMax(0, |s.log|), map[]);
    RunSnoc(s, [Begin(t, Upserts([it]))] + [ReadMax(t)], WriteLive(t));
  }

  lemma {:induction false} PutRuns(s: State, t: TxId, it: Item)
    requires t !in s.txs && Unlocked(s, it.key) && it.key !in s.db
    ensures Run(s, PutSteps(t, it)) ==
            s.(db := s.db[it.key := Cell(Some(Row(it.blob, 1)), [HistRow(1, it.blob)])],
               log := s.log + [Committed(t, Upserts([it]))])
  {
    var steps := [Begin(t, Upserts([it]))] + [ReadMax(t)] + [WriteLive(t)];
    WriteRuns(s, t, it);
    var s3 := Run(s, steps);
    var s4 := Next(s3, WriteHistory(t));
    RunSnoc(s, steps, WriteHistory(t));
    var cell := Cell(Some(Row(it.blob, 1)), [HistRow(1, it.blob)]);
    assert [] + [HistRow(1, it.blob)] == [HistRow(1, it.blob)];
    assert s3.txs[t].own[it.key := cell] == map[it.key := cell];
    assert s4.txs[t] == Tx(Upserts([it]), 1, Ready, map[it.key := cell]);
    RunSnoc(s, steps + [WriteHistory(t)], CommitTx(t));
    assert s4.txs - {t} == s.txs && s.db + map[it.key := cell] == s.db[it.key := cell];
  }

  lemma {:induction false} DeleteRuns(s: State, t: TxId, k: Key)
    requires t !in s.txs && Unlocked(s, k) && At(s.db, k).live.Some?
    ensures Run(s, DeleteSteps(t, k)) ==
            s.(db := s.db[k := At(s.db, k).(live := None)], log := s.log + [Committed(t, Delete(k))])
  {
    var s1 := Next(s, Begin(t, Delete(k)));
    FirstStep(s, Begin(t, Delete(k)));
    var s2 := Next(s1, DeleteLive(t));
    RunSnoc(s, [Begin(t, Delete(k))], DeleteLive(t));
    var cell := At(s.db, k).(live := None);
    assert s2.txs[t] == Tx(Delete(k), 1, Ready, map[k := cell]);
    RunSnoc(s, [Begin(t, Delete(k))] + [DeleteLive(t)], CommitTx(t));
    assert s2.txs - {t} == s.txs && s.db + map[k := cell] == s.db[k := cell];
  }

  /** A key that is written and then deleted keeps its history row and has no live row. */
  lemma PutThenDelete(s: State, t: TxId, it: Item)
    requires t !in s.txs && Unlocked(s, it.key) && it.key !in s.db
    ensures Run(s, PutSteps(t, it) + DeleteSteps(t, it.key)) ==
            s.(db := s.db[it.key := Cell(None, [HistRow(1, it.blob)])],
               log := s.log + [Committed(t, Upserts([it]))] + [Committed(t, Delete(it.key))])
  {
    PutRuns(s, t, it);
    DeleteRuns(Run(s, PutSteps(t, it)), t, it.key);
    RunConcat(s, PutSteps(t, it), DeleteSteps(t, it.key));
  }

  /** The constraint does fire: between a transaction's read of the maximum and its write, another
      writes and deletes the key, and the stale version 1 is taken. */
  lemma {:induction false} StaleMaximumAborts(it: Item, other: Item)
    requires other.key == it.key
    ensures var before := [Begin(0, Upserts([it]))] + [ReadMax(0)];
            var steps := before + (PutSteps(1, other) + DeleteSteps(1, it.key)) + [WriteLive(0)];
            var s := Run(Init(FromHistory), steps);
            Enabled(s, WriteHistory(0)) && 0 !in Next(s, WriteHistory(0)).txs
  {
    var s0, k := Init(FromHistory), it.key;
    var s1 := Next(s0, Begin(0, Upserts([it])));
    FirstStep(s0, Begin(0, Upserts([it])));
    var before := [Begin(0, Upserts([it]))] + [ReadMax(0)];
    RunSnoc(s0, [Begin(0, Upserts([it]))], ReadMax(0));
    var s2 := Next(s1, ReadMax(0));
    assert s2.txs == map[0 := Tx(Upserts([it]), 0, HasMax(0, 0), map[])];
    var middle := PutSteps(1, other) + DeleteSteps(1, k);
    PutThenDelete(s2, 1, other);
    RunConcat(s0, before, middle);
    var s3 := Run(s2, middle);
    RunSnoc(s0, before + middle, WriteLive(0));
    assert s3.txs == s2.txs && At(s3.db, k) == Cell(None, [HistRow(1, other.blob)]);
    assert !LockedByOther(s3, 0, k) && Enabled(s3, WriteLive(0));
    var s4 := Next(s3, WriteLive(0));
    assert s4.txs[0].pc.version == 1 && s4.txs[0].own[k].hist == [HistRow(1, other.blob)];
    assert View(s4, s4.txs[0], k).hist[0].version == 1;
  }
}
