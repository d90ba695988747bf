/**
 The versioned table pair of internal/repo/secrets.go and internal/repo/vault.go: a table with
 at most one live row per key and an append-only history table with UNIQUE(owner, key, version).
 Transactions run concurrently at READ COMMITTED, one SQL statement a step.  A transaction sees
 committed rows plus its own writes; from its first write of a key until it ends, every other
 writer of that key waits.
 */
module VersionedTables {
  import opened Wrappers

  type Key = string
  type TxId = nat

  datatype Blob = Blob(ciphertext: Bytes, nonce: Bytes)
  datatype Item = Item(key: Key, blob: Blob)
  datatype Row = Row(blob: Blob, version: nat)
  datatype HistRow = HistRow(version: nat, blob: Blob)

  /** What the two tables hold for one key. */
  datatype Cell = Cell(live: Option<Row>, hist: seq<HistRow>)

  type Tables = map<Key, Cell>

  function At(db: Tables, k: Key): Cell {
    if k in db then db[k] else Cell(None, [])
  }

  /** `SELECT COALESCE(MAX(version), 0)`. */
  function MaxVersion(h: seq<HistRow>): nat {
    if h == [] then 0
    else
      var m := MaxVersion(h[..|h| - 1]);
      if m < h[|h| - 1].version then h[|h| - 1].version else m
  }

  predicate HasVersion(h: seq<HistRow>, v: nat) {
    exists i | 0 <= i < |h| :: h[i].version == v
  }

  /** The version a fresh live row gets: one past the history maximum read at the start of the
      upsert (project secrets), or always 1 (vault secrets). */
  datatype Numbering = FromHistory | FromOne

  /** What a client asked one transaction to do. */
  datatype Prog = Upserts(items: seq<Item>) | Delete(key: Key)

  /** `HasMax`: the maximum was read when `readAt` transactions had committed.
      `Wrote`: the live row is written with `version`, its history row is not. */
  datatype Pc =
    | Ready
    | HasMax(base: nat, readAt: nat)
    | Wrote(version: nat, base: nat, readAt: nat)

  /** `own` holds the transaction's view of the keys it has written, and so its locks. */
  datatype Tx = Tx(prog: Prog, next: nat, pc: Pc, own: Tables)

  datatype Committed = Committed(tx: TxId, prog: Prog)

  /** `log` records the committed programs in commit order. */
  datatype State = State(numbering: Numbering, db: Tables, txs: map<TxId, Tx>, log: seq<Committed>)

  function Init(numbering: Numbering): State {
    State(numbering, map[], map[], [])
  }

  datatype Step =
    | Begin(t: TxId, prog: Prog)
    | ReadMax(t: TxId)
    | WriteLive(t: TxId)
    | WriteHistory(t: TxId)
    | DeleteLive(t: TxId)
    | CommitTx(t: TxId)
    | Abort(t: TxId)

  function View(s: State, tx: Tx, k: Key): Cell {
    if k in tx.own then tx.own[k] else At(s.db, k)
  }

  predicate LockedByOther(s: State, t: TxId, k: Key) {
    exists u | u in s.txs :: u != t && k in s.txs[u].own
  }

  predicate Upserting(s: State, t: TxId) {
    t in s.txs && s.txs[t].prog.Upserts? && s.txs[t].next < |s.txs[t].prog.items|
  }

  function Current(s: State, t: TxId): Item
    requires Upserting(s, t)
  {
    s.txs[t].prog.items[s.txs[t].next]
  }

  function End(s: State, t: TxId): State {
    s.(txs := s.txs - {t})
  }

  function DoReadMax(s: State, t: TxId): State
    requires Upserting(s, t)
  {
    var tx := s.txs[t];
    var base := if s.numbering.FromOne? then 0 else MaxVersion(View(s, tx, Current(s, t).key).hist);
    s.(txs := s.txs[t := tx.(pc := HasMax(base, |s.log|))])
  }

  /** `INSERT ... ON CONFLICT DO UPDATE`: bump the live row, or insert a fresh one. */
  function DoWriteLive(s: State, t: TxId): State
    requires Upserting(s, t) && s.txs[t].pc.HasMax?
  {
    var tx, it := s.txs[t], Current(s, t);
    var c := View(s, tx, it.key);
    var v := if c.live.Some? then c.live.value.version + 1 else tx.pc.base + 1;
    var c' := c.(live := Some(Row(it.blob, v)));
    s.(txs := s.txs[t := tx.(pc := Wrote(v, tx.pc.base, tx.pc.readAt), own := tx.own[it.key := c'])])
  }

  /** The history insert; a duplicate version violates the UNIQUE constraint and ends the
      transaction. */
  function DoWriteHistory(s: State, t: TxId): State
    requires Upserting(s, t) && s.txs[t].pc.Wrote?
  {
    var tx, it := s.txs[t], Current(s, t);
    var c := View(s, tx, it.key);
    if HasVersion(c.hist, tx.pc.version) then End(s, t)
    else
      var c' := c.(hist := c.hist + [HistRow(tx.pc.version, it.blob)]);
      s.(txs := s.txs[t := tx.(pc := Ready, next := tx.next + 1, own := tx.own[it.key := c'])])
  }

  /** The soft delete.  Finding no live row ends the statement without effect. */
  function DoDeleteLive(s: State, t: TxId): State
    requires t in s.txs && s.txs[t].prog.Delete?
  {
    var tx := s.txs[t];
    var c := At(s.db, tx.prog.key);
    if c.live.None? then End(s, t)
    else s.(txs := s.txs[t := tx.(next := 1, own := map[tx.prog.key := c.(live := None)])])
  }

  predicate Finished(tx: Tx) {
    match tx.prog
    case Upserts(items) => tx.pc.Ready? && tx.next == |items|
    case Delete(_) => tx.next == 1
  }

  function DoCommit(s: State, t: TxId): State
    requires t in s.txs
  {
    var tx := s.txs[t];
    End(s, t).(db := s.db + tx.own, log := s.log + [Committed(t, tx.prog)])
  }

  /** A statement that must wait, or that is out of turn, leaves the state as it is. */
  predicate Enabled(s: State, step: Step) {
    var t := step.t;
    match step
    case Begin(_, _) => t !in s.txs
    case ReadMax(_) => Upserting(s, t) && s.txs[t].pc.Ready?
    case WriteLive(_) => Upserting(s, t) && s.txs[t].pc.HasMax? && !LockedByOther(s, t, Current(s, t).key)
    case WriteHistory(_) => Upserting(s, t) && s.txs[t].pc.Wrote?
    case DeleteLive(_) =>
      t in s.txs && s.txs[t].prog.Delete? && s.txs[t].next == 0
      && (At(s.db, s.txs[t].prog.key).live.Some? ==> !LockedByOther(s, t, s.txs[t].prog.key))
    case CommitTx(_) => t in s.txs && Finished(s.txs[t])
    case Abort(_) => t in s.txs
  }

  function Next(s: State, step: Step): State {
    if !Enabled(s, step) then s
    else
      match step
      case Begin(t, prog) => s.(txs := s.txs[t := Tx(prog, 0, Ready, map[])])
      case ReadMax(t) => DoReadMax(s, t)
      case WriteLive(t) => DoWriteLive(s, t)
      case WriteHistory(t) => DoWriteHistory(s, t)
      case DeleteLive(t) => DoDeleteLive(s, t)
      case CommitTx(t) => DoCommit(s, t)
      case Abort(t) => End(s, t)
  }

  function Run(s: State, steps: seq<Step>): State {
    if steps == [] then s else Next(Run(s, steps[..|steps| - 1]), steps[|steps| - 1])
  }

  lemma {:induction false} RunConcat(s: State, a: seq<Step>, b: seq<Step>)
    ensures Run(s, a + b) == Run(Run(s, a), b)
  {
    if b == [] {
      assert a + b == a;
    } else {
      RunConcat(s, a, b[..|b| - 1]);
      assert (a + b)[..|a + b| - 1] == a + b[..|b| - 1];
    }
  }
}
