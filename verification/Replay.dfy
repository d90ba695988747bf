/**
 The simple specification the concurrent tables refine: per key, an append-only list of values
 and a flag.  A put appends and makes the key live, a delete clears the flag, and committed
 programs take effect whole, one after the other.
 */
module Replay {
  import opened Wrappers
  import opened VersionedTables

  datatype RawLog = KeyLog(values: seq<Blob>, live: bool)
  type KeyLog = c: RawLog | c.live ==> c.values != [] witness KeyLog([], false)

  function PutAll(c: KeyLog, items: seq<Item>, k: Key): KeyLog {
    if items == [] then c
    else
      var c', it := PutAll(c, items[..|items| - 1], k), items[|items| - 1];
      if it.key == k then KeyLog(c'.values + [it.blob], true) else c'
  }

  function Apply(c: KeyLog, p: Prog, k: Key): KeyLog {
    match p
    case Upserts(items) => PutAll(c, items, k)
    case Delete(k') => if k' == k then KeyLog(c.values, false) else c
  }

  function ReplayKey(log: seq<Committed>, k: Key): KeyLog {
    if log == [] then KeyLog([], false)
    else Apply(ReplayKey(log[..|log| - 1], k), log[|log| - 1].prog, k)
  }

  function Numbered(values: seq<Blob>): seq<HistRow> {
    seq(|values|, i requires 0 <= i < |values| => HistRow(i + 1, values[i]))
  }

  /** The rows that represent a specification state: versions 1..n, live row at version n. */
  function Stored(c: KeyLog): Cell {
    Cell(if c.live then Some(Row(c.values[|c.values| - 1], |c.values|)) else None, Numbered(c.values))
  }

  predicate HasKey(items: seq<Item>, k: Key) {
    exists i | 0 <= i < |items| :: items[i].key == k
  }

  predicate Puts(p: Prog, k: Key) {
    p.Upserts? && HasKey(p.items, k)
  }

  predicate Touches(p: Prog, k: Key) {
    Puts(p, k) || p == Delete(k)
  }

  /** Between `log` and `log'` a delete of `k` was committed. */
  predicate DeletedSince(log: seq<Committed>, log': seq<Committed>, k: Key) {
    exists i | |log| <= i < |log'| :: log'[i].prog == Delete(k)
  }

  lemma {:induction false} NumberedVersions(values: seq<Blob>)
    ensures MaxVersion(Numbered(values)) == |values|
    ensures forall v: nat :: HasVersion(Numbered(values), v) <==> 1 <= v <= |values|
  {
    var h := Numbered(values);
    if values != [] {
      var init := values[..|values| - 1];
      NumberedVersions(init);
      assert h[..|h| - 1] == Numbered(init);
    }
    forall v: nat | 1 <= v <= |values| ensures HasVersion(h, v) {
      assert h[v - 1].version == v;
    }
  }

  lemma {:induction false} PutAllFrame(c: KeyLog, items: seq<Item>, k: Key)
    ensures c.values <= PutAll(c, items, k).values
    ensures !HasKey(items, k) ==> PutAll(c, items, k) == c
    ensures HasKey(items, k) ==> PutAll(c, items, k).live && |c.values| < |PutAll(c, items, k).values|
  {
    if items != [] {
      var init := items[..|items| - 1];
      PutAllFrame(c, init, k);
      assert HasKey(items, k) <==> HasKey(init, k) || items[|items| - 1].key == k by {
        assert forall i | 0 <= i < |init| :: items[i] == init[i];
      }
    }
  }

  /** A log only ever appends to a key's values, and entries that do not touch a key do not
      change it. */
  lemma {:induction false} ReplayFrame(log: seq<Committed>, n: nat, k: Key)
    requires n <= |log|
    ensures ReplayKey(log[..n], k).values <= ReplayKey(log, k).values
    ensures (forall i | n <= i < |log| :: !Touches(log[i].prog, k)) ==> ReplayKey(log[..n], k) == ReplayKey(log, k)
  {
    if n == |log| {
      assert log[..n] == log;
    } else {
      var init := log[..|log| - 1];
      ReplayFrame(init, n, k);
      assert init[..n] == log[..n];
      assert forall i | n <= i < |init| :: init[i] == log[i];
      match log[|log| - 1].prog
      case Upserts(items) => PutAllFrame(ReplayKey(init, k), items, k);
      case Delete(_) =>
    }
  }

  ghost predicate PutAt(log: seq<Committed>, i: nat, k: Key) {
    i < |log| && Puts(log[i].prog, k)
  }

  /** The commit at `j` deleted `k` and no later commit put it. */
  ghost predicate DeletedForGoodAt(log: seq<Committed>, j: nat, k: Key) {
    j < |log| && log[j].prog == Delete(k) && forall l :: j < l ==> !PutAt(log, l, k)
  }

  /** Some commit after the first `from` put `k`, a later one deleted it, and none put it since. */
  ghost predicate WrittenThenDeleted(log: seq<Committed>, from: nat, k: Key) {
    exists i, j :: from <= i < j && PutAt(log, i, k) && DeletedForGoodAt(log, j, k)
  }

  lemma StaleIffWrittenThenDeleted(log: seq<Committed>, from: nat, k: Key)
    requires from <= |log|
    ensures WrittenThenDeleted(log, from, k) <==>
            !ReplayKey(log, k).live && |ReplayKey(log[..from], k).values| < |ReplayKey(log, k).values|
  {
    GrowsIffPut(log, from, k);
    if i :| from <= i && PutAt(log, i, k) {
      LiveUnlessDeletedSince(log, i, k);
    }
  }

  /** A log grows a key's values past its first `from` entries exactly if one of the others puts it. */
  lemma {:induction false} GrowsIffPut(log: seq<Committed>, from: nat, k: Key)
    requires from <= |log|
    ensures |ReplayKey(log[..from], k).values| < |ReplayKey(log, k).values| <==>
            exists i :: from <= i && PutAt(log, i, k)
  {
    if from == |log| {
      assert log[..from] == log;
    } else {
      var last, init := |log| - 1, log[..|log| - 1];
      GrowsIffPut(init, from, k);
      ReplayFrame(init, from, k);
      assert init[..from] == log[..from];
      assert forall i: nat | i < last :: PutAt(init, i, k) == PutAt(log, i, k);
      var p := log[last].prog;
      if p.Upserts? { PutAllFrame(ReplayKey(init, k), p.items, k); }
      if PutAt(log, last, k) {
        assert |ReplayKey(log[..from], k).values| <= |ReplayKey(init, k).values|;
      }
    }
  }

  lemma {:induction false} LiveUnlessDeletedSince(log: seq<Committed>, i: nat, k: Key)
    requires PutAt(log, i, k)
    ensures ReplayKey(log, k).live <==> !exists j :: i < j && DeletedForGoodAt(log, j, k)
  {
    var last, init := |log| - 1, log[..|log| - 1];
    var p := log[last].prog;
    if p.Upserts? { PutAllFrame(ReplayKey(init, k), p.items, k); }
    if PutAt(log, last, k) {
    } else if p == Delete(k) {
      assert DeletedForGoodAt(log, last, k);
    } else {
      assert forall l: nat | l < last :: PutAt(init, l, k) == PutAt(log, l, k);
      LiveUnlessDeletedSince(init, i, k);
      assert forall j: nat | j < last :: DeletedForGoodAt(init, j, k) == DeletedForGoodAt(log, j, k);
    }
  }
}
