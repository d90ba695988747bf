/**
 The local secrets service (internal/secrets/service.go).  A key's stored history is capped at 50
 entries; it refines an unbounded log of everything ever set.
 */
module LocalSecrets {
  import opened Wrappers
  import opened Store

  const MAX_HISTORY: nat := 50

  // ---- What each operation does to a file -------------------------------------------------

  function HistoryAt(f: SecretFile, k: string): seq<HistoryEntry> {
    if k in f.history then f.history[k] else []
  }

  /** The live version, 0 for a key that is not live. */
  function VersionAt(f: SecretFile, k: string): nat {
    if k in f.secrets then f.secrets[k].version else 0
  }

  function Cap(h: seq<HistoryEntry>): seq<HistoryEntry> {
    if |h| > MAX_HISTORY then h[|h| - MAX_HISTORY..] else h
  }

  function Entry(f: SecretFile, k: string, v: string): SecretEntry {
    SecretEntry(v, VersionAt(f, k) + 1)
  }

  function Extended(f: SecretFile, k: string, v: string): seq<HistoryEntry> {
    Cap(HistoryAt(f, k) + [HistoryEntry(VersionAt(f, k) + 1, v)])
  }

  /** Every pair set at once: each key gets its next version, all other keys are as they were. */
  function AllSet(f: SecretFile, pairs: map<string, string>): SecretFile {
    SecretFile(
      f.version + 1,
      map k | k in f.secrets.Keys + pairs.Keys :: if k in pairs then Entry(f, k, pairs[k]) else f.secrets[k],
      map k | k in f.history.Keys + pairs.Keys :: if k in pairs then Extended(f, k, pairs[k]) else f.history[k])
  }

  function FirstMatch(h: seq<HistoryEntry>, target: int): Option<string> {
    if h == [] then None
    else if h[0].version == target then Some(h[0].value)
    else FirstMatch(h[1..], target)
  }

  function RolledBack(f: SecretFile, k: string, target: int): Option<SecretFile> {
    match FirstMatch(HistoryAt(f, k), target)
    case None => None
    case Some(v) => Some(AllSet(f, map[k := v]))
  }

  function Deleted(f: SecretFile, k: string): Option<SecretFile> {
    if k in f.secrets then Some(f.(secrets := f.secrets - {k}, version := f.version + 1)) else None
  }

  // ---- The service ------------------------------------------------------------------------

  /** What the entries of `k` are when all of `pairs` but `todo` are set. */
  ghost predicate KeySet(
    f: SecretFile, pairs: map<string, string>, todo: set<string>,
    secrets: map<string, SecretEntry>, history: map<string, seq<HistoryEntry>>, k: string)
  {
    var done := k in pairs && k !in todo;
    && (k in secrets <==> done || k in f.secrets)
    && (k in history <==> done || k in f.history)
    && (k in secrets ==> secrets[k] == if done then Entry(f, k, pairs[k]) else f.secrets[k])
    && (k in history ==> history[k] == if done then Extended(f, k, pairs[k]) else f.history[k])
  }

  ghost predicate PartlySet(
    f: SecretFile, pairs: map<string, string>, todo: set<string>,
    secrets: map<string, SecretEntry>, history: map<string, seq<HistoryEntry>>)
  {
    forall k :: KeySet(f, pairs, todo, secrets, history, k)
  }

  lemma {:induction false} PartlySetAll(
    f: SecretFile, pairs: map<string, string>,
    secrets: map<string, SecretEntry>, history: map<string, seq<HistoryEntry>>)
    requires PartlySet(f, pairs, {}, secrets, history)
    ensures AllSet(f, pairs) == SecretFile(f.version + 1, secrets, history)
  {
    var goal := AllSet(f, pairs);
    forall k
      ensures (k in goal.secrets <==> k in secrets) && (k in secrets ==> goal.secrets[k] == secrets[k])
      ensures (k in goal.history <==> k in history) && (k in history ==> goal.history[k] == history[k])
    {
      assert KeySet(f, pairs, {}, secrets, history, k);
    }
    assert goal.secrets == secrets && goal.history == history;
  }

  /** One key more: its version and history are still the file's when its turn comes. */
  lemma {:induction false} PartlySetNext(
    f: SecretFile, pairs: map<string, string>, todo: set<string>, key: string,
    secrets: map<string, SecretEntry>, history: map<string, seq<HistoryEntry>>)
    requires PartlySet(f, pairs, todo, secrets, history) && key in todo && key in pairs
    ensures PartlySet(f, pairs, todo - {key},
                      secrets[key := Entry(f, key, pairs[key])], history[key := Extended(f, key, pairs[key])])
  {
    var secrets', history' := secrets[key := Entry(f, key, pairs[key])], history[key := Extended(f, key, pairs[key])];
    forall k ensures KeySet(f, pairs, todo - {key}, secrets', history', k) {
      assert KeySet(f, pairs, todo, secrets, history, k);
    }
  }

  /** The body of the loop in setAtPath: the key's next version, and its capped history. */
  method SetOne(sf: SecretFile, secrets: map<string, SecretEntry>, history: map<string, seq<HistoryEntry>>,
                key: string, value: string)
    returns (entry: SecretEntry, h: seq<HistoryEntry>)
    requires key in secrets <==> key in sf.secrets
    requires key in secrets ==> secrets[key] == sf.secrets[key]
    requires key in history <==> key in sf.history
    requires key in history ==> history[key] == sf.history[key]
    ensures entry == Entry(sf, key, value) && h == Extended(sf, key, value)
  {
    var newVersion := 1;
    if key in secrets {
      newVersion := secrets[key].version + 1;
    }
    entry := SecretEntry(value, newVersion);
    h := (if key in history then history[key] else []) + [HistoryEntry(newVersion, value)];
    if |h| > MAX_HISTORY {
      h := h[|h| - MAX_HISTORY..];
    }
  }

  /** The loop of setAtPath over the pairs, in arbitrary order. */
  method SetLoop(sf: SecretFile, pairs: map<string, string>)
    returns (secrets: map<string, SecretEntry>, history: map<string, seq<HistoryEntry>>)
    ensures PartlySet(sf, pairs, {}, secrets, history)
  {
    secrets, history := sf.secrets, sf.history;
    var todo := pairs.Keys;
    while todo != {}
      invariant todo <= pairs.Keys
      invariant PartlySet(sf, pairs, todo, secrets, history)
      decreases todo
    {
      var key :| key in todo;
      assert KeySet(sf, pairs, todo, secrets, history, key);
      var entry, h := SetOne(sf, secrets, history, key, pairs[key]);
      PartlySetNext(sf, pairs, todo, key, secrets, history);
      secrets, history := secrets[key := entry], history[key := h];
      todo := todo - {key};
    }
  }

  lemma OneSet(f: SecretFile, k: string, v: string)
    ensures AllSet(f, map[k := v]) ==
            SecretFile(f.version + 1, f.secrets[k := Entry(f, k, v)], f.history[k := Extended(f, k, v)])
  {
  }

  /** The search of Rollback: oldest entry first. */
  method FindVersion(history: seq<HistoryEntry>, target: int) returns (value: Option<string>)
    ensures value == FirstMatch(history, target)
    ensures value.None? <==> forall h | h in history :: h.version != target
  {
    for n := 0 to |history|
      invariant FirstMatch(history, target) == FirstMatch(history[n..], target)
      invariant forall i | 0 <= i < n :: history[i].version != target
    {
      if history[n].version == target {
        return Some(history[n].value);
      }
    }
    return None;
  }

  class Service {
    const disk: Disk
    const codec: Codec

    constructor (disk: Disk, codec: Codec)
      ensures this.disk == disk && this.codec == codec
    {
      this.disk := disk;
      this.codec := codec;
    }

    ghost predicate Valid()
      reads disk
    {
      disk.Valid() && RoundTrips(codec)
    }

    /** The content of `path`. */
    function Content(path: Path): Result<SecretFile, StoreError>
      reads disk
    {
      Load(codec, disk.files, path)
    }

    /** Saves `f` at `path`; other paths keep their content, and on failure so does `path`. */
    method SaveAt(path: Path, f: SecretFile, nonce: Bytes, faults: Faults) returns (r: Result<(), StoreError>)
      requires Valid() && IsStored(path) && |nonce| == NONCE_SIZE
      modifies disk
      ensures Valid()
      ensures Content(path) == if r.Ok? then Ok(f) else old(Content(path))
      ensures r.Err? ==> r.error == WriteFailed
      ensures forall p | IsStored(p) && p != path :: Content(p) == old(Content(p))
      ensures faults == Faults(None, false, false) ==> r.Ok?
    {
      ghost var was := disk.files;
      r := Save(disk, codec, path, f, nonce, faults);
      DecodeEncode(codec, f, nonce);
      forall p | IsStored(p) && p != path ensures Load(codec, disk.files, p) == Load(codec, was, p) {
        CrashSafe(codec, was, disk.files, path, f, nonce, p);
      }
    }

    /** Set and SetGlobal: the pairs are visited in arbitrary order, and the outcome does not depend
        on it. */
    method SetAtPath(path: Path, pairs: map<string, string>, nonce: Bytes, faults: Faults)
      returns (r: Result<(), StoreError>)
      requires Valid() && IsStored(path) && |nonce| == NONCE_SIZE
      modifies disk
      ensures Valid()
      ensures r.Ok? ==> old(Content(path)).Ok? && Content(path) == Ok(AllSet(old(Content(path)).value, pairs))
      ensures old(Content(path)).Err? ==> r == Err(old(Content(path)).error)
      ensures Unreadable(codec, old(disk.files), path) ==> r.Err? && disk.files == old(disk.files)
      ensures r.Err? ==> Content(path) == old(Content(path))
      ensures forall p | IsStored(p) && p != path :: Content(p) == old(Content(p))
      ensures old(Content(path)).Ok? && faults == Faults(None, false, false) ==> r.Ok?
    {
      var loaded := Load(codec, disk.files, path);
      if loaded.Err? {
        return Err(loaded.error);
      }
      var secrets, history := SetLoop(loaded.value, pairs);
      PartlySetAll(loaded.value, pairs, secrets, history);
      r := SaveAt(path, SecretFile(loaded.value.version + 1, secrets, history), nonce, faults);
    }

    /** Rollback: sets the key to the value of the oldest retained entry with the target version. */
    method Rollback(path: Path, key: string, target: int, nonce: Bytes, faults: Faults)
      returns (r: Result<(), StoreError>)
      requires Valid() && IsStored(path) && |nonce| == NONCE_SIZE
      modifies disk
      ensures Valid()
      ensures r.Ok? ==>
                && old(Content(path)).Ok?
                && RolledBack(old(Content(path)).value, key, target).Some?
                && Content(path) == Ok(RolledBack(old(Content(path)).value, key, target).value)
      ensures old(Content(path)).Err? ==> r == Err(old(Content(path)).error)
      ensures r == Err(BadKey) <==> old(Content(path)).Ok? && key !in old(Content(path)).value.history
      ensures r == Err(BadVersion) <==>
                && old(Content(path)).Ok? && key in old(Content(path)).value.history
                && forall h | h in old(Content(path)).value.history[key] :: h.version != target
      ensures Unreadable(codec, old(disk.files), path) ==> r.Err? && disk.files == old(disk.files)
      ensures r.Err? ==> Content(path) == old(Content(path))
      ensures old(Content(path)).Ok? && faults == Faults(None, false, false) ==>
                (r.Ok? <==> RolledBack(old(Content(path)).value, key, target).Some?)
    {
      var loaded := Load(codec, disk.files, path);
      if loaded.Err? {
        return Err(loaded.error);
      }
      var sf := loaded.value;
      if key !in sf.history {
        return Err(BadKey);
      }
      var found := FindVersion(sf.history[key], target);
      if found.None? {
        return Err(BadVersion);
      }
      var newVersion := (if key in sf.secrets then sf.secrets[key].version else 0) + 1;
      var secrets := sf.secrets[key := SecretEntry(found.value, newVersion)];
      var h := sf.history[key] + [HistoryEntry(newVersion, found.value)];
      if |h| > MAX_HISTORY {
        h := h[|h| - MAX_HISTORY..];
      }
      OneSet(sf, key, found.value);
      r := SaveAt(path, SecretFile(sf.version + 1, secrets, sf.history[key := h]), nonce, faults);
    }

    method Delete(path: Path, key: string, nonce: Bytes, faults: Faults) returns (r: Result<(), StoreError>)
      requires Valid() && IsStored(path) && |nonce| == NONCE_SIZE
      modifies disk
      ensures Valid()
      ensures r.Ok? ==>
                && old(Content(path)).Ok?
                && Deleted(old(Content(path)).value, key).Some?
                && Content(path) == Ok(Deleted(old(Content(path)).value, key).value)
      ensures old(Content(path)).Err? ==> r == Err(old(Content(path)).error)
      ensures r == Err(BadKey) <==> old(Content(path)).Ok? && key !in old(Content(path)).value.secrets
      ensures Unreadable(codec, old(disk.files), path) ==> r.Err? && disk.files == old(disk.files)
      ensures r.Err? ==> Content(path) == old(Content(path))
      ensures old(Content(path)).Ok? && faults == Faults(None, false, false) ==>
                (r.Ok? <==> Deleted(old(Content(path)).value, key).Some?)
    {
      var loaded := Load(codec, disk.files, path);
      if loaded.Err? {
        return Err(loaded.error);
      }
      var sf := loaded.value;
      if key !in sf.secrets {
        return Err(BadKey);
      }
      r := SaveAt(path, sf.(secrets := sf.secrets - {key}, version := sf.version + 1), nonce, faults);
    }
  }

  // ---- Runs -------------------------------------------------------------------------------

  datatype Op = Set(pairs: map<string, string>) | RollbackTo(key: string, target: int) | Remove(key: string)

  /** An operation that fails leaves the file as it is. */
  function Step(f: SecretFile, op: Op): SecretFile {
    match op
    case Set(pairs) => AllSet(f, pairs)
    case RollbackTo(k, target) => (match RolledBack(f, k, target) case Some(g) => g case None => f)
    case Remove(k) => (match Deleted(f, k) case Some(g) => g case None => f)
  }

  function FileAfter(ops: seq<Op>): SecretFile {
    if ops == [] then NewSecretFile() else Step(FileAfter(ops[..|ops| - 1]), ops[|ops| - 1])
  }

  /** The unbounded log of one key: every value ever written, and where the current run of versions
      begins.  The key is live if the run is not empty. */
  datatype UnboundedLog = UnboundedLog(values: seq<string>, starts: seq<nat>, runStart: nat)

  function Write(l: UnboundedLog, v: string): UnboundedLog {
    l.(values := l.values + [v], starts := l.starts + [l.runStart])
  }

  predicate Live(l: UnboundedLog) {
    l.runStart < |l.values|
  }

  /** The version of the i-th write is its place in the run it belongs to. */
  function EntryOf(l: UnboundedLog, i: nat): HistoryEntry
    requires i < |l.values| == |l.starts| && l.starts[i] <= i
  {
    HistoryEntry(i - l.starts[i] + 1, l.values[i])
  }

  predicate WellFormed(l: UnboundedLog) {
    |l.values| == |l.starts| && l.runStart <= |l.values| && (forall i | 0 <= i < |l.starts| :: l.starts[i] <= i)
    && (Live(l) ==> l.starts[|l.starts| - 1] == l.runStart)
  }

  /** The index of the oldest retained entry. */
  function Oldest(l: UnboundedLog): nat {
    if |l.values| > MAX_HISTORY then |l.values| - MAX_HISTORY else 0
  }

  /** The oldest retained write with the given version, if any. */
  function Target(l: UnboundedLog, from: nat, target: int): (r: Option<nat>)
    requires WellFormed(l) && from <= |l.values|
    ensures r.Some? ==> from <= r.value < |l.values| && EntryOf(l, r.value).version == target
    ensures forall i | from <= i < |l.values| && EntryOf(l, i).version == target :: r.Some? && r.value <= i
    decreases |l.values| - from
  {
    if from == |l.values| then None
    else if from - l.starts[from] + 1 == target then Some(from)
    else Target(l, from + 1, target)
  }

  function LogStep(l: UnboundedLog, op: Op, k: string): UnboundedLog
    requires WellFormed(l)
  {
    match op
    case Set(pairs) => if k in pairs then Write(l, pairs[k]) else l
    case RollbackTo(k', target) =>
      if k' != k then l
      else (match Target(l, Oldest(l), target) case Some(i) => Write(l, l.values[i]) case None => l)
    case Remove(k') => if k' == k then l.(runStart := |l.values|) else l
  }

  function LogAfter(ops: seq<Op>, k: string): (l: UnboundedLog)
    ensures WellFormed(l)
  {
    if ops == [] then UnboundedLog([], [], 0) else LogStep(LogAfter(ops[..|ops| - 1], k), ops[|ops| - 1], k)
  }

  /** `h` is the last 50 entries of the log. */
  ghost predicate Retains(h: seq<HistoryEntry>, l: UnboundedLog) {
    && WellFormed(l)
    && |h| == |l.values| - Oldest(l)
    && forall i | Oldest(l) <= i < |l.values| :: h[i - Oldest(l)] == EntryOf(l, i)
  }

  /** `f` holds for `k` the last 50 entries of its log, and its live entry is the log's last. */
  ghost predicate Represents(f: SecretFile, k: string, l: UnboundedLog) {
    && Retains(HistoryAt(f, k), l)
    && (k in f.secrets <==> Live(l))
    && (Live(l) ==>
          var last := EntryOf(l, |l.values| - 1);
          f.secrets[k] == SecretEntry(last.value, last.version))
  }

  lemma {:induction false} AllSetAt(f: SecretFile, pairs: map<string, string>, k: string)
    ensures var g := AllSet(f, pairs);
            && g.version == f.version + 1
            && (k in pairs ==>
                  k in g.secrets && g.secrets[k] == Entry(f, k, pairs[k]) && HistoryAt(g, k) == Extended(f, k, pairs[k]))
            && (k !in pairs ==>
                  && (k in g.secrets <==> k in f.secrets) && (k in f.secrets ==> g.secrets[k] == f.secrets[k])
                  && HistoryAt(g, k) == HistoryAt(f, k))
  {
  }

  /** Deleting takes exactly a live key's entry away, keeps every history and raises the file version. */
  lemma DeletedAt(f: SecretFile, k: string, x: string)
    ensures Deleted(f, k).None? <==> k !in f.secrets
    ensures Deleted(f, k).Some? ==>
              var g := Deleted(f, k).value;
              && g.version == f.version + 1 && g.history == f.history
              && (x in g.secrets <==> x in f.secrets && x != k)
              && (x in g.secrets ==> g.secrets[x] == f.secrets[x])
  {
  }

  /** Appending an entry and capping keeps the tail of the log. */
  lemma {:induction false} TailAppend(h: seq<HistoryEntry>, l: UnboundedLog, v: string)
    requires Retains(h, l)
    ensures Retains(Cap(h + [HistoryEntry(|l.values| - l.runStart + 1, v)]), Write(l, v))
  {
    var l', h' := Write(l, v), h + [HistoryEntry(|l.values| - l.runStart + 1, v)];
    forall i | Oldest(l') <= i < |l'.values| ensures Cap(h')[i - Oldest(l')] == EntryOf(l', i) {
      assert Cap(h')[i - Oldest(l')] == h'[i - Oldest(l)];
      if i < |l.values| { assert EntryOf(l', i) == EntryOf(l, i); }
    }
  }

  lemma {:induction false} LiveVersion(f: SecretFile, k: string, l: UnboundedLog)
    requires Represents(f, k, l)
    ensures VersionAt(f, k) == |l.values| - l.runStart
  {
  }

  lemma {:induction false} WriteRepresents(f: SecretFile, k: string, l: UnboundedLog, pairs: map<string, string>)
    requires Represents(f, k, l) && k in pairs
    ensures Represents(AllSet(f, pairs), k, Write(l, pairs[k]))
  {
    AllSetAt(f, pairs, k);
    LiveVersion(f, k, l);
    TailAppend(HistoryAt(f, k), l, pairs[k]);
  }

  lemma {:induction false} FirstMatchIsTarget(f: SecretFile, k: string, l: UnboundedLog, from: nat, target: int)
    requires Represents(f, k, l) && Oldest(l) <= from <= |l.values|
    ensures FirstMatch(HistoryAt(f, k)[from - Oldest(l)..], target) ==
            match Target(l, from, target) case Some(i) => Some(l.values[i]) case None => None
    decreases |l.values| - from
  {
    if from < |l.values| {
      FirstMatchIsTarget(f, k, l, from + 1, target);
      assert HistoryAt(f, k)[from - Oldest(l)..][0] == EntryOf(l, from);
    }
  }

  lemma {:induction false} StepRepresents(f: SecretFile, op: Op, k: string, l: UnboundedLog)
    requires Represents(f, k, l)
    ensures Represents(Step(f, op), k, LogStep(l, op, k))
  {
    match op
    case Set(pairs) =>
      if k in pairs { WriteRepresents(f, k, l, pairs); } else { RepresentsElsewhere(f, pairs, k, l); }
    case RollbackTo(k', target) => RollbackRepresents(f, k', target, k, l);
    case Remove(_) =>
      assert forall i | 0 <= i < |l.values| :: EntryOf(LogStep(l, op, k), i) == EntryOf(l, i);
  }

  lemma {:induction false} RollbackRepresents(f: SecretFile, k': string, target: int, k: string, l: UnboundedLog)
    requires Represents(f, k, l)
    ensures Represents(Step(f, RollbackTo(k', target)), k, LogStep(l, RollbackTo(k', target), k))
  {
    var found := FirstMatch(HistoryAt(f, k'), target);
    if k' == k {
      FirstMatchIsTarget(f, k, l, Oldest(l), target);
      assert HistoryAt(f, k)[Oldest(l) - Oldest(l)..] == HistoryAt(f, k);
      if found.Some? { WriteRepresents(f, k, l, map[k := found.value]); }
    } else if found.Some? {
      RepresentsElsewhere(f, map[k' := found.value], k, l);
    }
  }

  lemma {:induction false} RepresentsElsewhere(f: SecretFile, pairs: map<string, string>, k: string, l: UnboundedLog)
    requires Represents(f, k, l) && k !in pairs
    ensures Represents(AllSet(f, pairs), k, l)
  {
  }

  /** Over every run: what is stored for a key is the tail of its unbounded log. */
  lemma {:induction false} LocalRefinesLog(ops: seq<Op>, k: string)
    ensures Represents(FileAfter(ops), k, LogAfter(ops, k))
  {
    if ops != [] {
      LocalRefinesLog(ops[..|ops| - 1], k);
      StepRepresents(FileAfter(ops[..|ops| - 1]), ops[|ops| - 1], k, LogAfter(ops[..|ops| - 1], k));
    }
  }

  /** Each write continues its predecessor's run or begins one of its own. */
  ghost predicate Runs(l: UnboundedLog) {
    WellFormed(l) &&
    forall i | 0 <= i < |l.values| ::
      EntryOf(l, i).version == 1 || (i > 0 && EntryOf(l, i).version == EntryOf(l, i - 1).version + 1)
  }

  lemma {:induction false} WriteRuns(l: UnboundedLog, v: string)
    requires Runs(l)
    ensures Runs(Write(l, v))
    ensures EntryOf(Write(l, v), |l.values|).version == 1 <==> !Live(l)
  {
    var l' := Write(l, v);
    assert forall i | 0 <= i < |l.values| :: EntryOf(l', i) == EntryOf(l, i);
  }

  lemma {:induction false} RemoveRuns(l: UnboundedLog)
    requires Runs(l)
    ensures Runs(l.(runStart := |l.values|))
  {
    assert forall i | 0 <= i < |l.values| :: EntryOf(l.(runStart := |l.values|), i) == EntryOf(l, i);
  }

  lemma {:induction false} StepRuns(l: UnboundedLog, op: Op, k: string)
    requires Runs(l)
    ensures Runs(LogStep(l, op, k))
  {
    match op
    case Set(pairs) => if k in pairs { WriteRuns(l, pairs[k]); }
    case RollbackTo(_, target) =>
      var i := Target(l, Oldest(l), target);
      if i.Some? { WriteRuns(l, l.values[i.value]); }
    case Remove(_) => RemoveRuns(l);
  }

  /** Over every run versions count up from 1 in runs: each write has version 1 or one more than the
      write before it. */
  lemma {:induction false} VersionsRun(ops: seq<Op>, k: string)
    ensures Runs(LogAfter(ops, k))
  {
    if ops != [] {
      VersionsRun(ops[..|ops| - 1], k);
      StepRuns(LogAfter(ops[..|ops| - 1], k), ops[|ops| - 1], k);
    }
  }

  /** The operation at `j` deleted `k` while it was live, and nothing after it wrote `k`. */
  ghost predicate DeletedLast(ops: seq<Op>, k: string, j: nat) {
    && j < |ops| && ops[j] == Remove(k)
    && Live(LogAfter(ops[..j], k)) && LogAfter(ops[..j], k).values == LogAfter(ops, k).values
  }

  ghost predicate DeletedSinceWritten(ops: seq<Op>, k: string) {
    exists j :: DeletedLast(ops, k, j)
  }

  lemma {:induction false} DeletedLastExtends(init: seq<Op>, op: Op, k: string, j: nat)
    requires DeletedLast(init, k, j) && LogAfter(init + [op], k).values == LogAfter(init, k).values
    ensures DeletedLast(init + [op], k, j)
  {
    assert (init + [op])[..j] == init[..j];
  }

  lemma {:induction false} LogAfterSnoc(init: seq<Op>, op: Op, k: string)
    ensures LogAfter(init + [op], k) == LogStep(LogAfter(init, k), op, k)
  {
    assert (init + [op])[..|init|] == init;
  }

  /** One operation on a key's log: it writes, deletes, or leaves the log as it is. */
  lemma {:induction false} StepCases(l: UnboundedLog, op: Op, k: string)
    requires WellFormed(l)
    ensures var l' := LogStep(l, op, k);
            || (|l'.values| > |l.values| && Live(l'))
            || (op == Remove(k) && l' == l.(runStart := |l.values|))
            || l' == l
  {
  }

  lemma {:induction false} DeadWasDeleted(ops: seq<Op>, k: string)
    requires !Live(LogAfter(ops, k)) && LogAfter(ops, k).values != []
    ensures exists j :: DeletedLast(ops, k, j)
  {
    var init, op := ops[..|ops| - 1], ops[|ops| - 1];
    assert ops == init + [op];
    var before := LogAfter(init, k);
    StepCases(before, op, k);
    if Live(before) {
      assert DeletedLast(ops, k, |init|);
    } else {
      DeadWasDeleted(init, k);
      var j :| DeletedLast(init, k, j);
      DeletedLastExtends(init, op, k, j);
    }
  }

  lemma {:induction false} DeletedIsDead(ops: seq<Op>, k: string, j: nat)
    requires DeletedLast(ops, k, j)
    ensures !Live(LogAfter(ops, k)) && LogAfter(ops, k).values != []
  {
    var init, op := ops[..|ops| - 1], ops[|ops| - 1];
    assert ops == init + [op];
    LogAfterSnoc(init, op, k);
    if j < |init| {
      StepCases(LogAfter(init, k), op, k);
      DeletedLastEarlier(init, op, k, j);
      DeletedIsDead(init, k, j);
      assert ops[..j] == init[..j];
    } else {
      assert ops[..j] == init;
    }
  }

  /** A key that was ever written is not live exactly if it was deleted after its last write. */
  lemma DeadIffDeletedLast(ops: seq<Op>, k: string)
    ensures var l := LogAfter(ops, k);
            !Live(l) && l.values != [] <==> DeletedSinceWritten(ops, k)
  {
    var l := LogAfter(ops, k);
    if !Live(l) && l.values != [] {
      DeadWasDeleted(ops, k);
    } else if j :| DeletedLast(ops, k, j) {
      DeletedIsDead(ops, k, j);
    }
  }

  /** A delete that is the last thing that happened to `k` was so already one operation earlier. */
  lemma {:induction false} DeletedLastEarlier(init: seq<Op>, op: Op, k: string, j: nat)
    requires DeletedLast(init + [op], k, j) && j < |init|
    ensures DeletedLast(init, k, j)
  {
    assert (init + [op])[..j] == init[..j];
    LogAfterSnoc(init, op, k);
    LogGrows(init, j, k);
  }

  lemma StepGrows(l: UnboundedLog, op: Op, k: string)
    requires WellFormed(l)
    ensures l.values <= LogStep(l, op, k).values
  {
  }

  lemma {:induction false} LogGrows(ops: seq<Op>, n: nat, k: string)
    requires n <= |ops|
    ensures LogAfter(ops[..n], k).values <= LogAfter(ops, k).values
  {
    if n == |ops| {
      assert ops[..n] == ops;
    } else {
      var init := ops[..|ops| - 1];
      LogGrows(init, n, k);
      StepGrows(LogAfter(init, k), ops[|ops| - 1], k);
      assert init[..n] == ops[..n];
    }
  }

  /** Over every run: a write starts a new run of versions exactly if it is the first or the key was
      deleted after the write before it; otherwise it continues the run. */
  lemma {:induction false} VersionsRunFromDelete(ops: seq<Op>, k: string, v: string)
    ensures var l := LogAfter(ops, k);
            && Runs(Write(l, v))
            && (EntryOf(Write(l, v), |l.values|).version == 1 <==> !Live(l))
            && (!Live(l) <==> l.values == [] || DeletedSinceWritten(ops, k))
  {
    VersionsRun(ops, k);
    WriteRuns(LogAfter(ops, k), v);
    DeadIffDeletedLast(ops, k);
  }

  ghost predicate NeverRemoved(ops: seq<Op>, k: string) {
    Remove(k) !in ops
  }

  lemma {:induction false} OneRunWithoutDelete(ops: seq<Op>, k: string)
    requires NeverRemoved(ops, k)
    ensures var l := LogAfter(ops, k);
            l.runStart == 0 && forall i | 0 <= i < |l.values| :: l.starts[i] == 0
  {
    if ops != [] {
      OneRunWithoutDelete(ops[..|ops| - 1], k);
    }
  }

  lemma {:induction false} TargetInOneRun(l: UnboundedLog, v: int)
    requires WellFormed(l) && forall i | 0 <= i < |l.values| :: l.starts[i] == 0
    ensures var n := |l.values|;
            Target(l, Oldest(l), v) == if 1 <= v <= n && n - 49 <= v then Some(v - 1) else None
  {
    var r := Target(l, Oldest(l), v);
    if 1 <= v <= |l.values| { assert EntryOf(l, v - 1).version == v; }
    if r.Some? { assert EntryOf(l, r.value).version == r.value + 1; }
  }

  /** Without deletes, Rollback(v) succeeds exactly for the last 50 versions, and restores the value
      set at version v. */
  lemma {:induction false} RollbackIffRetained(ops: seq<Op>, k: string, v: int)
    requires NeverRemoved(ops, k)
    ensures var n, f := |LogAfter(ops, k).values|, FileAfter(ops);
            && (RolledBack(f, k, v).Some? <==> 1 <= v <= n && n - 49 <= v)
            && (RolledBack(f, k, v).Some? ==>
                  RolledBack(f, k, v).value == AllSet(f, map[k := LogAfter(ops, k).values[v - 1]]))
  {
    OneRunWithoutDelete(ops, k);
    RollbackRestoresOldest(ops, k, v);
    TargetInOneRun(LogAfter(ops, k), v);
  }

  lemma {:induction false} RestoresOldest(f: SecretFile, k: string, l: UnboundedLog, v: int)
    requires Represents(f, k, l)
    ensures RolledBack(f, k, v) ==
            match Target(l, Oldest(l), v) case None => None case Some(i) => Some(AllSet(f, map[k := l.values[i]]))
  {
    FirstMatchIsTarget(f, k, l, Oldest(l), v);
    assert HistoryAt(f, k)[0..] == HistoryAt(f, k);
  }

  /** In general, Rollback(v) restores the oldest retained write numbered v, and fails if none is. */
  lemma {:induction false} RollbackRestoresOldest(ops: seq<Op>, k: string, v: int)
    ensures var l, f := LogAfter(ops, k), FileAfter(ops);
            RolledBack(f, k, v) ==
            match Target(l, Oldest(l), v) case None => None case Some(i) => Some(AllSet(f, map[k := l.values[i]]))
  {
    LocalRefinesLog(ops, k);
    RestoresOldest(FileAfter(ops), k, LogAfter(ops, k), v);
  }

  // ---- Rollback across deletes --------------------------------------------------------------

  /** The writes since the last delete are one run. */
  predicate OneCurrentRun(l: UnboundedLog) {
    WellFormed(l) && forall i | l.runStart <= i < |l.values| :: l.starts[i] == l.runStart
  }

  lemma WriteCurrentRun(l: UnboundedLog, v: string)
    requires OneCurrentRun(l)
    ensures OneCurrentRun(Write(l, v))
  {
  }

  lemma StepCurrentRun(l: UnboundedLog, op: Op, k: string)
    requires OneCurrentRun(l)
    ensures OneCurrentRun(LogStep(l, op, k))
  {
    match op
    case Set(pairs) => if k in pairs { WriteCurrentRun(l, pairs[k]); }
    case RollbackTo(_, target) =>
      var i := Target(l, Oldest(l), target);
      if i.Some? { WriteCurrentRun(l, l.values[i.value]); }
    case Remove(_) =>
  }

  lemma {:induction false} CurrentRun(ops: seq<Op>, k: string)
    ensures OneCurrentRun(LogAfter(ops, k))
  {
    if ops != [] {
      CurrentRun(ops[..|ops| - 1], k);
      StepCurrentRun(LogAfter(ops[..|ops| - 1], k), ops[|ops| - 1], k);
    }
  }

  /** `j` is the oldest retained write numbered `v`. */
  predicate OldestNumbered(l: UnboundedLog, j: nat, v: int)
    requires WellFormed(l)
  {
    && Oldest(l) <= j < |l.values| && EntryOf(l, j).version == v
    && forall i | Oldest(l) <= i < j :: EntryOf(l, i).version != v
  }

  /** Where a search for version `v` of the current run ends: at the write itself, or at an earlier
      run's, or nowhere if the write is no longer retained. */
  lemma {:induction false} TargetOfCurrentRun(l: UnboundedLog, v: int)
    requires OneCurrentRun(l) && 1 <= v <= |l.values| - l.runStart
    ensures var i, r := l.runStart + v - 1, Target(l, Oldest(l), v);
            && (r.None? <==> i < Oldest(l))
            && (r.Some? ==> OldestNumbered(l, r.value, v) && (r.value == i || r.value < l.runStart))
            && forall j: nat | OldestNumbered(l, j, v) :: r == Some(j)
  {
    var i, r := l.runStart + v - 1, Target(l, Oldest(l), v);
    assert EntryOf(l, i).version == v;
    if r.Some? && r.value >= l.runStart { assert l.starts[r.value] == l.runStart; }
    forall j: nat | OldestNumbered(l, j, v) ensures r == Some(j) {
      assert EntryOf(l, j).version == v;
    }
  }

  /** The write at `i` is retained, and the oldest retained write numbered `v` has its value if it is
      from an earlier run. */
  predicate NotShadowed(l: UnboundedLog, i: nat, v: int)
    requires WellFormed(l) && i < |l.values|
  {
    Oldest(l) <= i && forall j: nat | OldestNumbered(l, j, v) && j < l.runStart :: l.values[j] == l.values[i]
  }

  lemma {:induction false} NotShadowedIff(l: UnboundedLog, v: int)
    requires OneCurrentRun(l) && 1 <= v <= |l.values| - l.runStart
    ensures var i, r := l.runStart + v - 1, Target(l, Oldest(l), v);
            NotShadowed(l, i, v) <==> r.Some? && l.values[r.value] == l.values[i]
  {
    TargetOfCurrentRun(l, v);
    var i, r := l.runStart + v - 1, Target(l, Oldest(l), v);
    if r.Some? && l.values[r.value] == l.values[i] {
      forall j: nat | OldestNumbered(l, j, v) && j < l.runStart ensures l.values[j] == l.values[i] {
        assert r == Some(j);
      }
    }
  }

  /** Rolling `k` back to `v` succeeds and sets it to `value`. */
  predicate RollsBackTo(f: SecretFile, k: string, v: int, value: string) {
    RolledBack(f, k, v) == Some(AllSet(f, map[k := value]))
  }

  /** Files that differ in what `k` was set to differ. */
  lemma SetsDiffer(f: SecretFile, k: string, a: string, b: string)
    requires AllSet(f, map[k := a]) == AllSet(f, map[k := b])
    ensures a == b
  {
    AllSetAt(f, map[k := a], k);
    AllSetAt(f, map[k := b], k);
  }

  lemma {:induction false} RestoresIff(f: SecretFile, k: string, l: UnboundedLog, v: int, want: string)
    requires Represents(f, k, l)
    ensures RollsBackTo(f, k, v, want) <==>
            Target(l, Oldest(l), v).Some? && l.values[Target(l, Oldest(l), v).value] == want
  {
    RestoresOldest(f, k, l, v);
    var r := Target(l, Oldest(l), v);
    if r.Some? && AllSet(f, map[k := l.values[r.value]]) == AllSet(f, map[k := want]) {
      SetsDiffer(f, k, l.values[r.value], want);
    }
  }

  lemma {:induction false} CurrentRunIff(f: SecretFile, k: string, l: UnboundedLog, v: int)
    requires Represents(f, k, l) && OneCurrentRun(l) && 1 <= v <= |l.values| - l.runStart
    ensures var i := l.runStart + v - 1;
            RollsBackTo(f, k, v, l.values[i]) <==> NotShadowed(l, i, v)
  {
    NotShadowedIff(l, v);
    RestoresIff(f, k, l, v, l.values[l.runStart + v - 1]);
  }

  /** With deletes: Rollback(v) restores what the current run of versions holds at v exactly if that
      write is still retained and the oldest retained write numbered v, if it is from an earlier run,
      has the same value. */
  lemma {:induction false} RestoresCurrentRunIff(ops: seq<Op>, k: string, v: int)
    requires var l := LogAfter(ops, k); 1 <= v <= |l.values| - l.runStart
    ensures var l, f := LogAfter(ops, k), FileAfter(ops);
            var i := l.runStart + v - 1;
            RollsBackTo(f, k, v, l.values[i]) <==> NotShadowed(l, i, v)
  {
    LocalRefinesLog(ops, k);
    CurrentRun(ops, k);
    var l, f := LogAfter(ops, k), FileAfter(ops);
    CurrentRunIff(f, k, l, v);
    assert RollsBackTo(f, k, v, l.values[l.runStart + v - 1]) <==> NotShadowed(l, l.runStart + v - 1, v);
  }

  /** After set, delete, set the first value and the second are both retained as version 1, and
      rolling back to 1 restores the first. */
  lemma RollbackRestoresDeleted(k: string, a: string, b: string)
    ensures var ops := [Set(map[k := a]), Remove(k), Set(map[k := b])];
            var f := FileAfter(ops);
            && HistoryAt(f, k) == [HistoryEntry(1, a), HistoryEntry(1, b)]
            && k in f.secrets && f.secrets[k] == SecretEntry(b, 1)
            && RolledBack(f, k, 1) == Some(AllSet(f, map[k := a]))
  {
    var ops := [Set(map[k := a]), Remove(k), Set(map[k := b])];
    assert ops[..2] == [ops[0], ops[1]] && ops[..2][..1] == [ops[0]] && ops[..2][..1][..0] == [];
    var f1 := Step(NewSecretFile(), ops[0]);
    assert FileAfter(ops[..2][..1]) == f1;
    var f2 := Step(f1, ops[1]);
    assert FileAfter(ops[..2]) == f2;
    AllSetAt(NewSecretFile(), map[k := a], k);
    AllSetAt(f2, map[k := b], k);
  }
}
