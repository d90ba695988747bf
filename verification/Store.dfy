/**
 The local encrypted store (internal/store/store.go) and the environment manager over its `.enc`
 files (internal/envs/manager.go).  A disk records every state it passes through, so a crash of
 the process is any recorded state.
 */
module Store {
  import opened Wrappers
  import opened StringOrder

  type Path = string
  type Files = map<Path, Bytes>

  datatype SecretEntry = SecretEntry(value: string, version: nat)
  datatype HistoryEntry = HistoryEntry(version: nat, value: string)
  datatype SecretFile = SecretFile(
    version: nat,
    secrets: map<string, SecretEntry>,
    history: map<string, seq<HistoryEntry>>)

  function NewSecretFile(): SecretFile {
    SecretFile(0, map[], map[])
  }

  const NONCE_SIZE: nat := 12

  /** JSON and AES-GCM, left abstract. */
  datatype Codec = Codec(
    marshal: SecretFile -> Bytes,
    unmarshal: Bytes -> Option<SecretFile>,
    seal: (Bytes, Bytes) -> Bytes,
    open: (Bytes, Bytes) -> Option<Bytes>)

  ghost predicate RoundTrips(codec: Codec) {
    && (forall f :: codec.unmarshal(codec.marshal(f)) == Some(f))
    && (forall p, n | |n| == NONCE_SIZE :: codec.open(codec.seal(p, n), n) == Some(p))
  }

  datatype StoreError = TooShort | DecryptFailed | BadContent | WriteFailed | Exists | Missing | BadKey | BadVersion

  /** The nonce is stored in front of the ciphertext. */
  function Encode(codec: Codec, f: SecretFile, nonce: Bytes): Bytes {
    nonce + codec.seal(codec.marshal(f), nonce)
  }

  function Decode(codec: Codec, data: Bytes): Result<SecretFile, StoreError> {
    if |data| < NONCE_SIZE then Err(TooShort)
    else
      match codec.open(data[NONCE_SIZE..], data[..NONCE_SIZE])
      case None => Err(DecryptFailed)
      case Some(plain) =>
        match codec.unmarshal(plain)
        case None => Err(BadContent)
        case Some(f) => Ok(f)
  }

  function Load(codec: Codec, files: Files, path: Path): Result<SecretFile, StoreError> {
    if path in files then Decode(codec, files[path]) else Ok(NewSecretFile())
  }

  /** The bytes are a 12-byte nonce and a ciphertext that opens, under the nonce, to a file's text. */
  predicate Holds(codec: Codec, data: Bytes, f: SecretFile) {
    && |data| >= 12
    && codec.open(data[12..], data[..12]).Some?
    && codec.unmarshal(codec.open(data[12..], data[..12]).value) == Some(f)
  }

  predicate Readable(codec: Codec, data: Bytes) {
    && |data| >= 12
    && codec.open(data[12..], data[..12]).Some?
    && codec.unmarshal(codec.open(data[12..], data[..12]).value).Some?
  }

  /** The file at `path`, if there is one, cannot be read. */
  predicate Unreadable(codec: Codec, files: Files, path: Path) {
    path in files && !Readable(codec, files[path])
  }

  /** Loading an existing file succeeds exactly if its bytes hold a file's content, and gives that; a
      missing file loads as empty.  The error tells which step failed. */
  lemma LoadIff(codec: Codec, files: Files, path: Path, f: SecretFile)
    ensures path !in files ==> Load(codec, files, path) == Ok(SecretFile(0, map[], map[]))
    ensures path in files ==> (Load(codec, files, path) == Ok(f) <==> Holds(codec, files[path], f))
    ensures Load(codec, files, path).Err? <==> Unreadable(codec, files, path)
    ensures path in files ==>
              var data := files[path];
              && (Load(codec, files, path) == Err(TooShort) <==> |data| < 12)
              && (Load(codec, files, path) == Err(DecryptFailed) <==>
                    |data| >= 12 && codec.open(data[12..], data[..12]).None?)
  {
  }

  lemma DecodeEncode(codec: Codec, f: SecretFile, nonce: Bytes)
    requires RoundTrips(codec) && |nonce| == NONCE_SIZE
    ensures Decode(codec, Encode(codec, f, nonce)) == Ok(f)
  {
  }

  // ---- Names ------------------------------------------------------------------------------

  const ENC := ".enc"
  const TMP := ".tmp"

  predicate HasSuffix(s: string, suffix: string) {
    |suffix| <= |s| && s[|s| - |suffix|..] == suffix
  }

  predicate IsStored(path: Path) {
    HasSuffix(path, ENC)
  }

  function EnvPath(dir: Path, env: string): Path {
    dir + "/" + env + ENC
  }

  lemma TmpIsNotStored(path: Path)
    ensures !IsStored(path + TMP)
  {
  }

  lemma EnvPathStored(dir: Path, env: string)
    ensures IsStored(EnvPath(dir, env))
  {
  }

  // ---- The disk ---------------------------------------------------------------------------

  /** What goes wrong while saving: the temporary file's write stops after some bytes, the rename
      fails, or removing the temporary file then fails too. */
  datatype Faults = Faults(writeStopsAt: Option<nat>, renameFails: bool, removeFails: bool)

  class Disk {
    var files: Files
    ghost var trace: seq<Files>

    ghost predicate Valid()
      reads this
    {
      trace != [] && trace[|trace| - 1] == files
    }

    constructor (files: Files)
      ensures Valid() && this.files == files && trace == [files]
    {
      this.files := files;
      trace := [files];
    }

    method Put(path: Path, data: Bytes)
      requires Valid()
      modifies this
      ensures Valid() && files == old(files)[path := data] && trace == old(trace) + [files]
    {
      files := files[path := data];
      trace := trace + [files];
    }

    method Remove(path: Path)
      requires Valid()
      modifies this
      ensures Valid() && files == old(files) - {path} && trace == old(trace) + [files]
    {
      files := files - {path};
      trace := trace + [files];
    }

    /** rename(2): the target changes from its old content to the new in one step. */
    method Rename(from: Path, to: Path)
      requires Valid() && from in files && from != to
      modifies this
      ensures Valid() && files == (old(files) - {from})[to := old(files)[from]] && trace == old(trace) + [files]
    {
      files := (files - {from})[to := files[from]];
      trace := trace + [files];
    }

    /** Truncates or creates the file, then writes it byte by byte until done or stopped. */
    method WriteFile(path: Path, data: Bytes, stopsAt: Option<nat>) returns (ok: bool)
      requires Valid()
      modifies this
      ensures Valid() && old(trace) <= trace
      ensures files - {path} == old(files) - {path}
      ensures ok ==> path in files && files[path] == data
      ensures stopsAt.None? ==> ok
      ensures forall i | |old(trace)| <= i < |trace| ::
                trace[i] - {path} == old(files) - {path} && path in trace[i] && trace[i][path] <= data
    {
      Put(path, []);
      for n := 0 to |data|
        invariant Valid() && old(trace) <= trace
        invariant files == old(files)[path := data[..n]]
        invariant forall i | |old(trace)| <= i < |trace| ::
            trace[i] - {path} == old(files) - {path} && path in trace[i] && trace[i][path] <= data
      {
        if stopsAt == Some(n) {
          return false;
        }
        assert data[..n + 1] == data[..n] + [data[n]];
        Put(path, data[..n + 1]);
      }
      assert data[..|data|] == data;
      return true;
    }
  }

  // ---- Saving -----------------------------------------------------------------------------

  /** In `now`, `path` has its old content or all of `data`, and no other stored file changed. */
  ghost predicate OldOrNew(was: Files, now: Files, path: Path, data: Bytes) {
    && (forall p | IsStored(p) && p != path :: (p in now <==> p in was) && (p in was ==> now[p] == was[p]))
    && (|| ((path in now <==> path in was) && (path in was ==> now[path] == was[path]))
        || (path in now && now[path] == data))
  }

  lemma TmpWriteKeepsOld(was: Files, now: Files, path: Path, data: Bytes)
    requires IsStored(path) && now - {path + TMP} == was - {path + TMP}
    ensures OldOrNew(was, now, path, data)
    ensures path in now <==> path in was
    ensures path in was ==> now[path] == was[path]
  {
    TmpIsNotStored(path);
    forall p | IsStored(p) ensures (p in now <==> p in was) && (p in was ==> now[p] == was[p]) {
      assert p in now - {path + TMP} <==> p in was - {path + TMP};
      if p in was { assert (now - {path + TMP})[p] == (was - {path + TMP})[p]; }
    }
  }

  /** Save: encrypt, write a temporary file, rename it over the target. */
  method Save(disk: Disk, codec: Codec, path: Path, f: SecretFile, nonce: Bytes, faults: Faults)
    returns (r: Result<(), StoreError>)
    requires disk.Valid() && IsStored(path)
    modifies disk
    ensures disk.Valid() && old(disk.trace) <= disk.trace
    ensures forall i | |old(disk.trace)| <= i < |disk.trace| ::
              OldOrNew(old(disk.files), disk.trace[i], path, Encode(codec, f, nonce))
    ensures OldOrNew(old(disk.files), disk.files, path, Encode(codec, f, nonce))
    ensures r.Ok? ==> path in disk.files && disk.files[path] == Encode(codec, f, nonce) && path + TMP !in disk.files
    ensures r.Err? ==>
              && r.error == WriteFailed
              && (path in disk.files <==> path in old(disk.files))
              && (path in disk.files ==> disk.files[path] == old(disk.files)[path])
    ensures faults == Faults(None, false, false) ==> r.Ok?
  {
    TmpIsNotStored(path);
    var combined := Encode(codec, f, nonce);
    var tmp := path + TMP;
    ghost var was := disk.files;
    var ok := disk.WriteFile(tmp, combined, faults.writeStopsAt);
    forall i | |old(disk.trace)| <= i < |disk.trace| ensures OldOrNew(was, disk.trace[i], path, combined) {
      TmpWriteKeepsOld(was, disk.trace[i], path, combined);
    }
    TmpWriteKeepsOld(was, disk.files, path, combined);
    if !ok {
      return Err(WriteFailed);
    }
    if faults.renameFails {
      if !faults.removeFails {
        disk.Remove(tmp);
        TmpWriteKeepsOld(was, disk.files, path, combined);
      }
      return Err(WriteFailed);
    }
    disk.Rename(tmp, path);
    return Ok(());
  }

  /** Crash safety: in every state a save passes through, loading the saved path gives the complete
      old or the complete new content, and loading any other stored path gives what it gave. */
  lemma CrashSafe(codec: Codec, was: Files, now: Files, path: Path, f: SecretFile, nonce: Bytes, p: Path)
    requires RoundTrips(codec) && |nonce| == NONCE_SIZE && IsStored(path) && IsStored(p)
    requires OldOrNew(was, now, path, Encode(codec, f, nonce))
    ensures Load(codec, now, p) == Load(codec, was, p) || (p == path && Load(codec, now, p) == Ok(f))
  {
  }

  /** A leftover temporary file changes no load and no listing. */
  lemma LeftoverTmpInvisible(codec: Codec, files: Files, path: Path, junk: Bytes, p: Path, dir: Path)
    requires IsStored(p)
    ensures Load(codec, files[path + TMP := junk], p) == Load(codec, files, p)
    ensures EnvNames(files[path + TMP := junk], dir) == EnvNames(files, dir)
  {
    TmpIsNotStored(path);
    forall name ensures EnvPath(dir, name) in files[path + TMP := junk] <==> EnvPath(dir, name) in files {
      EnvPathStored(dir, name);
    }
  }

  // ---- Environments -----------------------------------------------------------------------

  /** The names of the files directly in `dir`. */
  function Entries(files: Files, dir: Path): set<string> {
    set p | p in files && IsEntry(p, dir) :: p[|dir| + 1..]
  }

  predicate IsEntry(p: Path, dir: Path) {
    |dir| < |p| && p[..|dir|] == dir && p[|dir|] == '/' && '/' !in p[|dir| + 1..]
  }

  /** The environments of the project directory `dir`. */
  ghost function EnvNames(files: Files, dir: Path): iset<string> {
    iset name | '/' !in name && EnvPath(dir, name) in files
  }

  lemma EntryIsEnv(files: Files, dir: Path, name: string)
    ensures name + ENC in Entries(files, dir) <==> name in EnvNames(files, dir)
  {
    var p := EnvPath(dir, name);
    assert p == dir + "/" + (name + ENC);
    assert p[|dir| + 1..] == name + ENC && p[..|dir|] == dir;
    if name + ENC in Entries(files, dir) {
      var q :| q in files && IsEntry(q, dir) && q[|dir| + 1..] == name + ENC;
      assert q == q[..|dir|] + [q[|dir|]] + q[|dir| + 1..];
      assert q == p;
    }
  }

  /** List: exactly the project's environments, sorted. */
  method List(files: Files, dir: Path) returns (envs: seq<string>)
    ensures StrictlyAscending(envs)
    ensures forall name :: name in envs <==> '/' !in name && dir + "/" + name + ".enc" in files
  {
    var names: seq<string> := [];
    var todo := Entries(files, dir);
    ghost var found: set<string> := {};
    while todo != {}
      invariant todo <= Entries(files, dir) && Enumerates(names, found)
      invariant forall name :: name in found <==> name + ENC in Entries(files, dir) - todo
      decreases todo
    {
      var e :| e in todo;
      todo := todo - {e};
      if !HasSuffix(e, ENC) {
        continue;
      }
      var name := e[..|e| - |ENC|];
      assert e == name + ENC;
      forall other ensures other + ENC == e <==> other == name {
        if other + ENC == e { assert other == (other + ENC)[..|e| - |ENC|]; }
      }
      names := names + [name];
      found := found + {name};
    }
    SortEnumerates(names, found);
    envs := SortStrings(names);
    forall name ensures name in envs <==> name in EnvNames(files, dir) {
      EntryIsEnv(files, dir, name);
      assert name in envs <==> name in found;
    }
  }

  /** Create fails on an existing environment and otherwise makes an empty one. */
  method Create(disk: Disk, codec: Codec, dir: Path, env: string, nonce: Bytes, faults: Faults)
    returns (r: Result<(), StoreError>)
    requires disk.Valid() && RoundTrips(codec) && |nonce| == NONCE_SIZE
    modifies disk
    ensures disk.Valid()
    ensures r == Err(Exists) <==> EnvPath(dir, env) in old(disk.files)
    ensures forall p | IsStored(p) :: Load(codec, disk.files, p) == Load(codec, old(disk.files), p)
    ensures r.Ok? ==> EnvPath(dir, env) in disk.files && Load(codec, disk.files, EnvPath(dir, env)) == Ok(NewSecretFile())
    ensures EnvPath(dir, env) !in old(disk.files) && faults == Faults(None, false, false) ==> r.Ok?
  {
    var path := EnvPath(dir, env);
    EnvPathStored(dir, env);
    if path in disk.files {
      return Err(Exists);
    }
    ghost var was := disk.files;
    r := Save(disk, codec, path, NewSecretFile(), nonce, faults);
    forall p | IsStored(p) ensures Load(codec, disk.files, p) == Load(codec, was, p) {
      CrashSafe(codec, was, disk.files, path, NewSecretFile(), nonce, p);
    }
  }

  /** Clone copies an environment's content under a fresh nonce.  A missing source loads as an empty
      environment, so cloning it succeeds and creates an empty one. */
  method Clone(disk: Disk, codec: Codec, dir: Path, src: string, dest: string, nonce: Bytes, faults: Faults)
    returns (r: Result<(), StoreError>)
    requires disk.Valid() && RoundTrips(codec) && |nonce| == NONCE_SIZE
    modifies disk
    ensures disk.Valid()
    ensures r == Err(Exists) <==> EnvPath(dir, dest) in old(disk.files)
    ensures forall p | IsStored(p) && p != EnvPath(dir, dest) ::
              Load(codec, disk.files, p) == Load(codec, old(disk.files), p)
    ensures r.Ok? ==> Load(codec, disk.files, EnvPath(dir, dest)) == Load(codec, old(disk.files), EnvPath(dir, src))
    ensures r.Ok? ==> EnvPath(dir, dest) in disk.files
    ensures Unreadable(codec, old(disk.files), EnvPath(dir, src)) ==> r.Err? && disk.files == old(disk.files)
    ensures r.Err? ==> Load(codec, disk.files, EnvPath(dir, dest)) == Load(codec, old(disk.files), EnvPath(dir, dest))
    ensures faults == Faults(None, false, false) ==>
              (r.Ok? <==> EnvPath(dir, dest) !in old(disk.files) && Load(codec, old(disk.files), EnvPath(dir, src)).Ok?)
    ensures EnvPath(dir, src) !in old(disk.files) && EnvPath(dir, dest) !in old(disk.files)
            && faults == Faults(None, false, false) ==>
              && r.Ok? && EnvPath(dir, dest) in disk.files
              && Load(codec, disk.files, EnvPath(dir, dest)) == Ok(NewSecretFile())
  {
    var path := EnvPath(dir, dest);
    EnvPathStored(dir, dest);
    EnvPathStored(dir, src);
    if path in disk.files {
      return Err(Exists);
    }
    var f := Load(codec, disk.files, EnvPath(dir, src));
    if f.Err? {
      return Err(f.error);
    }
    ghost var was := disk.files;
    r := Save(disk, codec, path, f.value, nonce, faults);
    DecodeEncode(codec, f.value, nonce);
    forall p | IsStored(p) && p != path ensures Load(codec, disk.files, p) == Load(codec, was, p) {
      CrashSafe(codec, was, disk.files, path, f.value, nonce, p);
    }
  }

  /** Delete removes exactly one environment, unless removing its file fails. */
  method Delete(disk: Disk, dir: Path, env: string, removeFails: bool) returns (r: Result<(), StoreError>)
    requires disk.Valid()
    modifies disk
    ensures disk.Valid()
    ensures r.Ok? <==> EnvPath(dir, env) in old(disk.files) && !removeFails
    ensures r == Err(Missing) <==> EnvPath(dir, env) !in old(disk.files)
    ensures r.Err? ==> disk.files == old(disk.files)
    ensures r.Ok? ==> disk.files == old(disk.files) - {EnvPath(dir, env)}
  {
    var path := EnvPath(dir, env);
    if path !in disk.files {
      return Err(Missing);
    }
    if removeFails {
      return Err(WriteFailed);
    }
    disk.Remove(path);
    return Ok(());
  }
}
