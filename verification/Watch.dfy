/**
 The SDK's Watch (sdk/go/watch.go) polls an environment and compares version maps instead of
 contents.  That is sound because of what Refinement proves about versions.
 */
module Watch {
  import opened Wrappers
  import opened VersionedTables
  import opened Refinement

  /** One element of the server's list of live secrets. */
  datatype SecretDTO = SecretDTO(key: Key, blob: Blob, version: nat)

  datatype Snapshot = Snapshot(secrets: map<Key, string>, versions: map<Key, nat>)

  /** AES-GCM opening, left abstract: a function of ciphertext and nonce that may fail. */
  type Decrypt = Blob -> Option<string>

  /** `rows` is a listing of the live rows of `db`, in some order. */
  ghost predicate Lists(rows: seq<SecretDTO>, db: Tables) {
    && (forall i, j | 0 <= i < j < |rows| :: rows[i].key != rows[j].key)
    && (forall i | 0 <= i < |rows| :: At(db, rows[i].key).live == Some(Row(rows[i].blob, rows[i].version)))
    && (forall k :: At(db, k).live.Some? ==> exists i | 0 <= i < |rows| :: rows[i].key == k)
  }

  /** `snap` is the decrypted content of the live rows of `db`. */
  ghost predicate Shows(snap: Snapshot, db: Tables, decrypt: Decrypt) {
    && snap.secrets.Keys == snap.versions.Keys
    && forall k ::
         && (k in snap.versions <==> At(db, k).live.Some?)
         && (k in snap.versions ==>
               && snap.versions[k] == At(db, k).live.value.version
               && decrypt(At(db, k).live.value.blob) == Some(snap.secrets[k]))
  }

  /** The loop of pullSnapshot; it fails exactly if some row does not decrypt. */
  method PullSnapshot(rows: seq<SecretDTO>, ghost db: Tables, decrypt: Decrypt) returns (r: Option<Snapshot>)
    requires Lists(rows, db)
    ensures r.None? <==> exists i | 0 <= i < |rows| :: decrypt(rows[i].blob).None?
    ensures r.Some? ==> Shows(r.value, db, decrypt)
  {
    var secrets: map<Key, string> := map[];
    var versions: map<Key, nat> := map[];
    for n := 0 to |rows|
      invariant secrets.Keys == versions.Keys
      invariant forall k :: k in versions <==> exists i | 0 <= i < n :: rows[i].key == k
      invariant forall i | 0 <= i < n ::
          rows[i].key in versions && versions[rows[i].key] == rows[i].version &&
          decrypt(rows[i].blob) == Some(secrets[rows[i].key])
    {
      var pt := decrypt(rows[n].blob);
      if pt.None? {
        return None;
      }
      secrets := secrets[rows[n].key := pt.value];
      versions := versions[rows[n].key := rows[n].version];
    }
    return Some(Snapshot(secrets, versions));
  }

  /** versionsEqual decides map equality: equal sizes make one inclusion enough. */
  method VersionsEqual(a: map<Key, nat>, b: map<Key, nat>) returns (eq: bool)
    ensures eq <==> a == b
  {
    if |a| != |b| {
      return false;
    }
    var keys := a.Keys;
    while keys != {}
      invariant keys <= a.Keys
      invariant forall k | k in a.Keys - keys :: k in b && b[k] == a[k]
      decreases keys
    {
      var k :| k in keys;
      if k !in b || b[k] != a[k] {
        return false;
      }
      keys := keys - {k};
    }
    SubsetOfSameSize(a.Keys, b.Keys);
    return true;
  }

  lemma {:induction false} SubsetOfSameSize(a: set<Key>, b: set<Key>)
    requires a <= b && |a| == |b|
    ensures a == b
  {
    assert b == a + (b - a);
  }

  /** Two snapshots taken at two points of one run of the server agree on contents if they agree
      on versions. */
  lemma EqualVersionsEqualSecrets(s: State, steps: seq<Step>, a: Snapshot, b: Snapshot, decrypt: Decrypt)
    requires Inv(s)
    requires Shows(a, s.db, decrypt) && Shows(b, Run(s, steps).db, decrypt)
    requires a.versions == b.versions
    ensures a.secrets == b.secrets
  {
    forall k | k in a.versions ensures a.secrets[k] == b.secrets[k] {
      VersionDeterminesRow(s, steps, k);
    }
  }

  // ---- The watch loop ---------------------------------------------------------------------

  /** What the loop's select sees: a tick whose poll gives a snapshot or fails, and in which
      cancellation may beat the send; or the cancellation itself. */
  datatype Event = Tick(poll: Option<Snapshot>, canceled: bool) | Done

  /** Whether the loop is still running after `events`, and what it has emitted and compares to. */
  datatype Loop = Loop(running: bool, last: map<Key, nat>, emitted: seq<Snapshot>)

  function After(initial: Snapshot, events: seq<Event>): Loop {
    if events == [] then Loop(true, initial.versions, [initial])
    else
      var l, e := After(initial, events[..|events| - 1]), events[|events| - 1];
      if !l.running then l
      else if e.Done? then l.(running := false)
      else if e.poll.None? || e.poll.value.versions == l.last then l
      else if e.canceled then l.(running := false, last := e.poll.value.versions)
      else Loop(true, e.poll.value.versions, l.emitted + [e.poll.value])
  }

  lemma {:induction false} Stopped(initial: Snapshot, events: seq<Event>, n: nat)
    requires n <= |events| && !After(initial, events[..n]).running
    ensures After(initial, events) == After(initial, events[..n])
    decreases |events|
  {
    if n == |events| {
      assert events[..n] == events;
    } else {
      assert events[..|events| - 1][..n] == events[..n];
      Stopped(initial, events[..|events| - 1], n);
    }
  }

  /** The polls of one run: poll `i` shows the tables of `states[i]`, and each state is reached from
      the one before. `states[0]` is where the initial snapshot was taken. */
  ghost predicate OneRun(initial: Snapshot, events: seq<Event>, states: seq<State>, runs: seq<seq<Step>>, decrypt: Decrypt) {
    && |states| == |events| + 1 && |runs| == |events|
    && Inv(states[0]) && Shows(initial, states[0].db, decrypt)
    && forall i | 0 <= i < |events| ::
         && states[i + 1] == Run(states[i], runs[i])
         && (events[i].Tick? && events[i].poll.Some? ==> Shows(events[i].poll.value, states[i + 1].db, decrypt))
  }

  lemma {:induction false} Reaches(events: seq<Event>, states: seq<State>, runs: seq<seq<Step>>, i: nat, j: nat)
    returns (steps: seq<Step>)
    requires |states| == |events| + 1 && |runs| == |events| && i <= j <= |events|
    requires forall n | 0 <= n < |events| :: states[n + 1] == Run(states[n], runs[n])
    ensures states[j] == Run(states[i], steps)
  {
    if i == j {
      steps := [];
    } else {
      var before := Reaches(events, states, runs, i, j - 1);
      steps := before + runs[j - 1];
      RunConcat(states[i], before, runs[j - 1]);
    }
  }

  lemma {:induction false} StateOk(
    initial: Snapshot, events: seq<Event>, states: seq<State>, runs: seq<seq<Step>>, decrypt: Decrypt, n: nat)
    requires OneRun(initial, events, states, runs, decrypt) && n <= |events|
    ensures Inv(states[n])
  {
    var steps := Reaches(events, states, runs, 0, n);
    RunKeepsInv(states[0], steps);
  }

  /** Where the snapshot last emitted was taken. */
  lemma {:induction false} LastEmittedAt(
    initial: Snapshot, events: seq<Event>, states: seq<State>, runs: seq<seq<Step>>, decrypt: Decrypt, n: nat)
    returns (at: nat)
    requires OneRun(initial, events, states, runs, decrypt) && n <= |events|
    ensures var l := After(initial, events[..n]);
            && l.emitted != [] && at <= n && Inv(states[at])
            && Shows(l.emitted[|l.emitted| - 1], states[at].db, decrypt)
            && (l.running ==> l.emitted[|l.emitted| - 1].versions == l.last)
  {
    if n == 0 {
      at := 0;
    } else {
      assert events[..n][..n - 1] == events[..n - 1];
      at := LastEmittedAt(initial, events, states, runs, decrypt, n - 1);
      if |After(initial, events[..n]).emitted| > |After(initial, events[..n - 1]).emitted| {
        at := n;
        StateOk(initial, events, states, runs, decrypt, n);
      }
    }
  }

  // ---- What the loop does, told from the events alone ---------------------------------------

  predicate Succeeds(e: Event) {
    e.Tick? && e.poll.Some?
  }

  /** The versions of the latest successful poll. */
  function LatestVersions(initial: Snapshot, events: seq<Event>): map<Key, nat> {
    if events == [] then initial.versions
    else if Succeeds(events[|events| - 1]) then events[|events| - 1].poll.value.versions
    else LatestVersions(initial, events[..|events| - 1])
  }

  /** The n-th event is a poll that differs from the latest successful one before it. */
  predicate News(initial: Snapshot, events: seq<Event>, n: nat)
    requires n < |events|
  {
    Succeeds(events[n]) && events[n].poll.value.versions != LatestVersions(initial, events[..n])
  }

  /** The n-th event ends the loop: cancellation seen by the select, or at the send of a new snapshot. */
  predicate Ends(initial: Snapshot, events: seq<Event>, n: nat)
    requires n < |events|
  {
    events[n].Done? || (News(initial, events, n) && events[n].canceled)
  }

  lemma PrefixEnds(initial: Snapshot, events: seq<Event>, m: nat, n: nat)
    requires n < m <= |events|
    ensures Ends(initial, events[..m], n) == Ends(initial, events, n)
    ensures News(initial, events[..m], n) == News(initial, events, n)
  {
    assert events[..m][..n] == events[..n];
  }

  /** The loop runs exactly until the first event that ends it, and until then compares with the
      latest successful poll. */
  lemma {:induction false} RunsUntilEnd(initial: Snapshot, events: seq<Event>)
    ensures var l := After(initial, events);
            && (l.running <==> forall i | 0 <= i < |events| :: !Ends(initial, events, i))
            && (l.running ==> l.last == LatestVersions(initial, events))
  {
    if events != [] {
      var init, n := events[..|events| - 1], |events| - 1;
      RunsUntilEnd(initial, init);
      forall i | 0 <= i < n ensures Ends(initial, init, i) == Ends(initial, events, i) {
        PrefixEnds(initial, events, n, i);
      }
      var before, l := After(initial, init), After(initial, events);
      assert l.running <==> before.running && !Ends(initial, events, n);
      if before.running {
        forall i | 0 <= i < n ensures !Ends(initial, events, i) { assert !Ends(initial, init, i); }
      } else {
        var i :| 0 <= i < n && Ends(initial, init, i);
        assert Ends(initial, events, i);
      }
    }
  }

  /** While it runs, the loop emits a successful poll exactly if it differs from the latest one before. */
  lemma {:induction false} EmitsNews(initial: Snapshot, events: seq<Event>, n: nat)
    requires n < |events| && forall i | 0 <= i <= n :: !Ends(initial, events, i)
    ensures After(initial, events[..n + 1]).running
    ensures After(initial, events[..n + 1]).emitted ==
            After(initial, events[..n]).emitted + (if News(initial, events, n) then [events[n].poll.value] else [])
  {
    var upTo := events[..n + 1];
    assert upTo[..n] == events[..n];
    forall i | 0 <= i <= n ensures !Ends(initial, upTo, i) { PrefixEnds(initial, events, n + 1, i); }
    forall i | 0 <= i < n ensures !Ends(initial, events[..n], i) { PrefixEnds(initial, events, n, i); }
    RunsUntilEnd(initial, upTo);
    RunsUntilEnd(initial, events[..n]);
  }

  /** From an event that ends the loop on, nothing is emitted: not that event's snapshot either. */
  lemma {:induction false} SilentAfterEnd(initial: Snapshot, events: seq<Event>, n: nat)
    requires n < |events| && Ends(initial, events, n)
    ensures After(initial, events).emitted == After(initial, events[..n]).emitted
  {
    var upTo := events[..n + 1];
    assert upTo[..n] == events[..n];
    PrefixEnds(initial, events, n + 1, n);
    RunsUntilEnd(initial, upTo);
    RunsUntilEnd(initial, events[..n]);
    Stopped(initial, events, n + 1);
  }

  /** The initial snapshot, and every change that comes before the first event that ends the loop. */
  function Emissions(initial: Snapshot, events: seq<Event>): seq<Snapshot> {
    if events == [] then [initial]
    else
      var n := |events| - 1;
      Emissions(initial, events[..n]) +
      if News(initial, events, n) && forall i | 0 <= i <= n :: !Ends(initial, events, i) then [events[n].poll.value] else []
  }

  lemma {:induction false} EmissionsAre(initial: Snapshot, events: seq<Event>)
    ensures After(initial, events).emitted == Emissions(initial, events)
  {
    if events != [] {
      var n := |events| - 1;
      EmissionsAre(initial, events[..n]);
      assert events[..n + 1] == events;
      if forall i | 0 <= i <= n :: !Ends(initial, events, i) {
        EmitsNews(initial, events, n);
      } else {
        SilentAtEnd(initial, events);
      }
    }
  }

  /** Once an event has ended the loop, the last one emits nothing. */
  lemma {:induction false} SilentAtEnd(initial: Snapshot, events: seq<Event>)
    requires exists i | 0 <= i < |events| :: Ends(initial, events, i)
    ensures After(initial, events).emitted == After(initial, events[..|events| - 1]).emitted
  {
    var n := |events| - 1;
    var i :| 0 <= i < |events| && Ends(initial, events, i);
    SilentAfterEnd(initial, events, i);
    if i < n {
      PrefixEnds(initial, events, n, i);
      SilentAfterEnd(initial, events[..n], i);
      assert events[..n][..i] == events[..i];
    }
  }

  /** watchLoop over any finite sequence of events. */
  method WatchLoop(initial: Snapshot, events: seq<Event>) returns (emitted: seq<Snapshot>)
    ensures emitted == After(initial, events).emitted == Emissions(initial, events)
  {
    EmissionsAre(initial, events);
    var last := initial.versions;
    emitted := [initial];
    for n := 0 to |events|
      invariant After(initial, events[..n]) == Loop(true, last, emitted)
    {
      assert events[..n + 1][..n] == events[..n];
      if events[n].Done? {
        Stopped(initial, events, n + 1);
        return;
      }
      var poll := events[n].poll;
      if poll.None? {
        continue;
      }
      var same := VersionsEqual(last, poll.value.versions);
      if same {
        continue;
      }
      last := poll.value.versions;
      if events[n].canceled {
        Stopped(initial, events, n + 1);
        return;
      }
      emitted := emitted + [poll.value];
    }
    assert events[..|events|] == events;
  }

  /** Watch soundness: if no event up to the n-th ends the loop and the n-th is a successful poll, then
      the snapshot last emitted has that poll's secrets. */
  lemma WatchSound(
    initial: Snapshot, events: seq<Event>, states: seq<State>, runs: seq<seq<Step>>, decrypt: Decrypt, n: nat)
    requires OneRun(initial, events, states, runs, decrypt) && n < |events| && Succeeds(events[n])
    requires forall i | 0 <= i <= n :: !Ends(initial, events, i)
    ensures var emitted := After(initial, events[..n + 1]).emitted;
            emitted != [] && emitted[|emitted| - 1].secrets == events[n].poll.value.secrets
  {
    EmitsNews(initial, events, n);
    assert events[..n + 1][..n] == events[..n];
    var at := LastEmittedAt(initial, events, states, runs, decrypt, n);
    var l := After(initial, events[..n]);
    if events[n].poll.value.versions == l.last {
      var steps := Reaches(events, states, runs, at, n + 1);
      EqualVersionsEqualSecrets(states[at], steps, l.emitted[|l.emitted| - 1], events[n].poll.value, decrypt);
    }
  }

  /** In particular, as long as nothing is canceled every successful poll is what was last emitted. */
  lemma WatchSoundUncanceled(
    initial: Snapshot, events: seq<Event>, states: seq<State>, runs: seq<seq<Step>>, decrypt: Decrypt, n: nat)
    requires OneRun(initial, events, states, runs, decrypt) && n < |events| && Succeeds(events[n])
    requires forall i | 0 <= i <= n :: events[i].Tick? && !events[i].canceled
    ensures var emitted := After(initial, events[..n + 1]).emitted;
            emitted != [] && emitted[|emitted| - 1].secrets == events[n].poll.value.secrets
  {
    WatchSound(initial, events, states, runs, decrypt, n);
  }

  /** The initial snapshot comes first, and consecutive emissions differ in some key's version. */
  lemma {:induction false} EmissionsDiffer(initial: Snapshot, events: seq<Event>)
    ensures var l := After(initial, events);
            && l.emitted != [] && l.emitted[0] == initial
            && (l.running ==> l.emitted[|l.emitted| - 1].versions == l.last)
            && forall i | 0 < i < |l.emitted| :: l.emitted[i].versions != l.emitted[i - 1].versions
  {
    if events != [] {
      EmissionsDiffer(initial, events[..|events| - 1]);
    }
  }

  /** Removing a failed poll changes nothing, whatever follows it. */
  lemma {:induction false} FailedPollInvisible(initial: Snapshot, before: seq<Event>, canceled: bool, after: seq<Event>)
    ensures After(initial, before + [Tick(None, canceled)] + after) == After(initial, before + after)
  {
    var a, b := before + [Tick(None, canceled)] + after, before + after;
    if after == [] {
      assert a[..|a| - 1] == before && b == before;
    } else {
      var init := after[..|after| - 1];
      FailedPollInvisible(initial, before, canceled, init);
      assert a[..|a| - 1] == before + [Tick(None, canceled)] + init;
      assert b[..|b| - 1] == before + init;
    }
  }
}
