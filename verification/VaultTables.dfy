/**
 The vault (internal/repo/vault.go) runs the same two statements without reading the history
 maximum: a fresh live row always gets version 1.  A deleted vault key therefore never comes back.
 */
module VaultTables {
  import opened Wrappers
  import opened VersionedTables
  import opened Replay
  import opened Refinement

  /** The history insert of a vault upsert fails exactly if its key was written before and is not
      live now. */
  lemma VaultConflictIffDead(s: State, t: TxId)
    requires Inv(s) && s.numbering.FromOne? && Enabled(s, WriteHistory(t))
    ensures var tx, k := s.txs[t], Current(s, t).key;
            t !in Next(s, WriteHistory(t)).txs <==> Dead(ReplayKey(s.log, k))
  {
    var tx, k := s.txs[t], Current(s, t).key;
    assert TxOk(s, tx);
    ConflictIffTaken(s, t);
    PutAllFrame(ReplayKey(s.log, k), tx.prog.items[..tx.next], k);
  }

  lemma DeadUntouched(s: State, step: Step, k: Key)
    requires Inv(s) && s.numbering.FromOne? && Dead(ReplayKey(s.log, k))
    ensures ReplayKey(Next(s, step).log, k) == ReplayKey(s.log, k)
  {
    if step.CommitTx? && Enabled(s, step) {
      var tx := s.txs[step.t];
      assert TxOk(s, tx);
      FinishedOwn(s, step.t, k);
      ReplayCommit(s, step.t, k);
      if tx.prog.Upserts? {
        assert tx.prog.items[..tx.next] == tx.prog.items;
      }
    }
  }

  lemma {:induction false} DeadStaysDead(s: State, steps: seq<Step>, k: Key)
    requires Inv(s) && s.numbering.FromOne? && Dead(ReplayKey(s.log, k))
    ensures ReplayKey(Run(s, steps).log, k) == ReplayKey(s.log, k)
  {
    if steps != [] {
      var init := steps[..|steps| - 1];
      DeadStaysDead(s, init, k);
      RunKeepsInv(s, init);
      RunExtendsLog(s, init);
      DeadUntouched(Run(s, init), steps[|steps| - 1], k);
    }
  }

  /** A vault key whose delete is in the log is dead. */
  lemma {:induction false} DeletedIsDead(steps: seq<Step>, k: Key)
    ensures var s := Run(Init(FromOne), steps);
            DeletedSince([], s.log, k) ==> Dead(ReplayKey(s.log, k))
  {
    if steps != [] {
      var init, step := steps[..|steps| - 1], steps[|steps| - 1];
      DeletedIsDead(init, k);
      InitInv(FromOne);
      RunKeepsInv(Init(FromOne), init);
      RunExtendsLog(Init(FromOne), init);
      StepDeletedIsDead(Run(Init(FromOne), init), step, k);
    }
  }

  lemma {:induction false} StepDeletedIsDead(s: State, step: Step, k: Key)
    requires Inv(s) && s.numbering.FromOne? && (DeletedSince([], s.log, k) ==> Dead(ReplayKey(s.log, k)))
    ensures DeletedSince([], Next(s, step).log, k) ==> Dead(ReplayKey(Next(s, step).log, k))
  {
    if Dead(ReplayKey(s.log, k)) {
      DeadUntouched(s, step, k);
    } else if step.CommitTx? && Enabled(s, step) && s.txs[step.t].prog == Delete(k) {
      assert TxOk(s, s.txs[step.t]);
      FinishedOwn(s, step.t, k);
      ReplayCommit(s, step.t, k);
    } else {
      assert DeletedSince([], Next(s, step).log, k) ==> DeletedSince([], s.log, k);
    }
  }

  /** Over every run: once a vault key with history is not live, no continuation changes its rows,
      so it is never live again. */
  lemma DeletedNeverReturns(before: seq<Step>, after: seq<Step>, k: Key)
    ensures var s := Run(Init(FromOne), before);
            var s' := Run(s, after);
            At(s.db, k).live.None? && At(s.db, k).hist != [] ==> At(s'.db, k) == At(s.db, k)
  {
    var s := Run(Init(FromOne), before);
    InitInv(FromOne);
    RunKeepsInv(Init(FromOne), before);
    RunKeepsInv(s, after);
    RunExtendsLog(Init(FromOne), before);
    assert At(s.db, k) == Stored(ReplayKey(s.log, k));
    if At(s.db, k).live.None? && At(s.db, k).hist != [] {
      DeadStaysDead(s, after, k);
    }
  }

  /** Such keys are reachable: one upsert and one delete make one. */
  lemma DeletedKeyReachable(it: Item, t: TxId)
    ensures var s := Run(Init(FromOne), PutSteps(t, it) + DeleteSteps(t, it.key));
            At(s.db, it.key) == Cell(None, [HistRow(1, it.blob)])
  {
    PutThenDelete(Init(FromOne), t, it);
  }
}
