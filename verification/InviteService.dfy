/** internal/service/invites.go as it runs, statement by statement, among other transactions. */
module InviteService {
  import opened Wrappers
  import opened Invites
  import Members
  import Slug
  import Text

  const INVITE_TTL_NS: int := 7 * 24 * 60 * 60 * 1_000_000_000

  function NormalEmail(email: string, lower: Slug.Lower): string {
    Text.TrimSpace(Slug.ToLower(email, lower))
  }

  datatype ConsumeError = InvalidArgument | InviteNotFound | AlreadyUsed | Expired | Conflict | Canceled

  datatype Output = Output(uid: UserId, org: OrgId, email: string, role: string)

  type Schedule = nat -> seq<Step>

  predicate OfOthers(steps: seq<Step>, t: TxId) {
    forall i | 0 <= i < |steps| ::
      steps[i].Register? || steps[i].CreateInvite? || steps[i].EditUser? || steps[i].t != t
  }

  ghost predicate OthersOnly(others: Schedule, t: TxId) {
    forall i :: OfOthers(others(i), t)
  }

  ghost predicate Quiet(others: Schedule) {
    forall i :: others(i) == []
  }

  /** No transaction but `t` is running. */
  predicate Alone(s: State, t: TxId) {
    s.txs.Keys <= {t}
  }

  /** Why an undisturbed redemption fails: the first check that does. */
  function Refusal(s: State, token: Token, fingerprint: string, now: int): Option<ConsumeError> {
    if token !in s.invites then Some(InviteNotFound)
    else
      var inv := s.invites[token];
      if inv.used then Some(AlreadyUsed)
      else if now > inv.expiresAt then Some(Expired)
      else if EmailTaken(s, inv.org, inv.email) || fingerprint in s.keys then Some(Conflict)
      else None
  }

  /** `now` extends `was` by redemptions of transactions other than `t`. */
  predicate RedeemedByOthers(was: seq<Redemption>, now: seq<Redemption>, t: TxId) {
    was <= now && forall i | |was| <= i < |now| :: now[i].tx != t
  }

  lemma OtherLeavesTx(s: State, step: Step, t: TxId)
    requires OfOthers([step], t)
    ensures var s' := Next(s, step);
            && (t in s'.txs <==> t in s.txs) && (t in s.txs ==> s'.txs[t] == s.txs[t])
            && RedeemedByOthers(s.redeemed, s'.redeemed, t)
  {
    assert [step][0] == step;
  }

  lemma {:induction false} OthersLeaveTx(s: State, steps: seq<Step>, t: TxId)
    requires OfOthers(steps, t)
    ensures var s' := Run(s, steps);
            && (t in s'.txs <==> t in s.txs) && (t in s.txs ==> s'.txs[t] == s.txs[t])
            && RedeemedByOthers(s.redeemed, s'.redeemed, t)
  {
    if steps != [] {
      OthersLeaveTx(s, steps[..|steps| - 1], t);
      OtherLeavesTx(Run(s, steps[..|steps| - 1]), steps[|steps| - 1], t);
    }
  }

  predicate IsStatement(step: Step) {
    step.ReadInvite? || step.InsertUser? || step.InsertKey? || step.MarkUsed?
  }

  /** Where a statement that succeeds takes its transaction. */
  predicate Advances(pc: Pc, step: Step, pc': Pc)
    requires IsStatement(step)
  {
    match step
    case ReadInvite(_, _) => pc.Start? && pc'.HasInvite?
    case InsertUser(_, id) => pc.HasInvite? && pc' == HasUser(pc.inv, id)
    case InsertKey(_) => pc.HasUser? && pc' == HasKey(pc.inv, pc.uid)
    case MarkUsed(_) => pc.HasKey? && pc' == Stamped(pc.inv, pc.uid)
    case _ => false
  }

  /** Only reading the invite notes the time. */
  predicate SameTask(tx: Tx, tx': Tx, step: Step)
    requires IsStatement(step)
  {
    tx'.token == tx.token && tx'.fingerprint == tx.fingerprint &&
    tx'.readAt == if step.ReadInvite? then step.now else tx.readAt
  }

  lemma StatementAdvances(s: State, step: Step)
    requires IsStatement(step) && Enabled(s, step)
    ensures var t, s' := step.t, Next(s, step);
            && SameRows(s, s')
            && (t in s'.txs ==> Advances(s.txs[t].pc, step, s'.txs[t].pc) && SameTask(s.txs[t], s'.txs[t], step))
            && (step.MarkUsed? ==> t in s'.txs)
  {
  }

  ghost predicate Reachable(s: State) {
    exists steps :: Run(Init(), steps) == s
  }

  lemma ReachableInv(s: State)
    requires Reachable(s)
    ensures Inv(s)
  {
    var steps :| Run(Init(), steps) == s;
    RunKeepsInv(Init(), steps);
  }

  lemma ReachableThen(s: State, others: seq<Step>, step: Step)
    requires Reachable(s)
    ensures Reachable(Next(Run(s, others), step))
  {
    var before :| Run(Init(), before) == s;
    RunConcat(Init(), before, others);
    var all := before + others + [step];
    assert all[..|all| - 1] == before + others;
    assert Run(Init(), all) == Next(Run(s, others), step);
  }

  /** A transaction that has stamped its invite can commit, and has read it as it still is. */
  lemma MayCommit(s: State, t: TxId)
    requires Reachable(s) && t in s.txs && s.txs[t].pc.Stamped?
    ensures Enabled(s, CommitTx(t))
    ensures s.invites[s.txs[t].token].(used := false) == s.txs[t].pc.inv
  {
    ReachableInv(s);
    assert TxOk(s, t);
  }

  class Service {
    var s: State

    /** The tables are what some interleaving has made of empty ones. */
    ghost predicate Valid()
      reads this
    {
      Reachable(s)
    }

    constructor ()
      ensures Valid() && s == Init()
    {
      s := Init();
      assert Run(Init(), []) == Init();
    }

    /** The others run `steps`, then `t` executes its statement.  `ran` tells whether it had its
        turn; a statement that fails ends the transaction. */
    method Statement(t: TxId, steps: seq<Step>, step: Step) returns (ran: bool)
      requires Valid() && OfOthers(steps, t) && t in s.txs && IsStatement(step) && step.t == t
      modifies this
      ensures Valid() && RedeemedByOthers(old(s.redeemed), s.redeemed, t)
      ensures SameRows(Run(old(s), steps), s)
      ensures t in s.txs ==> s.txs[t].token == old(s.txs[t].token) && s.txs[t].fingerprint == old(s.txs[t].fingerprint)
      ensures ran && t in s.txs ==> Advances(old(s.txs[t].pc), step, s.txs[t].pc) && SameTask(old(s.txs[t]), s.txs[t], step)
      ensures ran && step.MarkUsed? ==> t in s.txs
      ensures step.ReadInvite? && old(s.txs[t].pc.Start?) ==> ran
      ensures s == Next(Run(old(s), steps), step)
      ensures steps == [] ==> ran == old(Enabled(s, step))
    {
      OthersLeaveTx(s, steps, t);
      ReachableThen(s, steps, step);
      s := Run(s, steps);
      ran := Enabled(s, step);
      if ran {
        StatementAdvances(s, step);
        s := Next(s, step);
      }
    }

    /** Create: an accepted invite is new, unused, for the caller's own org and one of the two roles;
        it disturbs no redemption in progress.  A refused one changes nothing. */
    method Create(caller: Members.AuthContext, email: string, role: string, token: Token, now: int, lower: Slug.Lower)
      returns (ok: bool)
      requires Valid()
      modifies this
      ensures Valid() && s == old(s).(invites := s.invites)
      ensures ok <==>
                && caller.role == "admin" && Text.TrimSpace(Slug.ToLower(email, lower)) != ""
                && role in {"", "admin", "developer"} && token !in old(s.invites)
      ensures !ok ==> s == old(s)
      ensures ok ==>
                && token in s.invites && s.invites - {token} == old(s.invites)
                && var inv := s.invites[token];
                   && inv.org == caller.org && inv.email == Text.TrimSpace(Slug.ToLower(email, lower))
                   && inv.role == (if role == "" then Members.DEVELOPER else role)
                   && inv.expiresAt == now + 604_800_000_000_000 && !inv.used
    {
      if !Members.IsAdmin(caller) {
        return false;
      }
      var normal := NormalEmail(email, lower);
      if normal == "" {
        return false;
      }
      var granted := if role == "" then Members.DEVELOPER else role;
      if granted != Members.ADMIN && granted != Members.DEVELOPER {
        return false;
      }
      if token in s.invites {
        return false;
      }
      var step := CreateInvite(token, Invite(caller.org, normal, granted, now + INVITE_TTL_NS, false));
      ReachableThen(s, [], step);
      s := Next(s, step);
      return true;
    }

    method Rollback(t: TxId)
      requires Valid()
      modifies this
      ensures Valid() && t !in s.txs && s.redeemed == old(s.redeemed)
    {
      ReachableThen(s, [], Abort(t));
      s := Next(s, Abort(t));
    }

    /** A statement that fails on a UNIQUE constraint is a conflict. */
    method Insert(t: TxId, steps: seq<Step>, step: Step) returns (r: Result<(), ConsumeError>)
      requires Valid() && OfOthers(steps, t) && t in s.txs && (step.InsertUser? || step.InsertKey?) && step.t == t
      modifies this
      ensures Valid() && RedeemedByOthers(old(s.redeemed), s.redeemed, t)
      ensures r.Ok? ==> t in s.txs && Advances(old(s.txs[t].pc), step, s.txs[t].pc) && SameTask(old(s.txs[t]), s.txs[t], step)
      ensures steps == [] && old(Alone(s, t)) && old(Enabled(s, step)) ==>
                && SameRows(old(s), s) && Alone(s, t)
                && r == if t in Next(old(s), step).txs then Ok(()) else Err(Conflict)
    {
      var ran := Statement(t, steps, step);
      return if !ran then Err(Canceled) else if t !in s.txs then Err(Conflict) else Ok(());
    }

    /** The user and the key. */
    method InsertRows(t: TxId, id: UserId, others: Schedule) returns (r: Result<(), ConsumeError>)
      requires Valid() && OthersOnly(others, t) && t in s.txs && s.txs[t].pc.HasInvite?
      modifies this
      ensures Valid() && RedeemedByOthers(old(s.redeemed), s.redeemed, t)
      ensures r.Ok? ==> t in s.txs && s.txs[t] == old(s.txs[t]).(pc := HasKey(old(s.txs[t].pc.inv), id))
      ensures Quiet(others) && old(Alone(s, t)) && old(FreshUser(s, id)) ==>
                var inv := old(s.txs[t].pc.inv);
                && Alone(s, t)
                && r == if old(EmailTaken(s, inv.org, inv.email) || s.txs[t].fingerprint in s.keys) then Err(Conflict) else Ok(())
    {
      r := Insert(t, others(1), InsertUser(t, id));
      if r.Ok? {
        r := Insert(t, others(2), InsertKey(t));
      }
    }

    /** The user, the key and the stamp. */
    method Join(t: TxId, id: UserId, others: Schedule) returns (r: Result<(), ConsumeError>)
      requires Valid() && OthersOnly(others, t) && t in s.txs && s.txs[t].pc.HasInvite?
      modifies this
      ensures Valid() && RedeemedByOthers(old(s.redeemed), s.redeemed, t)
      ensures r.Ok? ==> t in s.txs && s.txs[t] == old(s.txs[t]).(pc := Stamped(old(s.txs[t].pc.inv), id))
      ensures Quiet(others) && old(Alone(s, t)) && old(FreshUser(s, id)) ==>
                var inv := old(s.txs[t].pc.inv);
                r == if old(EmailTaken(s, inv.org, inv.email) || s.txs[t].fingerprint in s.keys) then Err(Conflict) else Ok(())
    {
      r := InsertRows(t, id, others);
      if r.Err? {
        return;
      }
      var ran := Statement(t, others(3), MarkUsed(t));
      return if ran then Ok(()) else Err(Canceled);
    }

    /** The statements of Consume up to its commit. */
    method Redeem(t: TxId, now: int, id: UserId, others: Schedule) returns (r: Result<Output, ConsumeError>)
      requires Valid() && OthersOnly(others, t) && t in s.txs && s.txs[t].pc.Start?
      modifies this
      ensures Valid() && RedeemedByOthers(old(s.redeemed), s.redeemed, t)
      ensures r.Ok? ==>
                && t in s.txs && s.txs[t].pc.Stamped? && s.txs[t].pc.uid == id
                && s.txs[t].token == old(s.txs[t].token) && s.txs[t].fingerprint == old(s.txs[t].fingerprint)
                && s.txs[t].readAt == now
                && var inv := s.txs[t].pc.inv; r.value == Output(id, inv.org, inv.email, inv.role)
      ensures Quiet(others) && old(Alone(s, t)) && old(FreshUser(s, id)) ==>
                var refusal := old(Refusal(s, s.txs[t].token, s.txs[t].fingerprint, now));
                if refusal.Some? then r == Err(refusal.value) else r.Ok?
    {
      var token := s.txs[t].token;
      var ran := Statement(t, others(0), ReadInvite(t, now));
      if t !in s.txs {
        return Err(
          if token !in s.invites then InviteNotFound
          else if s.invites[token].used then AlreadyUsed
          else Expired);
      }
      var inv := s.txs[t].pc.inv;
      var joined := Join(t, id, others);
      return if joined.Ok? then Ok(Output(id, inv.org, inv.email, inv.role)) else Err(joined.error);
    }

    /** Consume: success commits exactly one redemption of the token, creating a user with the
        invite's org, email and role that holds the presented key; failure commits nothing. */
    method Consume(t: TxId, token: Token, fingerprint: Option<string>, now: int, id: UserId, others: Schedule)
      returns (r: Result<Output, ConsumeError>)
      requires Valid() && OthersOnly(others, t) && t !in s.txs
      modifies this
      ensures Valid() && t !in s.txs
      ensures token == "" || fingerprint.None? ==> r == Err(InvalidArgument) && s == old(s)
      ensures r.Err? ==> RedeemedByOthers(old(s.redeemed), s.redeemed, t)
      ensures token != "" && fingerprint.Some? && Quiet(others) && old(s.txs) == map[] && old(FreshUser(s, id)) ==>
                && (token !in old(s.invites) ==> r == Err(InviteNotFound))
                && (token in old(s.invites) ==>
                      var inv := old(s.invites)[token];
                      && (inv.used ==> r == Err(AlreadyUsed))
                      && (!inv.used && now > inv.expiresAt ==> r == Err(Expired))
                      && (!inv.used && now <= inv.expiresAt ==>
                            var taken := exists u | u in old(s.users) ::
                              old(s.users)[u].org == inv.org && old(s.users)[u].email == inv.email;
                            if taken || fingerprint.value in old(s.keys) then r == Err(Conflict) else r.Ok?))
      ensures r.Ok? ==>
                && s.redeemed != [] && s.redeemed[|s.redeemed| - 1] == Redemption(t, token, r.value.uid, now)
                && RedeemedByOthers(old(s.redeemed), s.redeemed[..|s.redeemed| - 1], t)
                && token in s.invites && s.invites[token].used
                && r.value == Output(id, s.invites[token].org, s.invites[token].email, s.invites[token].role)
                && id in s.users && s.users[id] == Members.User(r.value.org, r.value.email, r.value.role, false)
                && fingerprint.value in s.keys && s.keys[fingerprint.value] == id
    {
      if token == "" || fingerprint.None? {
        return Err(InvalidArgument);
      }
      ReachableThen(s, [], Begin(t, token, fingerprint.value));
      s := Next(s, Begin(t, token, fingerprint.value));
      r := Redeem(t, now, id, others);
      if r.Err? {
        Rollback(t);
        return;
      }
      MayCommit(s, t);
      ReachableThen(s, [], CommitTx(t));
      s := Next(s, CommitTx(t));
    }
  }
}
