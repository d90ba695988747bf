/**
 Redeeming invites (internal/service/invites.go) as interleaved transactions.  The invite is read
 without a lock, so two transactions may both find it unused; UNIQUE(org_id, email) on users, which
 are never deleted, is what lets only one of them commit.
 */
module Invites {
  import Members

  type OrgId = Members.OrgId
  type UserId = Members.UserId
  type User = Members.User
  type TxId = nat
  type Token = string

  datatype Invite = Invite(org: OrgId, email: string, role: string, expiresAt: int, used: bool)

  /** Each point after a statement of Consume, with the invite it read and the user it inserted. */
  datatype Pc =
    | Start
    | HasInvite(inv: Invite)
    | HasUser(inv: Invite, uid: UserId)
    | HasKey(inv: Invite, uid: UserId)
    | Stamped(inv: Invite, uid: UserId)

  /** `readAt` is the clock when the invite was read. */
  datatype Tx = Tx(token: Token, fingerprint: string, readAt: int, pc: Pc)

  datatype Redemption = Redemption(tx: TxId, token: Token, uid: UserId, at: int)

  /** `redeemed` records committed redemptions; `founders` the users that registered an org;
      `edited` the users an admin has changed since they joined. */
  datatype State = State(
    users: map<UserId, User>,
    keys: map<string, UserId>,
    invites: map<Token, Invite>,
    txs: map<TxId, Tx>,
    redeemed: seq<Redemption>,
    founders: set<UserId>,
    edited: set<UserId>)

  function Init(): State {
    State(map[], map[], map[], map[], [], {}, {})
  }

  predicate InsertedUser(tx: Tx) {
    tx.pc.HasUser? || tx.pc.HasKey? || tx.pc.Stamped?
  }

  predicate InsertedKey(tx: Tx) {
    tx.pc.HasKey? || tx.pc.Stamped?
  }

  /** An uncommitted user row of another transaction with the same org and email. */
  predicate EmailPending(s: State, t: TxId, org: OrgId, email: string) {
    exists u | u in s.txs :: u != t && InsertedUser(s.txs[u]) && s.txs[u].pc.inv.org == org && s.txs[u].pc.inv.email == email
  }

  predicate EmailTaken(s: State, org: OrgId, email: string) {
    exists id | id in s.users :: s.users[id].org == org && s.users[id].email == email
  }

  predicate KeyPending(s: State, t: TxId, fingerprint: string) {
    exists u | u in s.txs :: u != t && InsertedKey(s.txs[u]) && s.txs[u].fingerprint == fingerprint
  }

  predicate StampPending(s: State, t: TxId, token: Token) {
    exists u | u in s.txs :: u != t && s.txs[u].pc.Stamped? && s.txs[u].token == token
  }

  /** Row identifiers are generated and never repeat. */
  predicate FreshUser(s: State, id: UserId) {
    id !in s.users && id !in s.edited && id !in s.founders &&
    forall u | u in s.txs :: InsertedUser(s.txs[u]) ==> s.txs[u].pc.uid != id
  }

  datatype Step =
    | Register(org: OrgId, email: string, fingerprint: string, id: UserId)
    | CreateInvite(token: Token, inv: Invite)
    | EditUser(id: UserId, role: string, revoked: bool)
    | Begin(t: TxId, token: Token, fingerprint: string)
    | ReadInvite(t: TxId, now: int)
    | InsertUser(t: TxId, id: UserId)
    | InsertKey(t: TxId)
    | MarkUsed(t: TxId)
    | CommitTx(t: TxId)
    | Abort(t: TxId)

  function End(s: State, t: TxId): State {
    s.(txs := s.txs - {t})
  }

  function At(s: State, t: TxId, pc: Pc): State
    requires t in s.txs
  {
    s.(txs := s.txs[t := s.txs[t].(pc := pc)])
  }

  predicate Enabled(s: State, step: Step) {
    match step
    case Register(org, email, fp, id) =>
      && FreshUser(s, id) && fp !in s.keys && (forall u | u in s.txs :: InsertedKey(s.txs[u]) ==> s.txs[u].fingerprint != fp)
      && (forall u | u in s.users :: s.users[u].org != org)
      && (forall k | k in s.invites :: s.invites[k].org != org)
    case CreateInvite(token, inv) => token !in s.invites && !inv.used
    case EditUser(id, _, _) => id in s.users
    case Begin(t, _, _) => t !in s.txs
    case ReadInvite(t, _) => t in s.txs && s.txs[t].pc.Start?
    case InsertUser(t, id) =>
      t in s.txs && s.txs[t].pc.HasInvite? && FreshUser(s, id)
      && !EmailPending(s, t, s.txs[t].pc.inv.org, s.txs[t].pc.inv.email)
    case InsertKey(t) => t in s.txs && s.txs[t].pc.HasUser? && !KeyPending(s, t, s.txs[t].fingerprint)
    case MarkUsed(t) => t in s.txs && s.txs[t].pc.HasKey? && !StampPending(s, t, s.txs[t].token)
    case CommitTx(t) => t in s.txs && s.txs[t].pc.Stamped? && s.txs[t].token in s.invites
    case Abort(t) => t in s.txs
  }

  /** GetByToken and the two checks that follow it. */
  function DoReadInvite(s: State, t: TxId, now: int): State
    requires t in s.txs
  {
    var token := s.txs[t].token;
    if token !in s.invites || s.invites[token].used || now > s.invites[token].expiresAt then End(s, t)
    else s.(txs := s.txs[t := s.txs[t].(readAt := now, pc := HasInvite(s.invites[token]))])
  }

  /** The user row; UNIQUE(org_id, email) ends the transaction if a committed user has the email. */
  function DoInsertUser(s: State, t: TxId, id: UserId): State
    requires t in s.txs && s.txs[t].pc.HasInvite?
  {
    var inv := s.txs[t].pc.inv;
    if EmailTaken(s, inv.org, inv.email) then End(s, t) else At(s, t, HasUser(inv, id))
  }

  /** The key row; UNIQUE(fingerprint). */
  function DoInsertKey(s: State, t: TxId): State
    requires t in s.txs && s.txs[t].pc.HasUser?
  {
    if s.txs[t].fingerprint in s.keys then End(s, t) else At(s, t, HasKey(s.txs[t].pc.inv, s.txs[t].pc.uid))
  }

  function DoCommit(s: State, t: TxId): State
    requires t in s.txs && s.txs[t].pc.Stamped? && s.txs[t].token in s.invites
  {
    var tx := s.txs[t];
    var inv, uid := tx.pc.inv, tx.pc.uid;
    End(s, t).(
      users := s.users[uid := Members.User(inv.org, inv.email, inv.role, false)],
      keys := s.keys[tx.fingerprint := uid],
      invites := s.invites[tx.token := s.invites[tx.token].(used := true)],
      redeemed := s.redeemed + [Redemption(t, tx.token, uid, tx.readAt)])
  }

  function Next(s: State, step: Step): State {
    if !Enabled(s, step) then s
    else
      match step
      case Register(org, email, fp, id) =>
        s.(
          users := s.users[id := Members.User(org, email, "admin", false)],
          keys := s.keys[fp := id],
          founders := s.founders + {id})
      case CreateInvite(token, inv) => s.(invites := s.invites[token := inv])
      case EditUser(id, role, revoked) =>
        s.(users := s.users[id := s.users[id].(role := role, revoked := revoked)], edited := s.edited + {id})
      case Begin(t, token, fp) => s.(txs := s.txs[t := Tx(token, fp, 0, Start)])
      case ReadInvite(t, now) => DoReadInvite(s, t, now)
      case InsertUser(t, id) => DoInsertUser(s, t, id)
      case InsertKey(t) => DoInsertKey(s, t)
      case MarkUsed(t) => At(s, t, Stamped(s.txs[t].pc.inv, s.txs[t].pc.uid))
      case CommitTx(t) => DoCommit(s, t)
      case Abort(t) => End(s, t)
  }

  function Run(s: State, steps: seq<Step>): State {
    if steps == [] then s else Next(Run(s, steps[..|steps| - 1]), steps[|steps| - 1])
  }

  lemma {:induction false} RunConcat(s: State, a: seq<Step>, b: seq<Step>)
    ensures Run(s, a + b) == Run(Run(s, a), b)
  {
    if b == [] {
      assert a + b == a;
    } else {
      RunConcat(s, a, b[..|b| - 1]);
      assert (a + b)[..|a + b| - 1] == a + b[..|b| - 1];
    }
  }

  // ---- The invariant ----------------------------------------------------------------------

  /** The invite of a redemption was read before it expired, and its user has the invite's org and
      email and, unless edited, its role. */
  ghost predicate JoinedBy(s: State, r: Redemption) {
    && r.token in s.invites && r.at <= s.invites[r.token].expiresAt
    && r.uid in s.users && r.uid !in s.founders
    && var inv, user := s.invites[r.token], s.users[r.uid];
       user.org == inv.org && user.email == inv.email && (r.uid !in s.edited ==> user.role == inv.role && !user.revoked)
  }

  /** A committed redemption has stamped its invite. */
  ghost predicate Redeemed(s: State, r: Redemption) {
    JoinedBy(s, r) && s.invites[r.token].used
  }

  /** What a running transaction knows: the invite it read never changes but for its stamp, and
      while its user row is pending nobody else has or gets that org and email, or its key. */
  ghost predicate TxOk(s: State, t: TxId)
    requires t in s.txs
  {
    var tx := s.txs[t];
    && (!tx.pc.Start? ==>
          && tx.token in s.invites && s.invites[tx.token].(used := false) == tx.pc.inv
          && tx.readAt <= tx.pc.inv.expiresAt)
    && (InsertedUser(tx) ==>
          && tx.pc.uid !in s.users && tx.pc.uid !in s.founders && tx.pc.uid !in s.edited
          && !EmailTaken(s, tx.pc.inv.org, tx.pc.inv.email)
          && forall u | u in s.txs && u != t && InsertedUser(s.txs[u]) ::
               s.txs[u].pc.uid != tx.pc.uid &&
               !(s.txs[u].pc.inv.org == tx.pc.inv.org && s.txs[u].pc.inv.email == tx.pc.inv.email))
    && (InsertedKey(tx) ==>
          && tx.fingerprint !in s.keys
          && forall u | u in s.txs && u != t && InsertedKey(s.txs[u]) :: s.txs[u].fingerprint != tx.fingerprint)
  }

  /** UNIQUE(org_id, email); every key has a user and every user a key. */
  ghost predicate RowsOk(s: State) {
    && (forall a, b | a in s.users && b in s.users && a != b ::
          s.users[a].org != s.users[b].org || s.users[a].email != s.users[b].email)
    && (forall fp | fp in s.keys :: s.keys[fp] in s.users)
    && (forall id | id in s.users :: HasRegisteredKey(s, id))
    && s.founders <= s.users.Keys && s.edited <= s.users.Keys
  }

  ghost predicate HasRegisteredKey(s: State, id: UserId) {
    exists fp | fp in s.keys :: s.keys[fp] == id
  }

  ghost predicate TokenRedeemed(s: State, token: Token) {
    exists i | 0 <= i < |s.redeemed| :: s.redeemed[i].token == token
  }

  ghost predicate Joined(s: State, id: UserId) {
    exists i | 0 <= i < |s.redeemed| :: s.redeemed[i].uid == id
  }

  /** Redemptions are distinct and account for every stamp and every user but the founders. */
  ghost predicate LogOk(s: State) {
    && (forall i | 0 <= i < |s.redeemed| :: Redeemed(s, s.redeemed[i]))
    && Distinct(s.redeemed)
    && (forall token | token in s.invites :: s.invites[token].used ==> TokenRedeemed(s, token))
    && (forall id | id in s.users :: id in s.founders || Joined(s, id))
  }

  ghost predicate Inv(s: State) {
    RowsOk(s) && LogOk(s) && forall t | t in s.txs :: TxOk(s, t)
  }

  /** The committed rows are untouched. */
  predicate SameRows(s: State, s': State) {
    s' == s.(txs := s'.txs)
  }

  lemma {:induction false} SameRowsOk(s: State, s': State)
    requires SameRows(s, s') && RowsOk(s) && LogOk(s)
    ensures RowsOk(s') && LogOk(s')
  {
    forall id | id in s'.users ensures HasRegisteredKey(s', id) && (id in s'.founders || Joined(s', id)) {
      assert HasRegisteredKey(s, id) && (id in s.founders || Joined(s, id));
    }
    forall i | 0 <= i < |s'.redeemed| ensures Redeemed(s', s'.redeemed[i]) { assert Redeemed(s, s.redeemed[i]); }
    forall token | token in s'.invites && s'.invites[token].used ensures TokenRedeemed(s', token) {
      assert TokenRedeemed(s, token);
    }
  }

  lemma EndKeepsInv(s: State, t: TxId)
    requires Inv(s)
    ensures Inv(End(s, t))
  {
    SameRowsOk(s, End(s, t));
    forall u | u in End(s, t).txs ensures TxOk(End(s, t), u) { assert TxOk(s, u); }
  }

  lemma {:induction false} RegisterKeepsInv(s: State, step: Step)
    requires Inv(s) && step.Register? && Enabled(s, step)
    ensures Inv(Next(s, step))
  {
    RegisterKeepsRows(s, step);
    RegisterKeepsLog(s, step);
    forall u | u in Next(s, step).txs ensures TxOk(Next(s, step), u) { RegisterKeepsTx(s, step, u); }
  }

  lemma {:induction false} RegisterKeepsTx(s: State, step: Step, u: TxId)
    requires step.Register? && Enabled(s, step) && u in s.txs && TxOk(s, u)
    ensures TxOk(Next(s, step), u)
  {
  }

  lemma {:induction false} RegisterKeepsRows(s: State, step: Step)
    requires RowsOk(s) && step.Register? && Enabled(s, step)
    ensures RowsOk(Next(s, step))
  {
    NewKeyKeepsKeys(s, Next(s, step), step.fingerprint, step.id);
  }

  lemma {:induction false} RegisterKeepsLog(s: State, step: Step)
    requires LogOk(s) && step.Register? && Enabled(s, step)
    ensures LogOk(Next(s, step))
  {
    var s' := Next(s, step);
    forall i | 0 <= i < |s'.redeemed| ensures Redeemed(s', s'.redeemed[i]) { assert Redeemed(s, s.redeemed[i]); }
    forall token | token in s'.invites && s'.invites[token].used ensures TokenRedeemed(s', token) {
      assert TokenRedeemed(s, token);
    }
    forall id | id in s'.users ensures id in s'.founders || Joined(s', id) {
      if id != step.id { assert id in s.founders || Joined(s, id); }
    }
  }

  lemma NewKeyKeepsKeys(s: State, s': State, fp: string, id: UserId)
    requires RowsOk(s) && fp !in s.keys && s'.keys == s.keys[fp := id] && s'.users.Keys == s.users.Keys + {id}
    ensures forall u | u in s'.users :: HasRegisteredKey(s', u)
  {
    forall u | u in s'.users ensures HasRegisteredKey(s', u) {
      if u == id {
        assert s'.keys[fp] == id;
      } else {
        assert HasRegisteredKey(s, u);
        var other :| other in s.keys && s.keys[other] == u;
        assert s'.keys[other] == u;
      }
    }
  }

  /** Steps that rewrite no redemption, lose no user and no stamp keep the log right. */
  lemma {:induction false} SameRedemptionsOk(s: State, s': State)
    requires LogOk(s) && s'.redeemed == s.redeemed && s'.founders == s.founders && s'.users.Keys == s.users.Keys
    requires forall i | 0 <= i < |s.redeemed| :: Redeemed(s', s.redeemed[i])
    requires forall token | token in s'.invites && s'.invites[token].used :: token in s.invites && s.invites[token].used
    ensures LogOk(s')
  {
    forall token | token in s'.invites && s'.invites[token].used ensures TokenRedeemed(s', token) {
      assert TokenRedeemed(s, token);
    }
    forall id | id in s'.users ensures id in s'.founders || Joined(s', id) {
      assert id in s.founders || Joined(s, id);
    }
  }

  lemma {:induction false} CreateInviteKeepsInv(s: State, step: Step)
    requires Inv(s) && step.CreateInvite? && Enabled(s, step)
    ensures Inv(Next(s, step))
  {
    var s' := Next(s, step);
    forall i | 0 <= i < |s.redeemed| ensures Redeemed(s', s.redeemed[i]) { assert Redeemed(s, s.redeemed[i]); }
    SameRedemptionsOk(s, s');
    forall id | id in s'.users ensures HasRegisteredKey(s', id) { assert HasRegisteredKey(s, id); }
    forall u | u in s'.txs ensures TxOk(s', u) { assert TxOk(s, u); }
  }

  lemma {:induction false} EditUserKeepsRows(s: State, step: Step)
    requires RowsOk(s) && step.EditUser? && Enabled(s, step)
    ensures RowsOk(Next(s, step))
  {
    var s' := Next(s, step);
    forall id | id in s'.users ensures HasRegisteredKey(s', id) { assert HasRegisteredKey(s, id); }
  }

  lemma {:induction false} EditUserKeepsLog(s: State, step: Step)
    requires LogOk(s) && step.EditUser? && Enabled(s, step)
    ensures LogOk(Next(s, step))
  {
    var s' := Next(s, step);
    forall i | 0 <= i < |s.redeemed| ensures Redeemed(s', s.redeemed[i]) { assert Redeemed(s, s.redeemed[i]); }
    SameRedemptionsOk(s, s');
  }

  lemma {:induction false} EditUserKeepsTx(s: State, step: Step, t: TxId)
    requires step.EditUser? && Enabled(s, step) && t in s.txs && TxOk(s, t)
    ensures TxOk(Next(s, step), t)
  {
  }

  lemma {:induction false} EditUserKeepsInv(s: State, step: Step)
    requires Inv(s) && step.EditUser? && Enabled(s, step)
    ensures Inv(Next(s, step))
  {
    EditUserKeepsRows(s, step);
    EditUserKeepsLog(s, step);
    forall u | u in Next(s, step).txs ensures TxOk(Next(s, step), u) { EditUserKeepsTx(s, step, u); }
  }

  lemma {:induction false} BeginKeepsTx(s: State, step: Step, u: TxId)
    requires Enabled(s, step) && step.Begin? && (u in s.txs ==> TxOk(s, u)) && u in Next(s, step).txs
    ensures TxOk(Next(s, step), u)
  {
  }

  lemma {:induction false} BeginKeepsInv(s: State, step: Step)
    requires Inv(s) && Enabled(s, step) && step.Begin?
    ensures Inv(Next(s, step))
  {
    SameRowsOk(s, Next(s, step));
    forall u | u in Next(s, step).txs ensures TxOk(Next(s, step), u) { BeginKeepsTx(s, step, u); }
  }

  /** Moving `t` on changes what the others must respect only if `t` took an email or a key. */
  lemma AtKeepsInv(s: State, t: TxId, tx: Tx)
    requires Inv(s) && t in s.txs
    requires TxOk(s.(txs := s.txs[t := tx]), t)
    ensures Inv(s.(txs := s.txs[t := tx]))
  {
    var s' := s.(txs := s.txs[t := tx]);
    SameRowsOk(s, s');
    forall u | u in s'.txs && u != t ensures TxOk(s', u) {
      assert TxOk(s, u);
      assert TxOk(s', t);
    }
  }

  lemma TxStepKeepsInv(s: State, step: Step)
    requires Inv(s) && Enabled(s, step)
    requires step.ReadInvite? || step.InsertUser? || step.InsertKey? || step.MarkUsed?
    ensures Inv(Next(s, step))
  {
    var t, s' := step.t, Next(s, step);
    assert TxOk(s, t);
    if t !in s'.txs {
      EndKeepsInv(s, t);
    } else {
      NextTxOk(s, step);
      AtKeepsInv(s, t, s'.txs[t]);
    }
  }

  lemma {:induction false} NextTxOk(s: State, step: Step)
    requires step.ReadInvite? || step.InsertUser? || step.InsertKey? || step.MarkUsed?
    requires Enabled(s, step) && TxOk(s, step.t) && step.t in Next(s, step).txs
    ensures TxOk(Next(s, step), step.t)
  {
  }

  lemma {:induction false} CommitKeepsRows(s: State, t: TxId)
    requires Inv(s) && Enabled(s, CommitTx(t))
    ensures RowsOk(DoCommit(s, t))
  {
    var tx := s.txs[t];
    assert TxOk(s, t);
    NewKeyKeepsKeys(s, DoCommit(s, t), tx.fingerprint, tx.pc.uid);
  }

  /** The new redemption is the only one of its token and of its user, and leaves the others right. */
  lemma {:induction false} CommitAddsRedemption(s: State, t: TxId)
    requires Inv(s) && Enabled(s, CommitTx(t))
    ensures var s', tx := DoCommit(s, t), s.txs[t];
            && Redeemed(s', s'.redeemed[|s.redeemed|])
            && forall i | 0 <= i < |s.redeemed| ::
                 Redeemed(s', s.redeemed[i]) && s.redeemed[i].token != tx.token && s.redeemed[i].uid != tx.pc.uid
  {
    var s', tx := DoCommit(s, t), s.txs[t];
    assert TxOk(s, t);
    assert s'.redeemed[|s.redeemed|] == Redemption(t, tx.token, tx.pc.uid, tx.readAt);
    forall i | 0 <= i < |s.redeemed|
      ensures Redeemed(s', s.redeemed[i]) && s.redeemed[i].token != tx.token && s.redeemed[i].uid != tx.pc.uid
    {
      assert Redeemed(s, s.redeemed[i]);
    }
  }

  lemma {:induction false} CommitKeepsStamps(s: State, t: TxId, token: Token)
    requires Enabled(s, CommitTx(t))
    requires token in s.invites && s.invites[token].used ==> TokenRedeemed(s, token)
    requires token in DoCommit(s, t).invites && DoCommit(s, t).invites[token].used
    ensures TokenRedeemed(DoCommit(s, t), token)
  {
    var s' := DoCommit(s, t);
    if token == s.txs[t].token {
      assert s'.redeemed[|s.redeemed|].token == token;
    } else {
      assert TokenRedeemed(s, token);
      var i :| 0 <= i < |s.redeemed| && s.redeemed[i].token == token;
      assert s'.redeemed[i].token == token;
    }
  }

  lemma {:induction false} CommitKeepsUsers(s: State, t: TxId, id: UserId)
    requires Enabled(s, CommitTx(t)) && id in DoCommit(s, t).users
    requires id in s.users ==> id in s.founders || Joined(s, id)
    ensures id in DoCommit(s, t).founders || Joined(DoCommit(s, t), id)
  {
    var s' := DoCommit(s, t);
    if id == s.txs[t].pc.uid {
      assert s'.redeemed[|s.redeemed|].uid == id;
    } else if id !in s.founders {
      assert Joined(s, id);
      var i :| 0 <= i < |s.redeemed| && s.redeemed[i].uid == id;
      assert s'.redeemed[i].uid == id;
    }
  }

  /** Redemptions of different tokens by different users. */
  predicate Distinct(rs: seq<Redemption>) {
    forall i, j | 0 <= i < j < |rs| :: rs[i].token != rs[j].token && rs[i].uid != rs[j].uid
  }

  lemma DistinctSnoc(rs: seq<Redemption>, r: Redemption)
    requires Distinct(rs) && forall i | 0 <= i < |rs| :: rs[i].token != r.token && rs[i].uid != r.uid
    ensures Distinct(rs + [r])
  {
  }

  lemma {:induction false} CommitKeepsLog(s: State, t: TxId)
    requires Inv(s) && Enabled(s, CommitTx(t))
    ensures LogOk(DoCommit(s, t))
  {
    CommitAddsRedemption(s, t);
    var s' := DoCommit(s, t);
    forall token | token in s'.invites && s'.invites[token].used ensures TokenRedeemed(s', token) {
      CommitKeepsStamps(s, t, token);
    }
    forall id | id in s'.users ensures id in s'.founders || Joined(s', id) { CommitKeepsUsers(s, t, id); }
    DistinctSnoc(s.redeemed, s'.redeemed[|s.redeemed|]);
    forall i | 0 <= i < |s'.redeemed| ensures Redeemed(s', s'.redeemed[i]) {
      if i < |s.redeemed| { assert s'.redeemed[i] == s.redeemed[i]; }
    }
  }

  lemma {:induction false} CommitKeepsTx(s: State, t: TxId, u: TxId)
    requires u in s.txs && u != t && TxOk(s, u) && t in s.txs && TxOk(s, t) && Enabled(s, CommitTx(t))
    ensures TxOk(DoCommit(s, t), u)
  {
  }

  lemma {:induction false} CommitKeepsInv(s: State, t: TxId)
    requires Inv(s) && Enabled(s, CommitTx(t))
    ensures Inv(DoCommit(s, t))
  {
    CommitKeepsRows(s, t);
    CommitKeepsLog(s, t);
    forall u | u in DoCommit(s, t).txs ensures TxOk(DoCommit(s, t), u) { CommitKeepsTx(s, t, u); }
  }

  lemma StepKeepsInv(s: State, step: Step)
    requires Inv(s)
    ensures Inv(Next(s, step))
  {
    if Enabled(s, step) {
      match step
      case Register(_, _, _, _) => RegisterKeepsInv(s, step);
      case CreateInvite(_, _) => CreateInviteKeepsInv(s, step);
      case EditUser(_, _, _) => EditUserKeepsInv(s, step);
      case CommitTx(t) => CommitKeepsInv(s, t);
      case Abort(t) => EndKeepsInv(s, t);
      case Begin(_, _, _) => BeginKeepsInv(s, step);
      case _ => TxStepKeepsInv(s, step);
    }
  }

  lemma {:induction false} RunKeepsInv(s: State, steps: seq<Step>)
    requires Inv(s)
    ensures Inv(Run(s, steps))
  {
    if steps != [] {
      RunKeepsInv(s, steps[..|steps| - 1]);
      StepKeepsInv(Run(s, steps[..|steps| - 1]), steps[|steps| - 1]);
    }
  }

  // ---- The theorems -----------------------------------------------------------------------

  /** Single use: in every interleaving a token is redeemed at most once. */
  lemma SingleUse(steps: seq<Step>, i: nat, j: nat)
    ensures var r := Run(Init(), steps).redeemed;
            i < |r| && j < |r| && r[i].token == r[j].token ==> i == j
  {
    RunKeepsInv(Init(), steps);
  }

  /** An invite is stamped exactly if a redemption of its token was committed. */
  lemma UsedIffRedeemed(steps: seq<Step>, token: Token)
    ensures var s := Run(Init(), steps);
            token in s.invites ==> (s.invites[token].used <==> TokenRedeemed(s, token))
  {
    RunKeepsInv(Init(), steps);
    var s := Run(Init(), steps);
    if i :| 0 <= i < |s.redeemed| && s.redeemed[i].token == token {
      assert Redeemed(s, s.redeemed[i]);
    }
  }

  /** Every redemption brought in a user in time, in the invite's org, with its email, a registered
      key and, until an admin edits the user, its role; no user came in twice. */
  lemma RedeemedUsers(steps: seq<Step>, i: nat, j: nat)
    ensures var s := Run(Init(), steps);
            && (i < |s.redeemed| ==> JoinedBy(s, s.redeemed[i]) && HasRegisteredKey(s, s.redeemed[i].uid))
            && (i < |s.redeemed| && j < |s.redeemed| && s.redeemed[i].uid == s.redeemed[j].uid ==> i == j)
  {
    RunKeepsInv(Init(), steps);
    var s := Run(Init(), steps);
    if i < |s.redeemed| { assert Redeemed(s, s.redeemed[i]); }
  }

  /** A failed redemption leaves nothing: every user is a founder or joined by exactly one committed
      redemption, and every key belongs to such a user. */
  lemma NoStrayUsers(steps: seq<Step>, id: UserId)
    ensures var s := Run(Init(), steps);
            && (id in s.users && id !in s.founders ==> Joined(s, id))
            && forall fp | fp in s.keys :: s.keys[fp] in s.users
  {
    RunKeepsInv(Init(), steps);
  }
}
