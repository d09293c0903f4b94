/** What every run of the in-memory ledger keeps. */
module MemoryInvariants {
  import opened Domain
  import opened Sums
  import opened MemorySpec
  import OutboxStore
  import Fees = FeeBooks

  // ---------- Indexes: the STATE_CORRUPTED lookups ----------

  ghost predicate Indexed(m: Memory) {
    && (forall k :: k in m.withdrawalByKey ==>
          m.withdrawalByKey[k] < |m.withdrawals| && m.withdrawals[m.withdrawalByKey[k]].idempotencyKey == k)
    && (forall i :: 0 <= i < |m.withdrawals| ==> IsIndexed(m, m.withdrawals[i], i))
    && (forall k :: k in m.transferByKey ==>
          m.transferByKey[k].0 < |m.transactions| && m.transferByKey[k].1 < |m.transactions|)
  }

  ghost predicate IsIndexed(m: Memory, w: Withdrawal, i: nat) {
    && w.ledgerTx < |m.transactions|
    && w.idempotencyKey in m.withdrawalByKey
    && m.withdrawalByKey[w.idempotencyKey] == i
  }

  // ---------- Money: locked funds explained, solvency, conservation ----------

  function LockedOf(m: Memory, u: UserId): int {
    AccountOf(m.accounts, u).lockedBalance
  }

  ghost predicate LockedExplained(m: Memory) {
    forall u :: LockedOf(m, u) == ActiveSum(m.withdrawals, u)
  }

  ghost predicate Solvent(m: Memory) {
    forall u :: AccountOf(m.accounts, u).balance >= 0
  }

  function Holding(): Account -> int {
    (a: Account) => a.balance + a.lockedBalance
  }

  function DepositAmount(): Deposit -> int {
    (d: Deposit) => d.amount
  }

  function CreditAmount(): ExternalCredit -> int {
    (c: ExternalCredit) => c.amount
  }

  function PaidOut(): Withdrawal -> int {
    (w: Withdrawal) => if w.status == Completed then w.amount else 0
  }

  /** Everything the users own, as `getLedgerSummary` reports it. */
  ghost function Liability(m: Memory): int {
    SumMap(m.accounts, Holding())
  }

  function Inflow(m: Memory): int {
    SumBy(m.deposits, DepositAmount()) + SumBy(m.credits, CreditAmount())
  }

  ghost predicate Conserved(m: Memory) {
    Liability(m) == Inflow(m) - SumBy(m.withdrawals, PaidOut())
  }

  /** An active withdrawal is covered by the active total of its user. */
  lemma ActiveCovers(ws: seq<Withdrawal>, i: nat)
    requires i < |ws| && IsActive(ws[i].status)
    ensures ws[i].amount <= ActiveSum(ws, ws[i].userId)
  {
    SumAtLeast(ws, i, ActiveOf(ws[i].userId));
  }

  /** `Adjust` moves one account and the total, and nothing else. */
  lemma AdjustEffect(accounts: map<UserId, Account>, x: UserId, available: int, locked: int)
    ensures var after := Adjust(accounts, x, available, locked);
      && SumMap(after, Holding()) == SumMap(accounts, Holding()) + available + locked
      && forall u :: AccountOf(after, u) ==
           var a := AccountOf(accounts, u); if u == x then Account(a.balance + available,
                                                                   a.lockedBalance + locked) else a
  {
    var a := AccountOf(accounts, x);
    SumMapUpdate(accounts, x, Account(a.balance + available, a.lockedBalance + locked), Holding());
  }

  lemma TouchEffect(accounts: map<UserId, Account>, x: UserId)
    ensures SumMap(Touch(accounts, x), Holding()) == SumMap(accounts, Holding())
    ensures forall u :: AccountOf(Touch(accounts, x), u) == AccountOf(accounts, u)
  {
    if x !in accounts {
      SumMapUpdate(accounts, x, ZERO_ACCOUNT, Holding());
    }
  }

  // ---------- Limits ----------

  ghost predicate WithinLimits(m: Memory, limits: Limits) {
    && (forall i :: 0 <= i < |m.withdrawals| ==> m.withdrawals[i].amount <= limits.singleLimit)
    && (forall u, day :: DailyRequested(m.withdrawals, u, day) <= limits.dailyLimit)
  }

  // ---------- Dual control ----------

  ghost predicate DistinctAdmins(approvals: seq<Approval>) {
    forall i, j :: 0 <= i < j < |approvals| ==> approvals[i].adminId != approvals[j].adminId
  }

  ghost predicate ApprovalRule(w: Withdrawal, approvals: seq<Approval>) {
    && w.approvalCount == |approvals|
    && DistinctAdmins(approvals)
    && w.approvalCount <= w.requiredApprovals
    && (w.status == LedgerReserved ==> w.approvalCount == 0)
    && (w.status == PendingAdmin ==> w.approvalCount < w.requiredApprovals)
    && (w.status == AdminApproved || w.status == TxBroadcasted || w.status == Completed ==>
          w.approvalCount == w.requiredApprovals)
    && w.status != StatusRejected
  }

  ghost predicate DualControl(m: Memory) {
    forall id: nat :: id < |m.withdrawals| ==> ApprovalRule(m.withdrawals[id], ApprovalsOf(m, id))
  }

  // ---------- The outbox log ----------

  predicate IsLogOf(e: OutboxEvent, id: nat) {
    e.payload.WithdrawalChanged? && e.payload.withdrawalId == id
  }

  /** The state announcements of one withdrawal, in insertion order. */
  function LogOf(outbox: seq<OutboxEvent>, id: nat): seq<Payload> {
    if outbox == [] then []
    else
      var last := outbox[|outbox| - 1];
      LogOf(outbox[..|outbox| - 1], id) + if IsLogOf(last, id) then [last.payload] else []
  }

  /** One move of the withdrawal state machine, read off two announcements. */
  predicate LegalMove(p: Payload, q: Payload) {
    && p.WithdrawalChanged? && q.WithdrawalChanged?
    && p.withdrawalId == q.withdrawalId && p.userId == q.userId && p.amount == q.amount
    && p.toAddress == q.toAddress && p.requiredApprovals == q.requiredApprovals
    && match q.status
       case PendingAdmin =>
         && q.withdrawalTxHash == p.withdrawalTxHash
         && if p.status == LedgerReserved
            then q.approvalCount == p.approvalCount && q.authProvider.Some? && q.authRequestId.Some?
            else p.status == PendingAdmin && q.approvalCount == p.approvalCount + 1 < p.requiredApprovals
       case AdminApproved =>
         && p.status == PendingAdmin && q.approvalCount == p.approvalCount + 1 == p.requiredApprovals
         && q.withdrawalTxHash == p.withdrawalTxHash
       case TxBroadcasted =>
         p.status == AdminApproved && q.approvalCount == p.approvalCount && q.withdrawalTxHash.Some?
       case Completed =>
         p.status == TxBroadcasted && q.approvalCount == p.approvalCount && q.withdrawalTxHash == p.withdrawalTxHash
       case Failed =>
         IsActive(p.status) && q.approvalCount == p.approvalCount && q.withdrawalTxHash == p.withdrawalTxHash
       case _ => false
  }

  /** A path of the state machine from LEDGER_RESERVED to the given last announcement. */
  ghost predicate LegalRun(log: seq<Payload>, last: Payload) {
    && log != []
    && log[0].WithdrawalChanged? && log[0].status == LedgerReserved && log[0].approvalCount == 0
    && log[|log| - 1] == last
    && forall i :: 0 <= i < |log| - 1 ==> LegalMove(log[i], log[i + 1])
  }

  ghost predicate LogLegal(m: Memory) {
    && (forall id: nat :: id < |m.withdrawals| ==>
          LegalRun(LogOf(m.outbox, id), WithdrawalPayload(id, m.withdrawals[id])))
    && (forall id: nat :: id >= |m.withdrawals| ==> LogOf(m.outbox, id) == [])
  }

  lemma LogAppend(outbox: seq<OutboxEvent>, e: OutboxEvent)
    ensures forall id :: LogOf(outbox + [e], id) == LogOf(outbox, id) + if IsLogOf(e, id) then [e.payload] else []
  {
    assert (outbox + [e])[..|outbox|] == outbox;
  }

  /** The log depends on payloads alone. */
  lemma {:induction false} LogOfPayloads(before: seq<OutboxEvent>, after: seq<OutboxEvent>, id: nat)
    requires OutboxStore.SamePayloads(before, after)
    ensures LogOf(before, id) == LogOf(after, id)
  {
    if before != [] {
      LogOfPayloads(before[..|before| - 1], after[..|after| - 1], id);
    }
  }

  // ---------- What one call can do to the withdrawals ----------

  /** Withdrawals, locked funds and logs stay as they are. */
  ghost predicate Unmoved(m: Memory, m': Memory) {
    && m'.withdrawals == m.withdrawals && m'.withdrawalByKey == m.withdrawalByKey && m'.approvals == m.approvals
    && (forall u :: LockedOf(m', u) == LockedOf(m, u))
    && (forall id: nat :: LogOf(m'.outbox, id) == LogOf(m.outbox, id))
    && Liability(m') - Liability(m) == Inflow(m') - Inflow(m)
  }

  /** One withdrawal is added: reserved, announced, within the limits. */
  ghost predicate Opened(m: Memory, m': Memory, w: Withdrawal, limits: Limits, now: Instant) {
    var id := |m.withdrawals|;
    && m'.withdrawals == m.withdrawals + [w]
    && w.idempotencyKey !in m.withdrawalByKey
    && m'.withdrawalByKey == m.withdrawalByKey[w.idempotencyKey := id]
    && (forall i: nat :: ApprovalsOf(m', i) == if i == id then [] else ApprovalsOf(m, i))
    && w.status == LedgerReserved && w.approvalCount == 0 && w.ledgerTx < |m'.transactions|
    && w.amount <= limits.singleLimit
    && DailyRequested(m.withdrawals, w.userId, DayOf(w.createdAt)) + w.amount <= limits.dailyLimit
    && (forall u :: LockedOf(m', u) == LockedOf(m, u) + ActiveOf(u)(w))
    && m'.outbox == m.outbox + [NewEvent(WithdrawalPayload(id, w), now)]
    && Liability(m') == Liability(m) && Inflow(m') == Inflow(m)
  }

  /** Withdrawal `id` is replaced by `w`: a legal, announced move, or no visible change. */
  ghost predicate Advanced(m: Memory, m': Memory, id: nat, w: Withdrawal, now: Instant) {
    && id < |m.withdrawals|
    && var v := m.withdrawals[id];
    && m'.withdrawals == m.withdrawals[id := w]
    && w.userId == v.userId && w.amount == v.amount && w.createdAt == v.createdAt
    && w.idempotencyKey == v.idempotencyKey && w.ledgerTx == v.ledgerTx
    && IsActive(v.status)
    && m'.withdrawalByKey == m.withdrawalByKey
    && (forall i: nat :: i != id ==> ApprovalsOf(m', i) == ApprovalsOf(m, i))
    && (ApprovalRule(v, ApprovalsOf(m, id)) ==> ApprovalRule(w, ApprovalsOf(m', id)))
    && (forall u :: LockedOf(m', u) == LockedOf(m, u) - ActiveOf(u)(v) + ActiveOf(u)(w))
    && (|| (m'.outbox == m.outbox && WithdrawalPayload(id, w) == WithdrawalPayload(id, v))
        || (&& m'.outbox == m.outbox + [NewEvent(WithdrawalPayload(id, w), now)]
            && (ApprovalRule(v, ApprovalsOf(m, id)) ==> LegalMove(WithdrawalPayload(id, v), WithdrawalPayload(id, w)))))
    && Liability(m') == Liability(m) - PaidOut()(w) && Inflow(m') == Inflow(m)
  }

  /** Transactions are only added, transfer keys point at them, and no balance goes below zero. */
  ghost predicate Grown(m: Memory, m': Memory) {
    && (Solvent(m) ==> Solvent(m'))
    && |m.transactions| <= |m'.transactions|
    && (forall k :: k in m'.transferByKey ==>
          || (m'.transferByKey[k].0 < |m'.transactions| && m'.transferByKey[k].1 < |m'.transactions|)
          || (k in m.transferByKey && m.transferByKey[k] == m'.transferByKey[k]))
  }

  ghost predicate Transition(m: Memory, m': Memory, limits: Limits) {
    && Grown(m, m')
    && (|| Unmoved(m, m')
        || (exists w, now: Instant :: Opened(m, m', w, limits, now))
        || (exists id: nat, w, now: Instant :: Advanced(m, m', id, w, now)))
  }

  lemma DepositTransition(m: Memory, limits: Limits, u: UserId, amount: nat, txHash: string, block: nat, now: Instant)
    ensures Transition(m, ApplyDeposit(m, u, amount, txHash, block, now).0, limits)
  {
    hide SumMap, SumBy, LogOf, AccountOf, Adjust, Touch;
    var m' := ApplyDeposit(m, u, amount, txHash, block, now).0;
    if m' != m {
      AdjustEffect(m.accounts, u, amount, 0);
      SumAppend(m.deposits, m'.deposits[|m.deposits|], DepositAmount());
      LogAppend(m.outbox, m'.outbox[|m.outbox|]);
    }
    assert Unmoved(m, m');
  }

  lemma CompleteDepositTransition(m: Memory, limits: Limits, depositId: nat)
    ensures Transition(m, CompleteDeposit(m, depositId).0, limits)
  {
    hide SumMap, SumBy, LogOf, AccountOf, Adjust, Touch;
    var m' := CompleteDeposit(m, depositId).0;
    if depositId < |m.deposits| {
      SumUpdate(m.deposits, depositId, m'.deposits[depositId], DepositAmount());
    }
    assert Unmoved(m, m');
  }

  lemma CreditTransition(m: Memory, limits: Limits, u: UserId, amount: int, reference: Reference, now: Instant)
    ensures Transition(m, ApplyCredit(m, u, amount, reference, now).0, limits)
  {
    hide SumMap, SumBy, LogOf, AccountOf, Adjust, Touch;
    var m' := ApplyCredit(m, u, amount, reference, now).0;
    if m' != m {
      AdjustEffect(m.accounts, u, amount, 0);
      SumAppend(m.credits, m'.credits[|m.credits|], CreditAmount());
    }
    assert Unmoved(m, m');
  }

  lemma PaymentEffect(accounts: map<UserId, Account>, f: UserId, t: UserId, amount: nat)
    requires f != t
    ensures var touched := Touch(Touch(accounts, f), t);
            var after := Adjust(Adjust(touched, f, 0 - amount, 0), t, amount, 0);
      && SumMap(touched, Holding()) == SumMap(after, Holding()) == SumMap(accounts, Holding())
      && forall u ::
           && AccountOf(touched, u) == AccountOf(accounts, u)
           && AccountOf(after, u).lockedBalance == AccountOf(accounts, u).lockedBalance
           && AccountOf(after, u).balance ==
              AccountOf(accounts, u).balance + if u == f then 0 - amount else if u == t then amount else 0
  {
    hide SumMap, AccountOf, Adjust, Touch;
    var touched := Touch(Touch(accounts, f), t);
    TouchEffect(accounts, f);
    TouchEffect(Touch(accounts, f), t);
    AdjustEffect(touched, f, 0 - amount, 0);
    AdjustEffect(Adjust(touched, f, 0 - amount, 0), t, amount, 0);
  }

  lemma TransferUnmoved(m: Memory, f: UserId, t: UserId, amount: nat, key: string, now: Instant)
    ensures var m' := Transfer(m, f, t, amount, key, now).0; Grown(m, m') && Unmoved(m, m')
  {
    hide SumMap, SumBy, LogOf, AccountOf, Adjust, Touch, TransferTxs;
    if f != t {
      PaymentEffect(m.accounts, f, t, amount);
    }
  }

  lemma ReserveEffect(accounts: map<UserId, Account>, x: UserId, amount: nat)
    ensures var touched := Touch(accounts, x);
            var after := Adjust(touched, x, 0 - amount, amount);
      && SumMap(touched, Holding()) == SumMap(after, Holding()) == SumMap(accounts, Holding())
      && forall u ::
           && AccountOf(touched, u) == AccountOf(accounts, u)
           && AccountOf(after, u).lockedBalance == AccountOf(accounts, u).lockedBalance + (if u == x then amount else 0)
           && AccountOf(after, u).balance == AccountOf(accounts, u).balance - if u == x then amount else 0
  {
    hide SumMap, AccountOf, Adjust, Touch;
    TouchEffect(accounts, x);
    AdjustEffect(Touch(accounts, x), x, 0 - amount, amount);
  }

  lemma RequestGrown(m: Memory, limits: Limits, u: UserId, amount: nat, toAddress: string, key: string,
                     required: Positive, now: Instant)
    ensures Grown(m, RequestWithdrawal(m, limits, u, amount, toAddress, key, required, now).0)
  {
    hide SumMap, SumBy, LogOf, AccountOf, Adjust, Touch, DailyRequested, NewEvent, WithdrawalPayload;
    ReserveEffect(m.accounts, u, amount);
  }

  lemma RequestTransition(m: Memory, limits: Limits, u: UserId, amount: nat, toAddress: string, key: string,
                          required: Positive, now: Instant)
    ensures var m' := RequestWithdrawal(m, limits, u, amount, toAddress, key, required, now).0;
            && Grown(m, m')
            && if |m'.withdrawals| == |m.withdrawals| then Unmoved(m, m')
               else |m'.withdrawals| > |m.withdrawals| && Opened(m, m', m'.withdrawals[|m.withdrawals|], limits, now)
  {
    hide Grown, SumMap, SumBy, LogOf, AccountOf, Adjust, Touch, DailyRequested, NewEvent, WithdrawalPayload, Reserved,
         NewWithdrawal;
    RequestGrown(m, limits, u, amount, toAddress, key, required, now);
    TouchEffect(m.accounts, u);
    var w := NewWithdrawal(u, amount, toAddress, key, |m.transactions|, required, now);
    NewIsFresh(u, amount, toAddress, key, |m.transactions|, required, now);
    if key !in m.withdrawalByKey && amount <= limits.singleLimit
       && DailyRequested(m.withdrawals, u, DayOf(now)) + amount <= limits.dailyLimit {
      ReservedOpens(m, w, limits, now);
    }
  }

  lemma NewIsFresh(u: UserId, amount: nat, toAddress: string, key: string, ledgerTx: nat, required: Positive,
                   now: Instant)
    ensures var w := NewWithdrawal(u, amount, toAddress, key, ledgerTx, required, now);
      && w.userId == u && w.amount == amount && w.idempotencyKey == key && w.ledgerTx == ledgerTx
      && w.status == LedgerReserved && w.approvalCount == 0 && w.createdAt == now
  {
  }

  lemma ReservedOpens(m: Memory, w: Withdrawal, limits: Limits, now: Instant)
    requires w.idempotencyKey !in m.withdrawalByKey && w.ledgerTx == |m.transactions|
    requires w.status == LedgerReserved && w.approvalCount == 0 && w.amount <= limits.singleLimit
    requires DailyRequested(m.withdrawals, w.userId, DayOf(w.createdAt)) + w.amount <= limits.dailyLimit
    ensures Opened(m, Reserved(m.(accounts := Touch(m.accounts, w.userId)), w, now), w, limits, now)
  {
    hide SumMap, SumBy, AccountOf, Adjust, Touch, DailyRequested, NewEvent, WithdrawalPayload;
    ReserveEffect(m.accounts, w.userId, w.amount);
  }

  lemma AuthTransition(m: Memory, limits: Limits, id: nat, provider: string, requestId: string, now: Instant)
    requires DualControl(m)
    ensures Transition(m, ConfirmAuth(m, id, provider, requestId, now).0, limits)
  {
    hide SumMap, SumBy, LogOf, AccountOf, Adjust, Touch;
    var m' := ConfirmAuth(m, id, provider, requestId, now).0;
    if m' != m {
      assert Advanced(m, m', id, m'.withdrawals[id], now);
    } else {
      assert Unmoved(m, m');
    }
  }

  lemma ReviewTransition(m: Memory, limits: Limits, id: nat, now: Instant)
    requires DualControl(m)
    ensures Transition(m, MarkReview(m, id, now).0, limits)
  {
    hide SumMap, SumBy, LogOf, AccountOf, Adjust, Touch;
    var m' := MarkReview(m, id, now).0;
    if id < |m.withdrawals| && m.withdrawals[id].status == PendingAdmin {
      assert Advanced(m, m', id, m'.withdrawals[id], now);
    } else {
      assert Unmoved(m, m');
    }
  }

  /** One more administrator keeps the rule, and is a legal move. */
  lemma ApprovalMoves(v: Withdrawal, id: nat, approvals: seq<Approval>, adminId: string, now: Instant)
    requires ApprovalRule(v, approvals) && v.status == PendingAdmin && !HasApproved(approvals, adminId)
    ensures var more := approvals + [Approval(id, adminId, now)];
            var w := WithApproval(v, |more|, now);
      && ApprovalRule(w, more) && IsActive(w.status)
      && LegalMove(WithdrawalPayload(id, v), WithdrawalPayload(id, w))
      && (w.userId, w.amount, w.createdAt) == (v.userId, v.amount, v.createdAt)
      && (w.idempotencyKey, w.ledgerTx) == (v.idempotencyKey, v.ledgerTx)
  {
  }

  lemma ApproveTransition(m: Memory, limits: Limits, id: nat, adminId: string, now: Instant)
    requires DualControl(m)
    ensures Transition(m, Approve(m, id, adminId, now).0, limits)
  {
    hide SumMap, SumBy, LogOf, AccountOf, Adjust, Touch, Opened, ApprovalRule, LegalMove, WithApproval, HasApproved,
         WithdrawalPayload;
    var m' := Approve(m, id, adminId, now).0;
    if m' != m {
      assert ApprovalRule(m.withdrawals[id], ApprovalsOf(m, id));
      ApprovalMoves(m.withdrawals[id], id, ApprovalsOf(m, id), adminId, now);
      assert ApprovalsOf(m', id) == ApprovalsOf(m, id) + [Approval(id, adminId, now)];
      assert Advanced(m, m', id, m'.withdrawals[id], now);
    } else {
      assert Unmoved(m, m');
    }
  }

  lemma BroadcastTransition(m: Memory, limits: Limits, id: nat, txHash: string, now: Instant)
    requires DualControl(m)
    ensures Transition(m, Broadcast(m, id, txHash, now).0, limits)
  {
    hide SumMap, SumBy, LogOf, AccountOf, Adjust, Touch;
    var m' := Broadcast(m, id, txHash, now).0;
    if m' != m {
      assert Advanced(m, m', id, m'.withdrawals[id], now);
    } else {
      assert Unmoved(m, m');
    }
  }

  lemma TransitionByMove(m: Memory, m': Memory, limits: Limits, id: nat, w: Withdrawal, now: Instant)
    requires Grown(m, m') && Advanced(m, m', id, w, now)
    ensures Transition(m, m', limits)
  {
  }

  /** What settling or releasing an active withdrawal finds: its transaction and enough locked funds. */
  lemma ActiveIsBacked(m: Memory, id: nat)
    requires Indexed(m) && LockedExplained(m) && id < |m.withdrawals| && IsActive(m.withdrawals[id].status)
    ensures var w := m.withdrawals[id];
            w.ledgerTx < |m.transactions| && LockedOf(m, w.userId) >= w.amount
  {
    assert IsIndexed(m, m.withdrawals[id], id);
    ActiveCovers(m.withdrawals, id);
  }

  lemma ConfirmMoves(m: Memory, id: nat, fee: Option<NetworkFee>, now: Instant)
    requires DualControl(m) && id < |m.withdrawals| && m.withdrawals[id].status == TxBroadcasted
    requires var w := m.withdrawals[id]; w.ledgerTx < |m.transactions| && LockedOf(m, w.userId) >= w.amount
    ensures var (m', r) := Confirm(m, id, fee, now);
            && r != Refused(StateCorrupted) && Grown(m, m') && |m'.withdrawals| == |m.withdrawals|
            && Advanced(m, m', id, m'.withdrawals[id], now)
  {
    hide SumMap, SumBy, LogOf, AccountOf, Adjust, Touch, ActiveSum, Fees.Record;
    var w := m.withdrawals[id];
    AdjustEffect(m.accounts, w.userId, 0, 0 - w.amount);
  }

  lemma ConfirmTransition(m: Memory, limits: Limits, id: nat, fee: Option<NetworkFee>, now: Instant)
    requires Indexed(m) && LockedExplained(m) && DualControl(m)
    ensures Transition(m, Confirm(m, id, fee, now).0, limits)
    ensures Confirm(m, id, fee, now).1 != Refused(StateCorrupted)
  {
    hide SumMap, SumBy, LogOf, AccountOf, Advanced, Opened;
    var m' := Confirm(m, id, fee, now).0;
    if id < |m.withdrawals| && m.withdrawals[id].status == TxBroadcasted {
      hide Confirm, Transition, Grown, Indexed, LockedExplained, DualControl;
      ActiveIsBacked(m, id);
      ConfirmMoves(m, id, fee, now);
      TransitionByMove(m, m', limits, id, m'.withdrawals[id], now);
    } else {
      assert Unmoved(m, m');
    }
  }

  lemma FailMoves(m: Memory, id: nat, reason: string, now: Instant)
    requires DualControl(m) && id < |m.withdrawals| && IsActive(m.withdrawals[id].status)
    requires var w := m.withdrawals[id]; w.ledgerTx < |m.transactions| && LockedOf(m, w.userId) >= w.amount
    ensures var (m', r) := Fail(m, id, reason, now);
            && r != Refused(StateCorrupted) && Grown(m, m') && |m'.withdrawals| == |m.withdrawals|
            && Advanced(m, m', id, m'.withdrawals[id], now)
  {
    hide SumMap, SumBy, LogOf, AccountOf, Adjust, Touch, ActiveSum;
    var w := m.withdrawals[id];
    AdjustEffect(m.accounts, w.userId, w.amount, 0 - w.amount);
  }

  lemma FailTransition(m: Memory, limits: Limits, id: nat, reason: string, now: Instant)
    requires Indexed(m) && LockedExplained(m) && DualControl(m)
    ensures Transition(m, Fail(m, id, reason, now).0, limits)
    ensures Fail(m, id, reason, now).1 != Refused(StateCorrupted)
  {
    hide SumMap, SumBy, LogOf, AccountOf, Advanced, Opened;
    var m' := Fail(m, id, reason, now).0;
    if id < |m.withdrawals| && IsActive(m.withdrawals[id].status) {
      hide Fail, Transition, Grown, Indexed, LockedExplained, DualControl;
      ActiveIsBacked(m, id);
      FailMoves(m, id, reason, now);
      TransitionByMove(m, m', limits, id, m'.withdrawals[id], now);
    } else {
      assert Unmoved(m, m');
    }
  }

  lemma TouchUnmoved(m: Memory, u: UserId)
    ensures var m' := m.(accounts := Touch(m.accounts, u)); Grown(m, m') && Unmoved(m, m')
  {
    hide SumMap, SumBy, LogOf, AccountOf, Adjust, Touch;
    TouchEffect(m.accounts, u);
  }

  lemma OutboxUnmoved(m: Memory, op: OutboxStore.OutboxOp)
    ensures var m' := m.(outbox := OutboxStore.Step(m.outbox, op)); Grown(m, m') && Unmoved(m, m')
  {
    hide SumMap, SumBy, LogOf, AccountOf, Adjust, Touch;
    var m' := m.(outbox := OutboxStore.Step(m.outbox, op));
    OutboxStore.StepKeepsPayloads(m.outbox, op);
    forall id: nat ensures LogOf(m'.outbox, id) == LogOf(m.outbox, id) {
      LogOfPayloads(m.outbox, m'.outbox, id);
    }
  }

  lemma SweepUnmoved(m: Memory, op: Fees.SweepOp)
    ensures var m' := m.(fees := Fees.SweepStep(m.fees, op)); Grown(m, m') && Unmoved(m, m')
  {
    hide SumMap, SumBy, LogOf, AccountOf, Adjust, Touch, Fees.SweepStep;
  }

  lemma StepTransition(m: Memory, limits: Limits, op: MemoryOp)
    requires Indexed(m) && LockedExplained(m) && DualControl(m)
    ensures Transition(m, Step(m, limits, op), limits)
  {
    hide Indexed, LockedExplained, DualControl, Grown, Unmoved, Opened, Advanced;
    var m' := Step(m, limits, op);
    match op
    case GetAccount(u) => TouchUnmoved(m, u);
    case Sweep(sweep) => SweepUnmoved(m, sweep);
    case Outbox(outboxOp) => OutboxUnmoved(m, outboxOp);
    case Ledger(DepositOp(u, amount, txHash, block, now)) =>
      DepositTransition(m, limits, u, amount, txHash, block, now);
    case Ledger(CompleteOp(depositId)) => CompleteDepositTransition(m, limits, depositId);
    case Ledger(CreditOp(u, amount, _, reference, now)) =>
      CreditTransition(m, limits, u, amount, reference, now);
    case Ledger(TransferOp(f, t, amount, key, now)) => TransferUnmoved(m, f, t, amount, key, now);
    case Ledger(RequestOp(u, amount, toAddress, key, required, now)) =>
      RequestTransition(m, limits, u, amount, toAddress, key, required, now);
      assert |m'.withdrawals| > |m.withdrawals| ==> Opened(m, m', m'.withdrawals[|m.withdrawals|], limits, now);
    case Ledger(AuthOp(id, provider, requestId, now)) => AuthTransition(m, limits, id, provider, requestId, now);
    case Ledger(ReviewOp(id, now)) => ReviewTransition(m, limits, id, now);
    case Ledger(ApproveOp(id, adminId, now)) => ApproveTransition(m, limits, id, adminId, now);
    case Ledger(BroadcastOp(id, txHash, now)) => BroadcastTransition(m, limits, id, txHash, now);
    case Ledger(ConfirmOp(id, fee, now)) => ConfirmTransition(m, limits, id, fee, now);
    case Ledger(FailOp(id, reason, now)) => FailTransition(m, limits, id, reason, now);
  }

  // ---------- Every transition keeps every invariant ----------

  lemma IndexedKept(m: Memory, m': Memory, limits: Limits)
    requires Indexed(m) && Transition(m, m', limits)
    ensures Indexed(m')
  {
    hide ActiveOf, LockedOf, Inflow, SumBy, DailyRequested;
    forall i | 0 <= i < |m'.withdrawals| ensures IsIndexed(m', m'.withdrawals[i], i) {
      assert i < |m.withdrawals| ==> IsIndexed(m, m.withdrawals[i], i);
    }
  }

  lemma LockedExplainedKept(m: Memory, m': Memory, limits: Limits)
    requires LockedExplained(m) && Transition(m, m', limits)
    ensures LockedExplained(m')
  {
    hide Grown, PaidOut;
    forall u ensures LockedOf(m', u) == ActiveSum(m'.withdrawals, u) {
      assert LockedOf(m, u) == ActiveSum(m.withdrawals, u);
      if w, now: Instant :| Opened(m, m', w, limits, now) {
        SumAppend(m.withdrawals, w, ActiveOf(u));
      } else if id: nat, w, now: Instant :| Advanced(m, m', id, w, now) {
        SumUpdate(m.withdrawals, id, w, ActiveOf(u));
      }
    }
  }

  lemma ConservedKept(m: Memory, m': Memory, limits: Limits)
    requires Conserved(m) && Transition(m, m', limits)
    ensures Conserved(m')
  {
    if w, now: Instant :| Opened(m, m', w, limits, now) {
      SumAppend(m.withdrawals, w, PaidOut());
    } else if id: nat, w, now: Instant :| Advanced(m, m', id, w, now) {
      SumUpdate(m.withdrawals, id, w, PaidOut());
    }
  }

  lemma WithinLimitsKept(m: Memory, m': Memory, limits: Limits)
    requires WithinLimits(m, limits) && Transition(m, m', limits)
    ensures WithinLimits(m', limits)
  {
    hide SumBy, Liability;
    forall u, day ensures DailyRequested(m'.withdrawals, u, day) <= limits.dailyLimit {
      assert DailyRequested(m.withdrawals, u, day) <= limits.dailyLimit;
      if w, now: Instant :| Opened(m, m', w, limits, now) {
        SumAppend(m.withdrawals, w, CountedOn(u, day));
      } else if id: nat, w, now: Instant :| Advanced(m, m', id, w, now) {
        SumUpdate(m.withdrawals, id, w, CountedOn(u, day));
      }
    }
  }

  lemma DualControlKept(m: Memory, m': Memory, limits: Limits)
    requires DualControl(m) && Transition(m, m', limits)
    ensures DualControl(m')
  {
    hide SumBy, AccountOf, DailyRequested;
    forall id: nat | id < |m'.withdrawals| ensures ApprovalRule(m'.withdrawals[id], ApprovalsOf(m', id)) {
      if id < |m.withdrawals| {
        assert ApprovalRule(m.withdrawals[id], ApprovalsOf(m, id));
      }
    }
  }

  lemma OpenedKeepsLog(m: Memory, m': Memory, w: Withdrawal, limits: Limits, now: Instant)
    requires LogLegal(m) && Opened(m, m', w, limits, now)
    ensures LogLegal(m')
  {
    hide SumMap, SumBy, LogOf, AccountOf;
    var id := |m.withdrawals|;
    LogAppend(m.outbox, NewEvent(WithdrawalPayload(id, w), now));
    forall i: nat | i < |m'.withdrawals|
      ensures LegalRun(LogOf(m'.outbox, i), WithdrawalPayload(i, m'.withdrawals[i]))
    {
      if i < id {
        assert LegalRun(LogOf(m.outbox, i), WithdrawalPayload(i, m.withdrawals[i]));
      } else {
        assert LogOf(m'.outbox, i) == [WithdrawalPayload(id, w)];
      }
    }
  }

  lemma AdvancedKeepsLog(m: Memory, m': Memory, id: nat, w: Withdrawal, now: Instant)
    requires DualControl(m) && LogLegal(m) && Advanced(m, m', id, w, now)
    ensures LogLegal(m')
  {
    hide SumMap, SumBy, LogOf, AccountOf, ApprovalRule;
    LogAppend(m.outbox, NewEvent(WithdrawalPayload(id, w), now));
    assert ApprovalRule(m.withdrawals[id], ApprovalsOf(m, id));
    forall i: nat | i < |m'.withdrawals|
      ensures LegalRun(LogOf(m'.outbox, i), WithdrawalPayload(i, m'.withdrawals[i]))
    {
      assert LegalRun(LogOf(m.outbox, i), WithdrawalPayload(i, m.withdrawals[i]));
    }
  }

  lemma LogLegalKept(m: Memory, m': Memory, limits: Limits)
    requires DualControl(m) && LogLegal(m) && Transition(m, m', limits)
    ensures LogLegal(m')
  {
    if w, now: Instant :| Opened(m, m', w, limits, now) {
      OpenedKeepsLog(m, m', w, limits, now);
    } else if id: nat, w, now: Instant :| Advanced(m, m', id, w, now) {
      AdvancedKeepsLog(m, m', id, w, now);
    }
  }

  // ---------- All of it, in every reachable state ----------

  ghost predicate Inv(m: Memory, limits: Limits) {
    && Indexed(m) && LockedExplained(m) && Solvent(m) && Conserved(m)
    && WithinLimits(m, limits) && DualControl(m) && LogLegal(m)
  }

  lemma InvKept(m: Memory, limits: Limits, op: MemoryOp)
    requires Inv(m, limits)
    ensures Inv(Step(m, limits, op), limits)
  {
    var m' := Step(m, limits, op);
    StepTransition(m, limits, op);
    IndexedKept(m, m', limits);
    LockedExplainedKept(m, m', limits);
    ConservedKept(m, m', limits);
    WithinLimitsKept(m, m', limits);
    DualControlKept(m, m', limits);
    LogLegalKept(m, m', limits);
  }

  /** Locked funds are explained, value is conserved, limits and dual control hold and the outbox
      log is legal after every run of any length. */
  lemma {:induction false} EveryRun(limits: Limits, ops: seq<MemoryOp>)
    ensures Inv(Run(limits, ops), limits)
  {
    if ops == [] {
      assert forall id: nat :: LogOf(EMPTY.outbox, id) == [];
    } else {
      EveryRun(limits, ops[..|ops| - 1]);
      InvKept(Run(limits, ops[..|ops| - 1]), limits, ops[|ops| - 1]);
    }
  }

  /** No call of any run ever answers STATE_CORRUPTED. */
  lemma NeverCorrupted(limits: Limits, ops: seq<MemoryOp>, op: Op)
    ensures LedgerStep(Run(limits, ops), limits, op).1 != Refused(StateCorrupted)
  {
    hide Run, SumMap, SumBy, LogOf, IndexWhere, WithdrawalPayload, NewEvent, LockedExplained, DualControl;
    var m := Run(limits, ops);
    EveryRun(limits, ops);
    match op
    case ConfirmOp(id, fee, now) => ConfirmTransition(m, limits, id, fee, now);
    case FailOp(id, reason, now) => FailTransition(m, limits, id, reason, now);
    case _ =>
  }

  ghost predicate OnlyZeroAccountsAdded(before: map<UserId, Account>, after: map<UserId, Account>) {
    && (forall u :: u in before ==> u in after && after[u] == before[u])
    && (forall u :: u in after && u !in before ==> after[u] == ZERO_ACCOUNT)
  }

  /** A refused or duplicated call changes nothing, but for empty accounts it may have opened. */
  lemma RefusalIsAtomic(limits: Limits, ops: seq<MemoryOp>, op: Op)
    requires IsRefusalOrDuplicate(LedgerStep(Run(limits, ops), limits, op).1)
    ensures var m := Run(limits, ops);
            var m' := LedgerStep(m, limits, op).0;
            m' == m.(accounts := m'.accounts) && OnlyZeroAccountsAdded(m.accounts, m'.accounts)
  {
    hide Run, SumBy, IndexWhere, DailyRequested, NewEvent, WithBroadcast;
    NeverCorrupted(limits, ops, op);
  }

  /** COMPLETED and FAILED are absorbing: the whole record is frozen from then on. */
  lemma TerminalFrozen(limits: Limits, ops: seq<MemoryOp>, op: MemoryOp, id: nat)
    requires id < |Run(limits, ops).withdrawals| && !IsActive(Run(limits, ops).withdrawals[id].status)
    ensures var ws := Step(Run(limits, ops), limits, op).withdrawals;
            id < |ws| && ws[id] == Run(limits, ops).withdrawals[id]
  {
    hide Run, Step, SumMap, SumBy, LogOf, AccountOf;
    EveryRun(limits, ops);
    StepTransition(Run(limits, ops), limits, op);
  }
}
