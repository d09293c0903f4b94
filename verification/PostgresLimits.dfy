/** Withdrawal limits and dual control of the double-entry ledger, over every run of all its calls. */
module PostgresLimits {
  import opened Domain
  import opened Sums
  import opened PostgresSpec
  import PostgresReplies
  import MI = MemoryInvariants

  ghost predicate WithinLimits(t: Tables, limits: Limits) {
    && (forall i :: 0 <= i < |t.withdrawals| ==> t.withdrawals[i].amount <= limits.singleLimit)
    && (forall u, day :: DailyRequested(t.withdrawals, u, day) <= limits.dailyLimit)
  }

  /** The rule of the in-memory ledger, on the stored row with its approval rows counted. */
  ghost predicate RuleAt(t: Tables, id: nat)
    requires id < |t.withdrawals|
  {
    MI.ApprovalRule(Hydrated(t, id), ForWithdrawal(t.approvals, id))
  }

  /** Every withdrawal obeys the rule, and no approval waits for a withdrawal to come. */
  ghost predicate DualControl(t: Tables) {
    && (forall id: nat :: id < |t.withdrawals| ==> RuleAt(t, id))
    && (forall id: nat :: id >= |t.withdrawals| ==> ForWithdrawal(t.approvals, id) == [])
  }

  // ---------- What one call can do to withdrawals and approvals ----------

  ghost predicate Opened(t: Tables, t': Tables, limits: Limits) {
    && |t'.withdrawals| == |t.withdrawals| + 1 && t'.approvals == t.approvals
    && var w := t'.withdrawals[|t.withdrawals|];
    && t'.withdrawals == t.withdrawals + [w]
    && w.status == LedgerReserved && w.amount <= limits.singleLimit
    && DailyRequested(t.withdrawals, w.userId, DayOf(w.createdAt)) + w.amount <= limits.dailyLimit
  }

  ghost predicate Moved(t: Tables, t': Tables, id: nat) {
    && id < |t.withdrawals| == |t'.withdrawals| && t'.withdrawals == t.withdrawals[id := t'.withdrawals[id]]
    && var v, w := t.withdrawals[id], t'.withdrawals[id];
    && w.userId == v.userId && w.amount == v.amount && w.createdAt == v.createdAt && IsActive(v.status)
    && (forall i: nat :: i != id ==> ForWithdrawal(t'.approvals, i) == ForWithdrawal(t.approvals, i))
    && (RuleAt(t, id) ==> RuleAt(t', id))
  }

  ghost predicate Unmoved(t: Tables, t': Tables) {
    t'.withdrawals == t.withdrawals && t'.approvals == t.approvals
  }

  ghost predicate WithdrawalStep(t: Tables, t': Tables, limits: Limits) {
    Unmoved(t, t') || Opened(t, t', limits) || exists id: nat :: Moved(t, t', id)
  }

  lemma RequestIsStep(t: Tables, limits: Limits, op: Op)
    requires op.RequestOp?
    ensures var t' := LedgerStep(t, limits, op).0; Unmoved(t, t') || Opened(t, t', limits)
  {
    hide HasPostings, Projected, IndexWhere, SumBy, ForWithdrawal, WithdrawalPayload, Sync, CurrentBalances,
         PostedAccounts, DailyRequested;
  }

  lemma OtherIsStep(t: Tables, limits: Limits, op: Op)
    requires op.DepositOp? || op.CompleteOp? || op.CreditOp? || op.TransferOp?
    ensures Unmoved(t, LedgerStep(t, limits, op).0)
  {
    hide HasPostings, Projected, IndexWhere, SumBy, Sync, CurrentBalances, PostedAccounts, TransferTxs;
  }

  lemma StatusIsStep(t: Tables, limits: Limits, op: Op)
    requires op.AuthOp? || op.ReviewOp? || op.BroadcastOp?
    ensures var t' := LedgerStep(t, limits, op).0; Unmoved(t, t') || Moved(t, t', op.id)
  {
    hide ForWithdrawal, WithdrawalPayload;
  }

  lemma ConfirmIsStep(t: Tables, id: nat, fee: Option<NetworkFee>, now: Instant)
    ensures var t' := Confirm(t, id, fee, now).0; Unmoved(t, t') || Moved(t, t', id)
  {
    hide HasPostings, Projected, IndexWhere, SumBy, ForWithdrawal, WithdrawalPayload, Sync, CurrentBalances,
         PostedAccounts, SetTx, TxAt, MI.DistinctAdmins, Move;
  }

  lemma FailIsStep(t: Tables, id: nat, reason: string, now: Instant)
    ensures var t' := Fail(t, id, reason, now).0; Unmoved(t, t') || Moved(t, t', id)
  {
    hide HasPostings, Projected, IndexWhere, SumBy, ForWithdrawal, WithdrawalPayload, Sync, CurrentBalances,
         PostedAccounts, SetTx, TxAt, MI.DistinctAdmins;
  }

  lemma SettleIsStep(t: Tables, limits: Limits, op: Op)
    requires op.ConfirmOp? || op.FailOp?
    ensures var t' := LedgerStep(t, limits, op).0; Unmoved(t, t') || Moved(t, t', op.id)
  {
    hide Confirm, Fail, Unmoved, Moved;
    if op.ConfirmOp? {
      ConfirmIsStep(t, op.id, op.fee, op.now);
    } else {
      FailIsStep(t, op.id, op.reason, op.now);
    }
  }

  lemma ApprovalAdded(rows: seq<Approval>, a: Approval)
    ensures forall i: nat :: ForWithdrawal(rows + [a], i) == ForWithdrawal(rows, i) + if i == a.withdrawalId then [a] else []
  {
    assert (rows + [a])[..|rows|] == rows;
  }

  lemma {:induction false} NoApprovalBy(rows: seq<Approval>, id: nat, adminId: string)
    requires IndexWhere(rows, IsApprovalBy(id, adminId)).None?
    ensures forall k :: 0 <= k < |ForWithdrawal(rows, id)| ==> ForWithdrawal(rows, id)[k].adminId != adminId
  {
    if rows != [] {
      NoApprovalBy(rows[..|rows| - 1], id, adminId);
    }
  }

  lemma ApproveIsStep(t: Tables, id: nat, adminId: string, now: Instant)
    ensures var t' := Approve(t, id, adminId, now).0; Unmoved(t, t') || Moved(t, t', id)
  {
    hide IndexWhere, ForWithdrawal, WithdrawalPayload;
    if id < |t.withdrawals| && t.withdrawals[id].status == PendingAdmin
       && IndexWhere(t.approvals, IsApprovalBy(id, adminId)).None? {
      ApprovalAdded(t.approvals, Approval(id, adminId, now));
      NoApprovalBy(t.approvals, id, adminId);
    }
  }

  lemma StepIsStep(t: Tables, limits: Limits, op: PostgresOp)
    ensures WithdrawalStep(t, Step(t, limits, op), limits)
  {
    hide Unmoved, Opened, Moved, LedgerStep, OfflineStep, SweepCall;
    match op
    case Ledger(lop) =>
      if lop.RequestOp? {
        RequestIsStep(t, limits, lop);
      } else if lop.ConfirmOp? || lop.FailOp? {
        SettleIsStep(t, limits, lop);
      } else if lop.ApproveOp? {
        ApproveIsStep(t, lop.id, lop.adminId, lop.now);
        ApproveIs(t, limits, lop);
      } else if lop.AuthOp? || lop.ReviewOp? || lop.BroadcastOp? {
        StatusIsStep(t, limits, lop);
      } else {
        OtherIsStep(t, limits, lop);
      }
    case Offline(oop) =>
      PostgresReplies.OfflineRows(t, oop);
      UnmovedIs(t, Step(t, limits, op));
    case Sweep(sweep) =>
      PostgresReplies.SweepRows(t, sweep);
      UnmovedIs(t, Step(t, limits, op));
  }

  lemma UnmovedIs(t: Tables, t': Tables)
    requires t'.withdrawals == t.withdrawals && t'.approvals == t.approvals
    ensures Unmoved(t, t')
  {
  }

  lemma ApproveIs(t: Tables, limits: Limits, op: Op)
    requires op.ApproveOp?
    ensures LedgerStep(t, limits, op) == Approve(t, op.id, op.adminId, op.now)
  {
  }

  // ---------- Every step keeps both ----------

  lemma LimitsKept(t: Tables, t': Tables, limits: Limits)
    requires WithinLimits(t, limits) && WithdrawalStep(t, t', limits)
    ensures WithinLimits(t', limits)
  {
    hide SumBy, ForWithdrawal, RuleAt;
    forall u, day ensures DailyRequested(t'.withdrawals, u, day) <= limits.dailyLimit {
      assert DailyRequested(t.withdrawals, u, day) <= limits.dailyLimit;
      if Opened(t, t', limits) {
        SumAppend(t.withdrawals, t'.withdrawals[|t.withdrawals|], CountedOn(u, day));
      } else if id: nat :| Moved(t, t', id) {
        SumUpdate(t.withdrawals, id, t'.withdrawals[id], CountedOn(u, day));
      }
    }
  }

  lemma DualControlKept(t: Tables, t': Tables, limits: Limits)
    requires DualControl(t) && WithdrawalStep(t, t', limits)
    ensures DualControl(t')
  {
    hide ForWithdrawal, DailyRequested;
    forall id: nat | id < |t'.withdrawals| ensures RuleAt(t', id) {
      assert id < |t.withdrawals| ==> RuleAt(t, id);
    }
  }

  /** In every reachable state: each amount within the single limit, each user's day within the daily
      limit; distinct approvers, as many as the row counts, fewer than required while pending and exactly
      the required number once approved. */
  lemma {:induction false} EveryRun(limits: Limits, ops: seq<PostgresOp>)
    ensures WithinLimits(Run(limits, ops), limits) && DualControl(Run(limits, ops))
  {
    hide Step, WithdrawalStep;
    if ops != [] {
      var t := Run(limits, ops[..|ops| - 1]);
      EveryRun(limits, ops[..|ops| - 1]);
      StepIsStep(t, limits, ops[|ops| - 1]);
      DualControlKept(t, Run(limits, ops), limits);
      LimitsKept(t, Run(limits, ops), limits);
    }
  }
}
