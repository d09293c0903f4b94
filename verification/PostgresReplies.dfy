/** Which calls of the double-entry ledger are answered STATE_CORRUPTED, over all runs. */
module PostgresReplies {
  import opened Domain
  import opened Sums
  import opened PostgresSpec
  import opened PostgresBooks
  import opened PostgresInvariants
  import opened OfflineInvariants
  import Fees = FeeBooks

  // ---------- The rows the lookups rely on ----------

  /** A transfer key has both legs or none. */
  ghost predicate LegsPaired(txs: seq<LedgerTx>) {
    forall key ::
      IndexWhere(txs, IsTransferLeg(key, TransferOutTx)).Some? <==>
      IndexWhere(txs, IsTransferLeg(key, TransferInTx)).Some?
  }

  ghost predicate OwnersHaveRows(t: Tables) {
    forall i :: 0 <= i < |t.withdrawals| ==> t.withdrawals[i].userId in t.accounts
  }

  ghost predicate Rows(t: Tables) {
    LegsPaired(t.transactions) && OwnersHaveRows(t)
  }

  /** Transactions are appended, a transfer with both its legs, or change status only. */
  ghost predicate TxStep(txs: seq<LedgerTx>, txs': seq<LedgerTx>) {
    || txs' == txs
    || (exists tx :: txs' == txs + [tx] && tx.txType != TransferOutTx && tx.txType != TransferInTx)
    || (exists f, to, amount, key, now ::
          txs' == txs + [TransferTxs(f, to, amount, key, now).0, TransferTxs(f, to, amount, key, now).1])
    || (exists i: nat, tx :: i < |txs| && txs' == txs[i := tx] && tx.txType == txs[i].txType
                             && tx.idempotencyKey == txs[i].idempotencyKey)
  }

  lemma TxStepKeepsPairs(txs: seq<LedgerTx>, txs': seq<LedgerTx>)
    requires LegsPaired(txs) && TxStep(txs, txs')
    ensures LegsPaired(txs')
  {
    hide IndexWhere;
    forall key
      ensures IndexWhere(txs', IsTransferLeg(key, TransferOutTx)).Some? <==>
              IndexWhere(txs', IsTransferLeg(key, TransferInTx)).Some?
    {
      var outLeg, inLeg := IsTransferLeg(key, TransferOutTx), IsTransferLeg(key, TransferInTx);
      if tx :| txs' == txs + [tx] && tx.txType != TransferOutTx && tx.txType != TransferInTx {
        IndexAppend(txs, tx, outLeg);
        IndexAppend(txs, tx, inLeg);
      } else if f, to, amount, k, now :|
        txs' == txs + [TransferTxs(f, to, amount, k, now).0, TransferTxs(f, to, amount, k, now).1]
      {
        var (a, b) := TransferTxs(f, to, amount, k, now);
        assert txs' == txs + [a] + [b];
        IndexAppend(txs, a, outLeg);
        IndexAppend(txs + [a], b, outLeg);
        IndexAppend(txs, a, inLeg);
        IndexAppend(txs + [a], b, inLeg);
      } else if i: nat, tx :|
        i < |txs| && txs' == txs[i := tx] && tx.txType == txs[i].txType && tx.idempotencyKey == txs[i].idempotencyKey
      {
        IndexReplace(txs, i, tx, outLeg);
        IndexReplace(txs, i, tx, inLeg);
      }
    }
  }

  /** Rows are never taken away, an ended withdrawal never changes, and a new withdrawal comes
      with its owner's row. */
  ghost predicate RowStep(t: Tables, t': Tables) {
    && t.accounts.Keys <= t'.accounts.Keys
    && TxStep(t.transactions, t'.transactions)
    && |t.withdrawals| <= |t'.withdrawals|
    && (forall i :: 0 <= i < |t.withdrawals| ==> t'.withdrawals[i].userId == t.withdrawals[i].userId)
    && (forall i :: 0 <= i < |t.withdrawals| && !IsActive(t.withdrawals[i].status) ==>
          t'.withdrawals[i] == t.withdrawals[i])
    && (forall i :: |t.withdrawals| <= i < |t'.withdrawals| ==> t'.withdrawals[i].userId in t'.accounts)
  }

  lemma MoneyRows(t: Tables, limits: Limits, op: Op)
    requires op.DepositOp? || op.CreditOp? || op.TransferOp? || op.RequestOp?
    ensures RowStep(t, LedgerStep(t, limits, op).0)
  {
    hide LedgerStep, TxStep;
    PostKeepsRows(t, limits, op);
    if op.RequestOp? {
      RequestRows(t, limits, op);
    } else {
      BookingRows(t, limits, op);
    }
  }

  lemma BookingRows(t: Tables, limits: Limits, op: Op)
    requires op.DepositOp? || op.CreditOp? || op.TransferOp?
    ensures var t' := LedgerStep(t, limits, op).0;
            t.accounts.Keys <= t'.accounts.Keys && t'.withdrawals == t.withdrawals
  {
    hide HasPostings, Projected, IndexWhere, SumBy, TransferTxs, Sync, CurrentBalances, PostedAccounts, Move;
  }

  /** A request that is booked adds one active row of a known user. */
  lemma RequestRows(t: Tables, limits: Limits, op: Op)
    requires op.RequestOp?
    ensures var t' := LedgerStep(t, limits, op).0;
      && t.accounts.Keys <= t'.accounts.Keys
      && (|| t'.withdrawals == t.withdrawals
          || (|t'.withdrawals| == |t.withdrawals| + 1 && t'.withdrawals[..|t.withdrawals|] == t.withdrawals
              && t'.withdrawals[|t.withdrawals|].userId in t'.accounts))
  {
    hide HasPostings, Projected, IndexWhere, SumBy, ForWithdrawal, DailyRequested, WithdrawalPayload, Sync,
         CurrentBalances, PostedAccounts, Move;
  }

  lemma PostKeepsRows(t: Tables, limits: Limits, op: Op)
    requires op.DepositOp? || op.CreditOp? || op.TransferOp? || op.RequestOp?
    ensures var t' := LedgerStep(t, limits, op).0;
            TxStep(t.transactions, t'.transactions)
  {
    hide HasPostings, Projected, IndexWhere, SumBy, ForWithdrawal, DailyRequested, WithdrawalPayload, Sync,
         CurrentBalances, Hydrated, Move, TransferTxs;
    var t' := LedgerStep(t, limits, op).0;
    if t'.transactions != t.transactions {
      if op.TransferOp? {
        assert t'.transactions ==
          t.transactions + [TransferTxs(op.fromUser, op.toUser, op.amount, op.key, op.now).0,
                            TransferTxs(op.fromUser, op.toUser, op.amount, op.key, op.now).1];
      } else {
        assert t'.transactions == t.transactions + [t'.transactions[|t.transactions|]];
      }
    }
  }

  lemma StatusTxs(t: Tables, limits: Limits, op: Op)
    requires !(op.DepositOp? || op.CreditOp? || op.TransferOp? || op.RequestOp?)
    ensures TxStep(t.transactions, LedgerStep(t, limits, op).0.transactions)
  {
    hide HasPostings, Projected, IndexWhere, SumBy, ForWithdrawal, WithdrawalPayload, Sync, CurrentBalances, Hydrated,
         PostedAccounts, WithAuth, WithBroadcast, WithConfirmation, WithFailure, Move;
    var txs' := LedgerStep(t, limits, op).0.transactions;
    if txs' != t.transactions {
      var i := t.withdrawals[op.id].ledgerTx;
      assert txs' == t.transactions[i := txs'[i]];
    }
  }

  /** A step on one withdrawal that had not ended, and on nothing else with rows. */
  lemma OneRowStep(t: Tables, t': Tables, id: nat, w: Withdrawal)
    requires t'.accounts.Keys == t.accounts.Keys && TxStep(t.transactions, t'.transactions)
    requires id < |t.withdrawals| && IsActive(t.withdrawals[id].status) && w.userId == t.withdrawals[id].userId
    requires t'.withdrawals == t.withdrawals[id := w]
    ensures RowStep(t, t')
  {
  }

  lemma StatusRows(t: Tables, limits: Limits, op: Op)
    requires op.CompleteOp? || op.AuthOp? || op.ReviewOp? || op.ApproveOp? || op.BroadcastOp?
    ensures RowStep(t, LedgerStep(t, limits, op).0)
  {
    hide IndexWhere, ForWithdrawal, WithdrawalPayload, Hydrated, TxStep, RowStep;
    var t' := LedgerStep(t, limits, op).0;
    StatusTxs(t, limits, op);
    if t'.withdrawals == t.withdrawals {
      SameRowsStep(t, t');
    } else {
      OneRowStep(t, t', op.id, t'.withdrawals[op.id]);
    }
  }

  lemma SameRowsStep(t: Tables, t': Tables)
    requires t'.accounts.Keys == t.accounts.Keys && TxStep(t.transactions, t'.transactions)
    requires t'.withdrawals == t.withdrawals
    ensures RowStep(t, t')
  {
  }

  lemma SettleRows(t: Tables, limits: Limits, op: Op)
    requires op.ConfirmOp? || op.FailOp?
    ensures RowStep(t, LedgerStep(t, limits, op).0)
  {
    hide HasPostings, Projected, IndexWhere, SumBy, ForWithdrawal, WithdrawalPayload, Sync, CurrentBalances, Hydrated,
         TxStep, RowStep, SetTx, TxAt, PostedAccounts;
    var t' := LedgerStep(t, limits, op).0;
    StatusTxs(t, limits, op);
    if t' == t {
      SameRowsStep(t, t');
    } else {
      OneRowStep(t, t', op.id, t'.withdrawals[op.id]);
    }
  }

  lemma LedgerRows(t: Tables, limits: Limits, op: Op)
    ensures RowStep(t, LedgerStep(t, limits, op).0)
  {
    hide LedgerStep, RowStep;
    if op.ConfirmOp? || op.FailOp? {
      SettleRows(t, limits, op);
    } else if op.DepositOp? || op.CreditOp? || op.TransferOp? || op.RequestOp? {
      MoneyRows(t, limits, op);
    } else {
      StatusRows(t, limits, op);
    }
  }

  /** Accounts may be added; all other rows but devices and journals stay. */
  ghost predicate AccountsGrow(t: Tables, t': Tables) {
    t.accounts.Keys <= t'.accounts.Keys && t'.transactions == t.transactions && t'.withdrawals == t.withdrawals
    && t'.feeReceipts == t.feeReceipts && t'.sweeps == t.sweeps && t'.approvals == t.approvals
  }

  lemma PartsGrow(t: Tables, s: Settlement)
    ensures AccountsGrow(t, PayReceiver(t, s)) && AccountsGrow(t, EnsureAffected(t, s))
  {
    hide PaysReceiver, ResolveReceiver, ReceiverCredit, PostedAccounts;
  }

  lemma FinalizeRows(t: Tables, s: Settlement)
    ensures AccountsGrow(t, Finalize(t, s).0)
  {
    hide Projected, IndexWhere, SumBy, Net, Sync, ResolveReceiver, SettlementFee, SenderPostings, SettleResult,
         AffectedUsers, PaysReceiver, ReceiverCredit, PayReceiver, EnsureAffected, PostedAccounts;
    var t1 := EnsureAffected(t, s);
    PartsGrow(t, s);
    PartsGrow(t1, s);
    PartsGrow(AppendJournal(t1, SettlementRef(s.id), Kori, SenderPostings(s), s.now), s);
  }

  lemma OfflineRows(t: Tables, op: OfflineOp)
    ensures AccountsGrow(t, OfflineStep(t, op).0)
  {
    hide HasPostings, Projected, IndexWhere, Sync, CurrentBalances, Finalize, Compensate, ReconcileBalance,
         ReconcilePending, Move;
    match op
    case FinalizeOp(s) => FinalizeRows(t, s);
    case CompensateOp(_, _, _, _, _) => UncheckedRows(t, op);
    case ReconcileBalanceOp(_, _, _) => UncheckedRows(t, op);
    case ReconcilePendingOp(_, _, _) => UncheckedRows(t, op);
    case _ =>
  }

  lemma UncheckedRows(t: Tables, op: OfflineOp)
    requires op.CompensateOp? || op.ReconcileBalanceOp? || op.ReconcilePendingOp?
    ensures AccountsGrow(t, OfflineStep(t, op).0)
  {
    hide Projected, IndexWhere, SumBy, Net, Sync, ReconcilePostings, LiabilityOf, HasFootprint, PostedAccounts;
  }

  lemma SweepRows(t: Tables, op: Fees.SweepOp)
    ensures var t' := SweepCall(t, op).0;
            t'.accounts == t.accounts && t'.transactions == t.transactions && t'.withdrawals == t.withdrawals
            && t'.approvals == t.approvals
  {
  }

  lemma RowStepKeeps(t: Tables, t': Tables)
    requires Rows(t) && RowStep(t, t')
    ensures Rows(t')
  {
    hide LegsPaired, TxStep;
    TxStepKeepsPairs(t.transactions, t'.transactions);
  }

  lemma RowsKept(t: Tables, limits: Limits, op: PostgresOp)
    requires Rows(t)
    ensures Rows(Step(t, limits, op))
  {
    hide LegsPaired, LedgerStep, OfflineStep;
    match op
    case Ledger(lop) =>
      LedgerRows(t, limits, lop);
      RowStepKeeps(t, Step(t, limits, op));
    case Offline(oop) => OfflineRows(t, oop);
    case Sweep(sweep) => SweepRows(t, sweep);
  }

  lemma {:induction false} EveryRunHasRows(limits: Limits, ops: seq<PostgresOp>)
    ensures Rows(Run(limits, ops))
  {
    hide Step;
    if ops != [] {
      EveryRunHasRows(limits, ops[..|ops| - 1]);
      RowsKept(Run(limits, ops[..|ops| - 1]), limits, ops[|ops| - 1]);
    }
  }

  /** COMPLETED and FAILED are absorbing in the database too: the stored row is frozen from then on. */
  lemma EndedFrozen(t: Tables, limits: Limits, op: PostgresOp, id: nat)
    requires id < |t.withdrawals| && !IsActive(t.withdrawals[id].status)
    ensures var ws := Step(t, limits, op).withdrawals; id < |ws| && ws[id] == t.withdrawals[id]
  {
    hide TxStep, LedgerStep, OfflineStep;
    match op
    case Ledger(lop) => LedgerRows(t, limits, lop);
    case Offline(oop) => OfflineRows(t, oop);
    case Sweep(sweep) => SweepRows(t, sweep);
  }

  // ---------- The answers ----------

  /** Settling or releasing this withdrawal is asked for in a status that allows it. */
  predicate Settles(t: Tables, op: Op) {
    || (op.ConfirmOp? && op.id < |t.withdrawals| && t.withdrawals[op.id].status == TxBroadcasted)
    || (op.FailOp? && op.id < |t.withdrawals| && IsActive(t.withdrawals[op.id].status))
  }

  lemma TransferNotCorrupted(t: Tables, f: UserId, to: UserId, amount: nat, key: string, now: Instant)
    requires LegsPaired(t.transactions)
    ensures Transfer(t, f, to, amount, key, now).1 != Refused(StateCorrupted)
  {
    hide IndexWhere, SumBy, Sync, CurrentBalances;
    if SumBy(t.transactions, CountRow(IsTransferRow(key))) >= 2 {
      if IndexWhere(t.transactions, IsTransferLeg(key, TransferOutTx)).None? {
        SumZero(t.transactions, CountRow(IsTransferRow(key)));
      }
    }
  }

  lemma SettleAnswer(t: Tables, limits: Limits, op: Op)
    requires OwnersHaveRows(t) && (op.ConfirmOp? || op.FailOp?)
    ensures LedgerStep(t, limits, op).1 == Refused(StateCorrupted) <==>
              && Settles(t, op)
              && CurrentBalances(t, t.withdrawals[op.id].userId).lockedBalance < t.withdrawals[op.id].amount
  {
    hide CurrentBalances, Sync, ForWithdrawal;
  }

  lemma OtherAnswers(t: Tables, limits: Limits, op: Op)
    requires LegsPaired(t.transactions) && !op.ConfirmOp? && !op.FailOp?
    ensures LedgerStep(t, limits, op).1 != Refused(StateCorrupted)
  {
    hide CurrentBalances, Sync, ForWithdrawal, IndexWhere, DailyRequested, SumBy, Transfer;
    if op.TransferOp? {
      TransferNotCorrupted(t, op.fromUser, op.toUser, op.amount, op.key, op.now);
    }
  }

  /** In every run a call is answered STATE_CORRUPTED exactly when it settles or releases a withdrawal
      whose user has offline-pending below zero by more than the user's other active withdrawals. */
  lemma CorruptedExactly(limits: Limits, ops: seq<PostgresOp>, op: Op)
    ensures var t := Run(limits, ops);
            LedgerStep(t, limits, op).1 == Refused(StateCorrupted) <==>
              && Settles(t, op)
              && var w := t.withdrawals[op.id];
                 Net(t.journals, OfflinePending(w.userId)) < w.amount - ActiveSum(t.withdrawals, w.userId)
  {
    hide Run, LedgerStep, LegsPaired, Inv, CurrentBalances, Net, SumBy;
    var t := Run(limits, ops);
    EveryRun(limits, ops);
    EveryRunHasRows(limits, ops);
    if op.ConfirmOp? || op.FailOp? {
      SettleAnswer(t, limits, op);
      if Settles(t, op) {
        UnderflowExactly(t, op.id);
      }
    } else {
      OtherAnswers(t, limits, op);
    }
  }

  /** Hence in a run whose callers saw to the unchecked debits no call of any kind is. */
  lemma SafeRunsNeverCorrupted(limits: Limits, ops: seq<PostgresOp>, op: PostgresOp)
    requires SafeRun(limits, ops)
    ensures var t := Run(limits, ops);
            match op
            case Ledger(lop) => LedgerStep(t, limits, lop).1 != Refused(StateCorrupted)
            case Offline(oop) => OfflineStep(t, oop).1 != OfflineRefused(StateCorrupted)
            case Sweep(sweep) => SweepCall(t, sweep).1 != Fees.SweepRefused(StateCorrupted)
  {
    hide Run, LedgerStep, Inv, SafeRun, Net, SumBy, CurrentBalances, OfflineStep;
    var t := Run(limits, ops);
    match op
    case Ledger(lop) =>
      CorruptedExactly(limits, ops, lop);
      if Settles(t, lop) {
        SafeRunsNeverUnderflow(limits, ops, lop.id);
        EveryRun(limits, ops);
        UnderflowExactly(t, lop.id);
      }
    case Offline(oop) => OfflineAnswers(t, oop);
    case Sweep(_) =>
  }

  lemma OfflineAnswers(t: Tables, op: OfflineOp)
    ensures OfflineStep(t, op).1 != OfflineRefused(StateCorrupted)
  {
    hide CurrentBalances, Sync, Net, Projected, IndexWhere, SettlementFee, ResolveReceiver;
  }
}
