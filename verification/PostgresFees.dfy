/** Network fee receipts and TRX journals of the double-entry ledger agree in every reachable state. */
module PostgresFees {
  import opened Domain
  import opened Sums
  import opened PostgresSpec
  import opened PostgresBooks
  import opened PostgresInvariants
  import opened OfflineInvariants
  import PostgresReplies
  import Fees = FeeBooks

  function FeeSun(): FeeReceipt -> int {
    (r: FeeReceipt) => r.fee.feeSun
  }

  /** The receipt of a withdrawal that is COMPLETED, or of a sweep that is confirmed. */
  ghost predicate IsSettledReceipt(t: Tables, r: FeeReceipt) {
    exists id: nat ::
      || (r.reference == Reference(RefWithdrawal, Uuid(id)) && id < |t.withdrawals|
          && t.withdrawals[id].status == Completed)
      || (r.reference == SweepRef(id) && id < |t.sweeps| && t.sweeps[id].status == Fees.Confirmed)
  }

  predicate IsWallet(a: LedgerAccount) {
    a == System(HotWalletTrx) || a == System(SweepSourceTrx)
  }

  predicate IsExpense(a: LedgerAccount) {
    a == System(WithdrawNetworkFee) || a == System(SweepNetworkFee)
  }

  /** Paid out of the TRX wallets, and booked as expense. */
  function PaidTrx(js: seq<Journal>): int {
    Net(js, System(HotWalletTrx)) + Net(js, System(SweepSourceTrx))
  }

  function ExpensedTrx(js: seq<Journal>): int {
    0 - Net(js, System(WithdrawNetworkFee)) - Net(js, System(SweepNetworkFee))
  }

  ghost predicate FeesAgree(t: Tables) {
    && (forall k :: 0 <= k < |t.feeReceipts| ==> IsSettledReceipt(t, t.feeReceipts[k]))
    && (forall j, k :: 0 <= j < k < |t.feeReceipts| ==> t.feeReceipts[j].reference != t.feeReceipts[k].reference)
    && SumBy(t.feeReceipts, FeeSun()) == PaidTrx(t.journals) == ExpensedTrx(t.journals)
  }

  // ---------- Only confirmations touch TRX ----------

  predicate SparesTrx(j: Journal) {
    forall k :: 0 <= k < |j.postings| ==> !IsWallet(j.postings[k].account) && !IsExpense(j.postings[k].account)
  }

  lemma {:induction false} PostingsSpareTrx(ps: seq<Posting>, a: LedgerAccount)
    requires forall k :: 0 <= k < |ps| ==> ps[k].account != a
    ensures SumBy(ps, EffectOn(a)) == 0
  {
    if ps != [] {
      PostingsSpareTrx(ps[..|ps| - 1], a);
    }
  }

  lemma {:induction false} SparedNet(js: seq<Journal>, written: seq<Journal>, a: LedgerAccount)
    requires IsWallet(a) || IsExpense(a)
    requires forall k :: 0 <= k < |written| ==> SparesTrx(written[k])
    ensures Net(js + written, a) == Net(js, a)
  {
    hide Net, SumBy, IsWallet, IsExpense;
    if written == [] {
      assert js + written == js;
    } else {
      var last := |written| - 1;
      SparedNet(js, written[..last], a);
      NetAppend(js + written[..last], written[last], a);
      assert js + written == js + written[..last] + [written[last]];
      PostingsSpareTrx(written[last].postings, a);
    }
  }

  predicate BooksTrx(op: PostgresOp) {
    (op.Ledger? && op.op.ConfirmOp?) || op.Sweep?
  }

  lemma OtherJournalsSpareTrx(t: Tables, op: PostgresOp)
    requires !BooksTrx(op)
    ensures forall k :: 0 <= k < |StepJournals(t, op)| ==> SparesTrx(StepJournals(t, op)[k])
  {
    hide Net, Accepts, WritesReceiver, ReceiverCredit, LiabilityOf, ResolveReceiver, FeeOf, IndexWhere;
  }

  lemma OthersSpareTrx(t: Tables, limits: Limits, op: PostgresOp)
    requires Inv(t) && !BooksTrx(op)
    ensures var js' := Step(t, limits, op).journals;
            PaidTrx(js') == PaidTrx(t.journals) && ExpensedTrx(js') == ExpensedTrx(t.journals)
  {
    hide Inv, Step, StepJournals, Net, SparesTrx;
    StepWrites(t, limits, op);
    OtherJournalsSpareTrx(t, op);
    var written := StepJournals(t, op);
    SparedNet(t.journals, written, System(HotWalletTrx));
    SparedNet(t.journals, written, System(SweepSourceTrx));
    SparedNet(t.journals, written, System(WithdrawNetworkFee));
    SparedNet(t.journals, written, System(SweepNetworkFee));
  }

  // ---------- Receipts ----------

  lemma ReceiptsKept(t: Tables, limits: Limits, op: Op)
    requires !op.ConfirmOp?
    ensures LedgerStep(t, limits, op).0.feeReceipts == t.feeReceipts && LedgerStep(t, limits, op).0.sweeps == t.sweeps
  {
    hide HasPostings, Projected, IndexWhere, SumBy, ForWithdrawal, WithdrawalPayload, Sync, CurrentBalances, Hydrated,
         TransferTxs, DailyRequested, PostedAccounts;
  }

  /** Whatever else happens, ended withdrawals and sweeps stay, and so do the fee books. */
  lemma OthersKeep(t: Tables, t': Tables)
    requires FeesAgree(t)
    requires PaidTrx(t'.journals) == PaidTrx(t.journals) && ExpensedTrx(t'.journals) == ExpensedTrx(t.journals)
    requires t'.feeReceipts == t.feeReceipts && EndedStay(t, t')
    ensures FeesAgree(t')
  {
    hide Net, SumBy, PaidTrx, ExpensedTrx;
    forall k | 0 <= k < |t'.feeReceipts| ensures IsSettledReceipt(t', t'.feeReceipts[k]) {
      StillSettled(t, t', t.feeReceipts[k]);
    }
  }

  ghost predicate EndedStay(t: Tables, t': Tables) {
    && |t.withdrawals| <= |t'.withdrawals| && |t.sweeps| <= |t'.sweeps|
    && (forall i :: 0 <= i < |t.withdrawals| && !IsActive(t.withdrawals[i].status) ==>
          t'.withdrawals[i] == t.withdrawals[i])
    && (forall i :: 0 <= i < |t.sweeps| && t.sweeps[i].status == Fees.Confirmed ==> t'.sweeps[i] == t.sweeps[i])
  }

  lemma StillSettled(t: Tables, t': Tables, r: FeeReceipt)
    requires EndedStay(t, t') && IsSettledReceipt(t, r)
    ensures IsSettledReceipt(t', r)
  {
    var id: nat :|
      || (r.reference == Reference(RefWithdrawal, Uuid(id)) && id < |t.withdrawals|
          && t.withdrawals[id].status == Completed)
      || (r.reference == SweepRef(id) && id < |t.sweeps| && t.sweeps[id].status == Fees.Confirmed);
  }

  /** What a confirmation that goes through leaves behind. */
  ghost predicate Confirmed(t: Tables, t': Tables, id: nat, fee: Option<NetworkFee>, now: Instant)
    requires id < |t.withdrawals|
  {
    var w := t.withdrawals[id];
    && t'.withdrawals == t.withdrawals[id := WithConfirmation(w, now)]
    && t'.journals == t.journals + PayoutJournals(w, id, fee, now)
    && t'.sweeps == t.sweeps
    && t'.feeReceipts == (if fee.Some? && w.txHash.Some? && w.txHash.value != ""
                          then AddReceipt(t, Reference(RefWithdrawal, Uuid(id)), fee.value, now).feeReceipts
                          else t.feeReceipts)
  }

  lemma ConfirmShape(t: Tables, id: nat, fee: Option<NetworkFee>, now: Instant)
    ensures var t' := Confirm(t, id, fee, now).0;
      t' == t || (id < |t.withdrawals| && t.withdrawals[id].status == TxBroadcasted && Confirmed(t, t', id, fee, now))
  {
    hide HasPostings, Projected, IndexWhere, SumBy, ForWithdrawal, WithdrawalPayload, Sync, CurrentBalances, SetTx,
         TxAt, PostedAccounts;
  }

  lemma PayoutTrx(js: seq<Journal>, w: Withdrawal, id: nat, fee: Option<NetworkFee>, now: Instant)
    ensures var written := PayoutJournals(w, id, fee, now);
            var paid := if |written| == 2 then fee.value.feeSun else 0;
      PaidTrx(js + written) == PaidTrx(js) + paid && ExpensedTrx(js + written) == ExpensedTrx(js) + paid
  {
    hide SumBy, Net;
    var written := PayoutJournals(w, id, fee, now);
    NetMove(js, written[0], WithdrawPending(w.userId), System(HotWallet), w.amount);
    if |written| == 2 {
      NetMove(js + [written[0]], written[1], System(WithdrawNetworkFee), System(HotWalletTrx), fee.value.feeSun);
      assert js + written == js + [written[0]] + [written[1]];
    } else {
      assert written == [written[0]];
    }
  }

  /** One more receipt, of something that has just ended, with its TRX journal. */
  lemma ReceiptAdded(t: Tables, t': Tables, reference: Reference, fee: NetworkFee, now: Instant)
    requires FeesAgree(t) && EndedStay(t, t')
    requires t'.feeReceipts == t.feeReceipts + [FeeReceipt(reference, fee, now)]
    requires forall k :: 0 <= k < |t.feeReceipts| ==> t.feeReceipts[k].reference != reference
    requires IsSettledReceipt(t', FeeReceipt(reference, fee, now))
    requires PaidTrx(t'.journals) == PaidTrx(t.journals) + fee.feeSun
    requires ExpensedTrx(t'.journals) == ExpensedTrx(t.journals) + fee.feeSun
    ensures FeesAgree(t')
  {
    hide Net, SumBy, PaidTrx, ExpensedTrx, IsSettledReceipt;
    SumAppend(t.feeReceipts, FeeReceipt(reference, fee, now), FeeSun());
    forall k | 0 <= k < |t.feeReceipts| ensures IsSettledReceipt(t', t.feeReceipts[k]) {
      StillSettled(t, t', t.feeReceipts[k]);
    }
  }

  /** What has not ended has no receipt yet. */
  lemma NoReceiptYet(t: Tables, reference: Reference, id: nat)
    requires FeesAgree(t)
    requires || (reference == Reference(RefWithdrawal, Uuid(id)) && id < |t.withdrawals|
                 && t.withdrawals[id].status != Completed)
             || (reference == SweepRef(id) && id < |t.sweeps| && t.sweeps[id].status != Fees.Confirmed)
    ensures forall k :: 0 <= k < |t.feeReceipts| ==> t.feeReceipts[k].reference != reference
    ensures IndexWhere(t.feeReceipts, IsReceiptFor(reference)).None?
  {
    hide SumBy, Net;
    forall k | 0 <= k < |t.feeReceipts| ensures t.feeReceipts[k].reference != reference {
      assert IsSettledReceipt(t, t.feeReceipts[k]);
    }
  }

  lemma ConfirmKeeps(t: Tables, id: nat, fee: Option<NetworkFee>, now: Instant)
    requires FeesAgree(t)
    ensures FeesAgree(Confirm(t, id, fee, now).0)
  {
    hide Net, SumBy, Confirm, IndexWhere, PayoutJournals, FeesAgree, PaidTrx, ExpensedTrx;
    var t' := Confirm(t, id, fee, now).0;
    ConfirmShape(t, id, fee, now);
    if t' != t {
      var reference := Reference(RefWithdrawal, Uuid(id));
      PayoutTrx(t.journals, t.withdrawals[id], id, fee, now);
      HasFee(t.withdrawals[id], id, fee, now);
      NoReceiptYet(t, reference, id);
      if |PayoutJournals(t.withdrawals[id], id, fee, now)| == 2 {
        assert t'.withdrawals[id].status == Completed;
        ReceiptAdded(t, t', reference, fee.value, now);
      } else {
        OthersKeep(t, t');
      }
    }
  }

  lemma SweepKeeps(t: Tables, op: Fees.SweepOp)
    requires FeesAgree(t)
    ensures FeesAgree(SweepCall(t, op).0)
  {
    hide Net, SumBy, IndexWhere, FeesAgree, PaidTrx, ExpensedTrx;
    var (t', reply) := SweepCall(t, op);
    if Fees.BooksFee(op, reply) {
      NoReceiptYet(t, SweepRef(op.id), op.id);
      SweepTrx(t.journals, op.id, op.fee.value, op.now);
      assert t'.sweeps[op.id].status == Fees.Confirmed;
      ReceiptAdded(t, t', SweepRef(op.id), op.fee.value, op.now);
    } else {
      OthersKeep(t, t');
    }
  }

  lemma SweepTrx(js: seq<Journal>, id: nat, fee: NetworkFee, now: Instant)
    ensures var j := Journal(SweepRef(id), Trx, Move(System(SweepNetworkFee), System(SweepSourceTrx), fee.feeSun), now);
      PaidTrx(js + [j]) == PaidTrx(js) + fee.feeSun && ExpensedTrx(js + [j]) == ExpensedTrx(js) + fee.feeSun
  {
    hide SumBy, Net;
    var j := Journal(SweepRef(id), Trx, Move(System(SweepNetworkFee), System(SweepSourceTrx), fee.feeSun), now);
    NetMove(js, j, System(SweepNetworkFee), System(SweepSourceTrx), fee.feeSun);
  }

  lemma HasFee(w: Withdrawal, id: nat, fee: Option<NetworkFee>, now: Instant)
    ensures |PayoutJournals(w, id, fee, now)| == 2 <==> fee.Some? && w.txHash.Some? && w.txHash.value != ""
  {
  }

  lemma StepKeepsFees(t: Tables, limits: Limits, op: PostgresOp)
    requires Inv(t) && FeesAgree(t)
    ensures FeesAgree(Step(t, limits, op))
  {
    hide Inv, FeesAgree, PaidTrx, ExpensedTrx, LedgerStep, OfflineStep, Confirm, SweepCall, PostgresReplies.TxStep;
    match op
    case Ledger(lop) =>
      if lop.ConfirmOp? {
        ConfirmKeeps(t, lop.id, lop.fee, lop.now);
        ConfirmIs(t, limits, lop);
      } else {
        PostgresReplies.LedgerRows(t, limits, lop);
        ReceiptsKept(t, limits, lop);
        OthersSpareTrx(t, limits, op);
        OthersKeep(t, Step(t, limits, op));
      }
    case Offline(oop) =>
      PostgresReplies.OfflineRows(t, oop);
      OthersSpareTrx(t, limits, op);
      OthersKeep(t, Step(t, limits, op));
    case Sweep(sweep) => SweepKeeps(t, sweep);
  }

  lemma ConfirmIs(t: Tables, limits: Limits, op: Op)
    requires op.ConfirmOp?
    ensures LedgerStep(t, limits, op) == Confirm(t, op.id, op.fee, op.now)
  {
  }

  /** After every run: at most one receipt a reference, each of a COMPLETED withdrawal or a confirmed
      sweep, and the receipts add up to what the TRX journals took from the wallets and expensed. */
  lemma {:induction false} EveryRunFeesAgree(limits: Limits, ops: seq<PostgresOp>)
    ensures FeesAgree(Run(limits, ops))
  {
    hide Step, Inv;
    if ops != [] {
      EveryRunFeesAgree(limits, ops[..|ops| - 1]);
      EveryRun(limits, ops[..|ops| - 1]);
      StepKeepsFees(Run(limits, ops[..|ops| - 1]), limits, ops[|ops| - 1]);
    }
  }
}
