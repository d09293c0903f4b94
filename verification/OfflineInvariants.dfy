/** The offline-pay transactions keep the books too; with them, every run of the double-entry ledger. */
module OfflineInvariants {
  import opened Domain
  import opened Sums
  import opened PostgresSpec
  import opened PostgresBooks
  import opened PostgresInvariants
  import Fees = FeeBooks

  lemma LockStep(t: Tables, u: UserId, amount: nat, referenceId: string, now: Instant)
    requires Inv(t)
    ensures var t' := LockCollateral(t, u, amount, referenceId, now).0;
      && Inv(t')
      && (|| Still(t, t')
          || (&& amount <= Net(t.journals, Available(u))
              && Single(t, t', Reference(RefOfflineLock, Text(referenceId)), Available(u), OfflinePending(u), amount,
                        now)))
  {
    hide Inv, Books, PendingExplained, HasPostings, Net, SumBy, IndexWhere;
    var t' := LockCollateral(t, u, amount, referenceId, now).0;
    EnsureInv(t, u);
    CurrentIsProjected(Ensure(t, u), u);
    if t' != t {
      PostOne(t, Ensure(t, u), t', [u], Reference(RefOfflineLock, Text(referenceId)), Available(u), OfflinePending(u),
              amount, now);
    }
  }

  lemma ReleaseStep(t: Tables, u: UserId, amount: nat, referenceId: string, now: Instant)
    requires Inv(t)
    ensures var t' := ReleaseCollateral(t, u, amount, referenceId, now).0;
      && Inv(t')
      && (|| Still(t, t')
          || (&& amount <= Net(t.journals, OfflinePending(u))
              && Single(t, t', Reference(RefOfflineRelease, Text(referenceId)), OfflinePending(u), Available(u), amount,
                        now)))
  {
    hide Inv, Books, PendingExplained, HasPostings, Net, SumBy, IndexWhere;
    var t' := ReleaseCollateral(t, u, amount, referenceId, now).0;
    EnsureInv(t, u);
    if t' != t {
      PostOne(t, Ensure(t, u), t', [u], Reference(RefOfflineRelease, Text(referenceId)), OfflinePending(u),
              Available(u),
              amount, now);
    }
  }

  /** The account a compensation takes the money from; its balance is not looked at. */
  function CompensationSource(u: UserId, action: ReleaseAction): LedgerAccount {
    if action == Release then System(OfflinePayClearing) else Available(u)
  }

  lemma CompensateStep(t: Tables, id: string, u: UserId, amount: nat, action: ReleaseAction, now: Instant)
    requires Inv(t)
    ensures var t' := Compensate(t, id, u, amount, action, now).0;
      && Inv(t')
      && if FindJournal(t, Reference(RefCompensation, Text(id))).Some? then Still(t, t')
         else Single(t, t', Reference(RefCompensation, Text(id)), CompensationSource(u, action), OfflinePending(u),
                     amount, now)
  {
    hide Inv, Books, PendingExplained, HasPostings, Net, SumBy, IndexWhere;
    var t' := Compensate(t, id, u, amount, action, now).0;
    EnsureInv(t, u);
    if FindJournal(t, Reference(RefCompensation, Text(id))).None? {
      PostOne(t, Ensure(t, u), t', [u], Reference(RefCompensation, Text(id)), CompensationSource(u, action),
              OfflinePending(u), amount, now);
    }
  }

  /** One move between a purse of u and the reconciliation account, by `delta`. */
  ghost predicate Pulled(t: Tables, t': Tables, reference: Reference, purse: LedgerAccount, delta: int, now: Instant) {
    if delta > 0 then Single(t, t', reference, System(OfflinePayReconciliation), purse, delta, now)
    else Single(t, t', reference, purse, System(OfflinePayReconciliation), 0 - delta, now)
  }

  lemma ReconcileBalanceStep(t: Tables, u: UserId, target: int, now: Instant)
    requires Inv(t)
    ensures var (t', reply) := ReconcileBalance(t, u, target, now);
            var delta := target - LiabilityOf(t.journals, u);
      && Inv(t') && reply.ReconcileReply?
      && (reply.adjusted <==> delta < 0 || (delta > 0 && !HasPostings(t.journals, u)))
      && if reply.adjusted
         then Pulled(t, t', Reference(RefReconciliation, UserAt(u, now)), Available(u), delta, now)
         else Still(t, t')
  {
    hide PendingExplained, HasPostings, Projected, Net, SumBy, IndexWhere, Cached, AllBalanced, Sync, HasFootprint,
         PostedAccounts;
    var (t', reply) := ReconcileBalance(t, u, target, now);
    var delta := target - LiabilityOf(t.journals, u);
    EnsureInv(t, u);
    FootprintIsPosting(t, u);
    if reply.adjusted {
      var reference := Reference(RefReconciliation, UserAt(u, now));
      if delta > 0 {
        PostOne(t, Ensure(t, u), t', [u], reference, System(OfflinePayReconciliation), Available(u), delta, now);
      } else {
        PostOne(t, Ensure(t, u), t', [u], reference, Available(u), System(OfflinePayReconciliation), 0 - delta, now);
      }
    }
  }

  lemma ReconcilePendingStep(t: Tables, u: UserId, target: int, now: Instant)
    requires Inv(t)
    ensures var (t', reply) := ReconcilePending(t, u, target, now);
            var delta := target - Net(t.journals, OfflinePending(u));
      && Inv(t') && reply.ReconcileReply?
      && (reply.adjusted <==> delta != 0)
      && if reply.adjusted
         then Pulled(t, t', Reference(RefPendingReconciliation, UserAt(u, now)), OfflinePending(u), delta, now)
         else Still(t, t')
  {
    hide Sync, PostedAccounts, Inv, Books, PendingExplained, HasPostings, Net, SumBy, IndexWhere;
    var (t', reply) := ReconcilePending(t, u, target, now);
    var delta := target - Net(t.journals, OfflinePending(u));
    EnsureInv(t, u);
    if delta != 0 {
      var reference := Reference(RefPendingReconciliation, UserAt(u, now));
      if delta > 0 {
        PostOne(t, Ensure(t, u), t', [u], reference, System(OfflinePayReconciliation), OfflinePending(u), delta, now);
      } else {
        PostOne(t, Ensure(t, u), t', [u], reference, OfflinePending(u), System(OfflinePayReconciliation), 0 - delta,
                now);
      }
    }
  }

  /** Rebuilding the projections changes no row: they are folds already. */
  lemma RebuildChangesNothing(t: Tables)
    requires Cached(t)
    ensures Rebuild(t) == t
  {
    hide HasPostings, Projected;
    forall u | u in t.accounts ensures Rebuild(t).accounts[u] == t.accounts[u] {
      assert RowIsFold(t, u);
    }
    assert Rebuild(t).accounts == t.accounts;
  }

  // ---------- Settlement ----------

  function SenderJournal(s: Settlement): Journal {
    Journal(SettlementRef(s.id), Kori, SenderPostings(s), s.now)
  }

  function ReceiverJournal(s: Settlement, receiver: UserId): Journal {
    Journal(ReceiverRef(s.id), Kori, Move(System(OfflinePayClearing), Available(receiver), ReceiverCredit(s)), s.now)
  }

  /** A first finalize call that is not refused. */
  predicate Accepts(t: Tables, s: Settlement) {
    && FindJournal(t, SettlementRef(s.id)).None?
    && !(s.feeAmount.Some? && s.feeAmount.value < 0)
    && !(s.action == Release && s.feeAmount.Some? && s.feeAmount.value != SettlementFee(s.assetCode, s.amount))
    && s.amount <= Net(t.journals, OfflinePending(s.userId))
  }

  predicate WritesReceiver(t: Tables, s: Settlement) {
    && (Accepts(t, s) || FindJournal(t, SettlementRef(s.id)).Some?)
    && s.receiverRequested
    && PaysReceiver(t, s)
  }

  /** The journals one finalize call writes. */
  function FinalizeJournals(t: Tables, s: Settlement): seq<Journal> {
    (if Accepts(t, s) then [SenderJournal(s)] else [])
    + if WritesReceiver(t, s) then [ReceiverJournal(s, ResolveReceiver(t, s).value)] else []
  }

  lemma FindAppend(js: seq<Journal>, j: Journal, reference: Reference)
    ensures IndexWhere(js + [j], RefersTo(reference)).Some?
            <==> IndexWhere(js, RefersTo(reference)).Some? || j.reference == reference
  {
    assert (js + [j])[..|js|] == js;
  }

  lemma SenderPostsTo(s: Settlement)
    ensures forall u :: PostsTo(SenderJournal(s), u) <==> u == s.userId
  {
    var ps := SenderPostings(s);
    assert ps[0].account == OfflinePending(s.userId);
    assert forall k :: 0 <= k < |ps| ==>
      ps[k].account == OfflinePending(s.userId) || ps[k].account == Available(s.userId) || ps[k].account.System?;
  }

  /** The optional receiver leg keeps the books open for the affected users. */
  lemma PayReceiverBooks(t: Tables, s: Settlement, users: seq<UserId>)
    requires BooksBut(t, users)
    requires PaysReceiver(t, s) ==> ResolveReceiver(t, s).value in users
    ensures BooksBut(PayReceiver(t, s), users)
  {
    hide CachedBut, Footprints, AllBalanced, SumBy, IndexWhere;
    if PaysReceiver(t, s) {
      var r := ResolveReceiver(t, s).value;
      MoveEffect(System(OfflinePayClearing), Available(r), ReceiverCredit(s));
      MovePostsTo(ReceiverRef(s.id), Kori, System(OfflinePayClearing), Available(r), ReceiverCredit(s), s.now);
      AppendBooks(t, users, ReceiverRef(s.id), Kori, Move(System(OfflinePayClearing), Available(r), ReceiverCredit(s)),
                  s.now);
    }
  }

  lemma EnsureAffectedBooks(t: Tables, s: Settlement)
    requires Books(t)
    ensures BooksBut(EnsureAffected(t, s), AffectedUsers(t, s))
  {
    hide Cached, CachedBut, Footprints, AllBalanced;
    EnsureBooks(t, s.userId);
    if s.receiverRequested && ResolveReceiver(t, s).Some? {
      EnsureBooks(Ensure(t, s.userId), ResolveReceiver(t, s).value);
    }
    OpenBooks(EnsureAffected(t, s), AffectedUsers(t, s));
  }

  /** The tables after the journals of a finalize call, before the rows are synchronised. */
  function FinalizeWritten(t: Tables, s: Settlement): Tables {
    var t1 := EnsureAffected(t, s);
    var t2 := if Accepts(t, s) then AppendJournal(t1, SettlementRef(s.id), Kori, SenderPostings(s), s.now) else t1;
    if s.receiverRequested then PayReceiver(t2, s) else t2
  }

  lemma FinalizeWrittenBooks(t: Tables, s: Settlement)
    requires Books(t)
    ensures BooksBut(FinalizeWritten(t, s), AffectedUsers(t, s))
    ensures Accepts(t, s) || FindJournal(t, SettlementRef(s.id)).Some? ==>
              FinalizeWritten(t, s).journals == t.journals + FinalizeJournals(t, s)
  {
    hide CachedBut, Cached, Footprints, AllBalanced, SumBy, IndexWhere, Net, SettlementFee, PostedAccounts;
    var t1 := EnsureAffected(t, s);
    EnsureAffectedBooks(t, s);
    SenderEffect(s);
    SenderPostsTo(s);
    var t2 := t1;
    if Accepts(t, s) {
      AppendBooks(t1, AffectedUsers(t, s), SettlementRef(s.id), Kori, SenderPostings(s), s.now);
      t2 := AppendJournal(t1, SettlementRef(s.id), Kori, SenderPostings(s), s.now);
      FindAppend(t.journals, SenderJournal(s), ReceiverRef(s.id));
    }
    assert PaysReceiver(t2, s) == PaysReceiver(t, s);
    if s.receiverRequested {
      PayReceiverBooks(t2, s, AffectedUsers(t, s));
    }
  }

  function SenderPart(t: Tables, s: Settlement, a: LedgerAccount): int {
    if Accepts(t, s) then SumBy(SenderPostings(s), EffectOn(a)) else 0
  }

  function ReceiverPart(t: Tables, s: Settlement, a: LedgerAccount): int {
    if !WritesReceiver(t, s) then 0
    else if a == Available(ResolveReceiver(t, s).value) then ReceiverCredit(s)
    else if a == System(OfflinePayClearing) then 0 - ReceiverCredit(s)
    else 0
  }

  /** What a finalize call moves: the sender's side when it is the first, the receiver's when due. */
  lemma FinalizeEffect(t: Tables, s: Settlement)
    ensures forall a ::
              Net(t.journals + FinalizeJournals(t, s), a) ==
              Net(t.journals, a) + SenderPart(t, s, a) + ReceiverPart(t, s, a)
  {
    hide SumBy, Net, Accepts, SenderPostings;
    var sender := if Accepts(t, s) then [SenderJournal(s)] else [];
    var js1 := t.journals + sender;
    forall a ensures Net(js1, a) == Net(t.journals, a) + SenderPart(t, s, a) {
      if Accepts(t, s) {
        NetAppend(t.journals, SenderJournal(s), a);
      } else {
        assert js1 == t.journals;
      }
    }
    if WritesReceiver(t, s) {
      var r := ResolveReceiver(t, s).value;
      NetMove(js1, ReceiverJournal(s, r), System(OfflinePayClearing), Available(r), ReceiverCredit(s));
      assert t.journals + FinalizeJournals(t, s) == js1 + [ReceiverJournal(s, r)];
    } else {
      assert t.journals + FinalizeJournals(t, s) == js1;
    }
  }

  /** Neither action touches a pending withdrawal, and neither takes more than the lock covers. */
  lemma SenderSigns(s: Settlement)
    ensures forall u :: SumBy(SenderPostings(s), EffectOn(WithdrawPending(u))) == 0
    ensures forall u :: SumBy(SenderPostings(s), EffectOn(Available(u))) >= 0
    ensures forall u :: SumBy(SenderPostings(s), EffectOn(OfflinePending(u)))
                        == if u == s.userId then 0 - s.amount else 0
  {
    SenderEffect(s);
    if s.action == AdjustBack {
      MoveEffect(OfflinePending(s.userId), Available(s.userId), s.amount);
    }
  }

  lemma FinalizeBooks(t: Tables, s: Settlement)
    requires Books(t)
    ensures var t' := Finalize(t, s).0;
      Books(t') && SameWithdrawals(t, t') && t'.journals == t.journals + FinalizeJournals(t, s)
  {
    hide CachedBut, Cached, Footprints, AllBalanced, SumBy, IndexWhere, Net, HasPostings, SenderPostings;
    var t' := Finalize(t, s).0;
    FinalizeWrittenBooks(t, s);
    if Accepts(t, s) || FindJournal(t, SettlementRef(s.id)).Some? {
      var users := AffectedUsers(t, s);
      var written := FinalizeWritten(t, s);
      CloseBooks(written, users);
      SameBooksKept(Sync(written, users), t');
    } else {
      assert t' == t;
    }
  }

  lemma FinalizeStep(t: Tables, s: Settlement)
    requires Inv(t)
    ensures var t' := Finalize(t, s).0;
      && Inv(t') && SameWithdrawals(t, t')
      && t'.journals == t.journals + FinalizeJournals(t, s)
      && (NonNegative(t) ==> NonNegative(t'))
  {
    hide Books, Finalize, FinalizeJournals, SenderPostings, ResolveReceiver, SumBy, Net, FindJournal, PaysReceiver;
    var t' := Finalize(t, s).0;
    FinalizeBooks(t, s);
    FinalizeEffect(t, s);
    SenderSigns(s);
  }

  // ---------- Sweeps ----------

  /** The journal of a sweep confirmation with a fee. */
  function SweepJournals(t: Tables, op: Fees.SweepOp): seq<Journal> {
    if Fees.BooksFee(op, SweepCall(t, op).1)
    then [Journal(SweepRef(op.id), Trx, Move(System(SweepNetworkFee), System(SweepSourceTrx), op.fee.value.feeSun),
                  op.now)]
    else []
  }

  lemma SweepStep(t: Tables, op: Fees.SweepOp)
    requires Inv(t)
    ensures var t' := SweepCall(t, op).0;
      && Inv(t') && SameWithdrawals(t, t')
      && t'.journals == t.journals + SweepJournals(t, op)
      && (NonNegative(t) <==> NonNegative(t'))
  {
    hide Inv, Books, PendingExplained, NonNegative, IndexWhere, Fees.Advance, Net;
    var t' := SweepCall(t, op).0;
    if SweepJournals(t, op) != [] {
      SweepFeeKeeps(t, t', op.id, op.fee.value, op.now);
    } else {
      assert t.journals + [] == t.journals;
      StillKeeps(t, t');
    }
  }

  lemma StillKeeps(t: Tables, t': Tables)
    requires Inv(t) && SameBooks(t, t') && SameWithdrawals(t, t')
    ensures Inv(t') && (NonNegative(t) <==> NonNegative(t'))
  {
    hide Net, Books;
    SameBooksKept(t, t');
  }

  lemma SweepFeeKeeps(t: Tables, t': Tables, id: nat, fee: NetworkFee, now: Instant)
    requires Inv(t) && SameWithdrawals(t, t')
    requires SameBooks(AppendJournal(t, SweepRef(id), Trx, Move(System(SweepNetworkFee), System(SweepSourceTrx), fee.feeSun),
                                     now), t')
    ensures Inv(t') && (NonNegative(t) <==> NonNegative(t'))
  {
    hide CachedBut, Cached, Footprints, AllBalanced, SumBy, Net;
    var feeMove := Move(System(SweepNetworkFee), System(SweepSourceTrx), fee.feeSun);
    var booked := AppendJournal(t, SweepRef(id), Trx, feeMove, now);
    OpenBooks(t, []);
    MoveEffect(System(SweepNetworkFee), System(SweepSourceTrx), fee.feeSun);
    MovePostsTo(SweepRef(id), Trx, System(SweepNetworkFee), System(SweepSourceTrx), fee.feeSun, now);
    AppendBooks(t, [], SweepRef(id), Trx, feeMove, now);
    CloseBooks(booked, []);
    assert Sync(booked, []) == booked;
    SameBooksKept(booked, t');
    NetMove(t.journals, booked.journals[|t.journals|], System(SweepNetworkFee), System(SweepSourceTrx), fee.feeSun);
  }

  // ---------- Every run ----------

  /** What a caller must see to before the three calls that debit a purse unchecked. */
  predicate CallerSafe(t: Tables, op: PostgresOp) {
    match op
    case Offline(CompensateOp(id, u, amount, action, _)) =>
      || action == Release
      || FindJournal(t, Reference(RefCompensation, Text(id))).Some?
      || amount <= Projected(t.journals, u).balance
    case Offline(ReconcileBalanceOp(u, target, _)) => target >= Projected(t.journals, u).lockedBalance
    case Offline(ReconcilePendingOp(u, target, _)) => target >= 0
    case _ => true
  }

  lemma ApproveRestated(t: Tables, id: nat, adminId: string, now: Instant)
    ensures Restated(t, Approve(t, id, adminId, now).0)
  {
    hide ForWithdrawal, IndexWhere;
    var t' := Approve(t, id, adminId, now).0;
    if t' != t {
      assert t'.withdrawals == t.withdrawals[id := t'.withdrawals[id]];
    }
  }

  /** The ledger calls that move no money: they restate a withdrawal or a deposit. */
  lemma QuietLedgerStep(t: Tables, limits: Limits, op: Op)
    requires Inv(t) && (op.CompleteOp? || op.AuthOp? || op.ReviewOp? || op.ApproveOp? || op.BroadcastOp?)
    ensures var t' := LedgerStep(t, limits, op).0; Inv(t') && t'.journals == t.journals
  {
    hide Inv, ForWithdrawal, IndexWhere, Approve, Restated, WithdrawalPayload;
    var t' := LedgerStep(t, limits, op).0;
    if op.ApproveOp? {
      ApproveRestated(t, op.id, op.adminId, op.now);
      ApproveQuiet(t, op.id, op.adminId, op.now);
    } else {
      QuietRestated(t, limits, op);
    }
    RestatedStep(t, t');
  }

  lemma ApproveQuiet(t: Tables, id: nat, adminId: string, now: Instant)
    ensures Approve(t, id, adminId, now).0.journals == t.journals
  {
    hide ForWithdrawal, IndexWhere, WithdrawalPayload;
  }

  lemma QuietRestated(t: Tables, limits: Limits, op: Op)
    requires op.CompleteOp? || op.AuthOp? || op.ReviewOp? || op.BroadcastOp?
    ensures Restated(t, LedgerStep(t, limits, op).0)
  {
    hide ForWithdrawal, WithdrawalPayload, Hydrated, SumBy, IndexWhere;
    var t' := LedgerStep(t, limits, op).0;
    if !op.CompleteOp? && op.id < |t.withdrawals| {
      assert SameWithdrawals(t, t') || t'.withdrawals == t.withdrawals[op.id := t'.withdrawals[op.id]];
    }
  }

  /** The offline calls that move no money: they restate a device or rows. */
  lemma QuietOfflineStep(t: Tables, op: OfflineOp)
    requires Inv(t) && (op.DeviceOp? || op.RebuildOp? || op.AccountOp?)
    ensures var t' := OfflineStep(t, op).0; Inv(t') && t'.journals == t.journals
  {
    hide Net, Books, PendingExplained, Rebuild;
    if op.AccountOp? {
      EnsureInv(t, op.userId);
    } else if op.RebuildOp? {
      BooksAreCached(t);
      RebuildChangesNothing(t);
    } else {
      RestatedStep(t, OfflineStep(t, op).0);
    }
  }

  lemma BooksAreCached(t: Tables)
    requires Inv(t)
    ensures Cached(t)
  {
  }

  /** A call that writes nothing changes no sign. */
  lemma StillSigns(t: Tables, t': Tables)
    requires t'.journals == t.journals
    ensures NonNegative(t) <==> NonNegative(t')
  {
    hide Net;
  }

  /** One step: the invariant stays, journals are only added, and signs stay exactly when the
      caller saw to them. */
  lemma LedgerKept(t: Tables, limits: Limits, op: Op)
    requires Inv(t)
    ensures var t' := LedgerStep(t, limits, op).0;
      Inv(t') && t.journals <= t'.journals && (NonNegative(t) ==> NonNegative(t'))
  {
    hide Inv, NonNegative, Net, ApplyDeposit, ApplyCredit, Transfer, RequestWithdrawal, Fail, Confirm;
    var t' := LedgerStep(t, limits, op).0;
    match op
    case DepositOp(u, amount, txHash, block, now) =>
      DepositStep(t, u, amount, txHash, block, now);
      AfterSingle(t, t', Reference(RefDeposit, Uuid(|t.deposits|)), System(DepositClearing), Available(u), amount, now);
    case CreditOp(u, amount, currency, reference, now) =>
      CreditStep(t, u, amount, currency, reference, now);
      AfterSingle(t, t', reference, System(FoxyaCreditSync), Available(u), if amount > 0 then amount else 0, now);
    case TransferOp(f, to, amount, key, now) =>
      TransferStep(t, f, to, amount, key, now);
      AfterSingle(t, t', Reference(RefTransfer, Text(key)), Available(f), Available(to), amount, now);
    case RequestOp(u, amount, toAddress, key, required, now) =>
      RequestStep(t, limits, u, amount, toAddress, key, required, now);
      AfterSingle(t, t', Reference(RefWithdrawal, Uuid(|t.withdrawals|)), Available(u), WithdrawPending(u), amount,
                  now);
    case ConfirmOp(id, fee, now) =>
      ConfirmStep(t, id, fee, now);
      if id < |t.withdrawals| {
        ConfirmSigns(t, t', t.withdrawals[id], id, fee, now);
      }
      StillSignsIf(t, t');
    case FailOp(id, reason, now) =>
      FailStep(t, id, reason, now);
      if id < |t.withdrawals| {
        var w := t.withdrawals[id];
        AfterSingle(t, t', Reference(RefWithdrawal, Uuid(id)), WithdrawPending(w.userId), Available(w.userId),
                    w.amount, now);
      }
      StillSignsIf(t, t');
    case _ =>
      QuietLedgerStep(t, limits, op);
      StillSigns(t, t');
  }

  lemma StillSignsIf(t: Tables, t': Tables)
    ensures Still(t, t') ==> (NonNegative(t) <==> NonNegative(t'))
  {
    if Still(t, t') {
      StillSigns(t, t');
    }
  }

  lemma AfterSingle(t: Tables, t': Tables, reference: Reference, debit: LedgerAccount, credit: LedgerAccount, n: nat,
                    now: Instant)
    ensures Still(t, t') ==> (NonNegative(t) <==> NonNegative(t'))
    ensures Single(t, t', reference, debit, credit, n, now) && NonNegative(t) ==>
              (NonNegative(t') <==> (IsPurse(debit) ==> n <= Net(t.journals, debit)))
  {
    StillSignsIf(t, t');
    if Single(t, t', reference, debit, credit, n, now) && NonNegative(t) {
      SingleSigns(t, t', reference, debit, credit, n, now);
    }
  }

  lemma ConfirmSigns(t: Tables, t': Tables, w: Withdrawal, id: nat, fee: Option<NetworkFee>, now: Instant)
    ensures t'.journals == t.journals + PayoutJournals(w, id, fee, now) ==> (NonNegative(t) <==> NonNegative(t'))
  {
    hide Net, PayoutJournals;
    PayoutEffect(t.journals, w, id, fee, now);
  }

  /** The three unchecked debits: signs stay exactly when the caller saw to them. */
  lemma UncheckedKept(t: Tables, op: OfflineOp)
    requires Inv(t) && (op.CompensateOp? || op.ReconcileBalanceOp? || op.ReconcilePendingOp?)
    ensures var t' := OfflineStep(t, op).0;
      && Inv(t') && t.journals <= t'.journals
      && (NonNegative(t) ==> (NonNegative(t') <==> CallerSafe(t, Offline(op))))
  {
    hide Inv, Net, SumBy, Compensate, ReconcileBalance, ReconcilePending, FindJournal, HasPostings;
    var t' := OfflineStep(t, op).0;
    if op.CompensateOp? {
      var u := op.userId;
      CompensateStep(t, op.settlementId, u, op.amount, op.action, op.now);
      AfterSingle(t, t', Reference(RefCompensation, Text(op.settlementId)), CompensationSource(u, op.action),
                  OfflinePending(u), op.amount, op.now);
    } else if op.ReconcileBalanceOp? {
      var u := op.userId;
      var delta := op.target - LiabilityOf(t.journals, u);
      ReconcileBalanceStep(t, u, op.target, op.now);
      AfterPull(t, t', Reference(RefReconciliation, UserAt(u, op.now)), Available(u), delta, op.now);
      if NonNegative(t) {
        assert Net(t.journals, Available(u)) >= 0;
        assert delta >= 0 ==> op.target >= Projected(t.journals, u).lockedBalance;
      }
    } else {
      var u := op.userId;
      var delta := op.target - Net(t.journals, OfflinePending(u));
      ReconcilePendingStep(t, u, op.target, op.now);
      AfterPull(t, t', Reference(RefPendingReconciliation, UserAt(u, op.now)), OfflinePending(u), delta, op.now);
      assert NonNegative(t) ==> Net(t.journals, OfflinePending(u)) >= 0;
    }
  }

  lemma AfterPull(t: Tables, t': Tables, reference: Reference, purse: LedgerAccount, delta: int, now: Instant)
    requires IsPurse(purse)
    ensures Still(t, t') ==> (NonNegative(t) <==> NonNegative(t'))
    ensures Pulled(t, t', reference, purse, delta, now) && NonNegative(t) ==>
              (NonNegative(t') <==> delta > 0 || 0 - delta <= Net(t.journals, purse))
    ensures Pulled(t, t', reference, purse, delta, now) ==> t.journals <= t'.journals
  {
    hide Net, NonNegative;
    if delta > 0 {
      AfterSingle(t, t', reference, System(OfflinePayReconciliation), purse, delta, now);
    } else {
      AfterSingle(t, t', reference, purse, System(OfflinePayReconciliation), 0 - delta, now);
    }
  }

  /** One step of any operation: the invariant stays, journals are only added, and the purses stay
      non-negative exactly when the caller saw to the three unchecked debits. */
  lemma StepKept(t: Tables, limits: Limits, op: PostgresOp)
    requires Inv(t)
    ensures var t' := Step(t, limits, op);
      && Inv(t') && t.journals <= t'.journals
      && (NonNegative(t) ==> (NonNegative(t') <==> CallerSafe(t, op)))
  {
    hide Inv, NonNegative, Net, LedgerStep, LockCollateral, ReleaseCollateral, Finalize, Rebuild, FinalizeJournals,
         SweepCall, Compensate, ReconcileBalance, ReconcilePending;
    var t' := Step(t, limits, op);
    match op
    case Ledger(lop) => LedgerKept(t, limits, lop);
    case Offline(LockOp(u, amount, referenceId, now)) =>
      LockStep(t, u, amount, referenceId, now);
      AfterSingle(t, t', Reference(RefOfflineLock, Text(referenceId)), Available(u), OfflinePending(u), amount, now);
    case Offline(ReleaseOp(u, amount, referenceId, now)) =>
      ReleaseStep(t, u, amount, referenceId, now);
      AfterSingle(t, t', Reference(RefOfflineRelease, Text(referenceId)), OfflinePending(u), Available(u), amount, now);
    case Offline(FinalizeOp(s)) => FinalizeStep(t, s);
    case Sweep(sweep) => SweepStep(t, sweep);
    case Offline(CompensateOp(_, _, _, _, _)) => UncheckedKept(t, op.offlineOp);
    case Offline(ReconcileBalanceOp(_, _, _)) => UncheckedKept(t, op.offlineOp);
    case Offline(ReconcilePendingOp(_, _, _)) => UncheckedKept(t, op.offlineOp);
    case _ =>
      QuietOfflineStep(t, op.offlineOp);
      StillSigns(t, t');
  }

  // ---------- What a step writes ----------

  function MoveJournal(reference: Reference, debit: LedgerAccount, credit: LedgerAccount, n: nat, now: Instant):
    seq<Journal>
  {
    [Journal(reference, Kori, Move(debit, credit, n), now)]
  }

  function PullJournals(reference: Reference, purse: LedgerAccount, delta: int, now: Instant): seq<Journal> {
    if delta > 0 then MoveJournal(reference, System(OfflinePayReconciliation), purse, delta, now)
    else MoveJournal(reference, purse, System(OfflinePayReconciliation), 0 - delta, now)
  }

  function LedgerJournals(t: Tables, op: Op): seq<Journal> {
    match op
    case DepositOp(u, amount, _, _, now) =>
      MoveJournal(Reference(RefDeposit, Uuid(|t.deposits|)), System(DepositClearing), Available(u), amount, now)
    case CreditOp(u, amount, _, reference, now) =>
      MoveJournal(reference, System(FoxyaCreditSync), Available(u), if amount > 0 then amount else 0, now)
    case TransferOp(f, to, amount, key, now) =>
      MoveJournal(Reference(RefTransfer, Text(key)), Available(f), Available(to), amount, now)
    case RequestOp(u, amount, _, _, _, now) =>
      MoveJournal(Reference(RefWithdrawal, Uuid(|t.withdrawals|)), Available(u), WithdrawPending(u), amount, now)
    case ConfirmOp(id, fee, now) =>
      if id < |t.withdrawals| then PayoutJournals(t.withdrawals[id], id, fee, now) else []
    case FailOp(id, _, now) =>
      if id >= |t.withdrawals| then []
      else
        var w := t.withdrawals[id];
        MoveJournal(Reference(RefWithdrawal, Uuid(id)), WithdrawPending(w.userId), Available(w.userId), w.amount, now)
    case _ => []
  }

  function OfflineJournals(t: Tables, op: OfflineOp): seq<Journal> {
    match op
    case LockOp(u, amount, referenceId, now) =>
      MoveJournal(Reference(RefOfflineLock, Text(referenceId)), Available(u), OfflinePending(u), amount, now)
    case ReleaseOp(u, amount, referenceId, now) =>
      MoveJournal(Reference(RefOfflineRelease, Text(referenceId)), OfflinePending(u), Available(u), amount, now)
    case FinalizeOp(s) => FinalizeJournals(t, s)
    case CompensateOp(id, u, amount, action, now) =>
      MoveJournal(Reference(RefCompensation, Text(id)), CompensationSource(u, action), OfflinePending(u), amount, now)
    case ReconcileBalanceOp(u, target, now) =>
      PullJournals(Reference(RefReconciliation, UserAt(u, now)), Available(u), target - LiabilityOf(t.journals, u), now)
    case ReconcilePendingOp(u, target, now) =>
      PullJournals(Reference(RefPendingReconciliation, UserAt(u, now)), OfflinePending(u),
                   target - Net(t.journals, OfflinePending(u)), now)
    case _ => []
  }

  /** The journals of one call that is not refused. */
  function StepJournals(t: Tables, op: PostgresOp): seq<Journal> {
    match op
    case Ledger(lop) => LedgerJournals(t, lop)
    case Offline(oop) => OfflineJournals(t, oop)
    case Sweep(sweep) => SweepJournals(t, sweep)
  }

  lemma LedgerWrites(t: Tables, limits: Limits, op: Op)
    requires Inv(t)
    ensures var js' := LedgerStep(t, limits, op).0.journals;
            js' == t.journals || js' == t.journals + LedgerJournals(t, op)
  {
    hide Inv, Net, ApplyDeposit, ApplyCredit, Transfer, RequestWithdrawal, Fail, Confirm, PayoutJournals;
    match op
    case DepositOp(u, amount, txHash, block, now) => DepositStep(t, u, amount, txHash, block, now);
    case CreditOp(u, amount, currency, reference, now) => CreditStep(t, u, amount, currency, reference, now);
    case TransferOp(f, to, amount, key, now) => TransferStep(t, f, to, amount, key, now);
    case RequestOp(u, amount, toAddress, key, required, now) =>
      RequestStep(t, limits, u, amount, toAddress, key, required, now);
    case ConfirmOp(id, fee, now) => ConfirmStep(t, id, fee, now);
    case FailOp(id, reason, now) => FailStep(t, id, reason, now);
    case _ => QuietLedgerStep(t, limits, op);
  }

  lemma OfflineWrites(t: Tables, op: OfflineOp)
    requires Inv(t)
    ensures var js' := OfflineStep(t, op).0.journals; js' == t.journals || js' == t.journals + OfflineJournals(t, op)
  {
    hide Inv, Net, LockCollateral, ReleaseCollateral, Finalize, Compensate, ReconcileBalance, ReconcilePending, Rebuild,
         FinalizeJournals;
    match op
    case LockOp(u, amount, referenceId, now) => LockStep(t, u, amount, referenceId, now);
    case ReleaseOp(u, amount, referenceId, now) => ReleaseStep(t, u, amount, referenceId, now);
    case FinalizeOp(s) => FinalizeStep(t, s);
    case CompensateOp(id, u, amount, action, now) => CompensateStep(t, id, u, amount, action, now);
    case ReconcileBalanceOp(u, target, now) => ReconcileBalanceStep(t, u, target, now);
    case ReconcilePendingOp(u, target, now) => ReconcilePendingStep(t, u, target, now);
    case _ => QuietOfflineStep(t, op);
  }

  /** A step writes the journals of its call or none. */
  lemma StepWrites(t: Tables, limits: Limits, op: PostgresOp)
    requires Inv(t)
    ensures var js' := Step(t, limits, op).journals; js' == t.journals || js' == t.journals + StepJournals(t, op)
  {
    hide Inv, LedgerStep, OfflineStep, SweepCall, LedgerJournals, OfflineJournals, SweepJournals;
    match op
    case Ledger(lop) => LedgerWrites(t, limits, lop);
    case Offline(oop) => OfflineWrites(t, oop);
    case Sweep(sweep) => SweepStep(t, sweep);
  }

  /** After every run: cached rows equal the fold, so a rebuild changes nothing; every journal
      balances, so does the trial balance in each currency; pending accounts are explained. */
  lemma {:induction false} EveryRun(limits: Limits, ops: seq<PostgresOp>)
    ensures Inv(Run(limits, ops))
    ensures Rebuild(Run(limits, ops)) == Run(limits, ops)
    ensures forall currency :: TrialBalance(Run(limits, ops).journals, currency) == 0
  {
    hide Step, Rebuild;
    var t := Run(limits, ops);
    if ops == [] {
      assert forall u :: RowIsFold(t, u);
    } else {
      EveryRun(limits, ops[..|ops| - 1]);
      StepKept(Run(limits, ops[..|ops| - 1]), limits, ops[|ops| - 1]);
    }
    RebuildChangesNothing(t);
    forall currency ensures TrialBalance(t.journals, currency) == 0 {
      BalancedTrial(t.journals, currency);
    }
  }

  ghost predicate SafeRun(limits: Limits, ops: seq<PostgresOp>) {
    forall n :: 0 <= n < |ops| ==> CallerSafe(Run(limits, ops[..n]), ops[n])
  }

  /** No purse and no pending account is ever negative in a run whose callers saw to the three
      unchecked debits; and a run that never shows a negative purse is one in which they did. */
  lemma {:induction false} SafeRunsNeverNegative(limits: Limits, ops: seq<PostgresOp>)
    ensures SafeRun(limits, ops) <==> forall n :: 0 <= n <= |ops| ==> NonNegative(Run(limits, ops[..n]))
    ensures forall u :: Net(Run(limits, ops).journals, WithdrawPending(u)) >= 0
  {
    hide Step, Net, CallerSafe, Cached, Footprints, AllBalanced;
    var t := Run(limits, ops);
    EveryRun(limits, ops);
    forall u ensures Net(t.journals, WithdrawPending(u)) >= 0 {
      SumNonNegative(t.withdrawals, ActiveOf(u));
      assert Net(t.journals, WithdrawPending(u)) == ActiveSum(t.withdrawals, u);
    }
    PrefixSigns(limits, ops, |ops|);
  }

  lemma {:induction false} PrefixSigns(limits: Limits, ops: seq<PostgresOp>, k: nat)
    requires k <= |ops|
    ensures (forall n :: 0 <= n < k ==> CallerSafe(Run(limits, ops[..n]), ops[n]))
            <==> forall n :: 0 <= n <= k ==> NonNegative(Run(limits, ops[..n]))
  {
    hide NonNegative, Run, CallerSafe;
    if k == 0 {
      EmptyNonNegative(limits, ops);
    } else {
      PrefixSigns(limits, ops, k - 1);
      NextSign(limits, ops, k - 1);
    }
  }

  lemma NextSign(limits: Limits, ops: seq<PostgresOp>, k: nat)
    requires k < |ops|
    ensures var t := Run(limits, ops[..k]);
            NonNegative(t) ==> (CallerSafe(t, ops[k]) <==> NonNegative(Run(limits, ops[..k + 1])))
  {
    hide NonNegative, Step, CallerSafe, Inv;
    EveryRun(limits, ops[..k]);
    assert ops[..k + 1][..k] == ops[..k];
    StepKept(Run(limits, ops[..k]), limits, ops[k]);
  }

  lemma EmptyNets()
    ensures forall a :: Net([], a) == 0
  {
  }

  lemma EmptyNonNegative(limits: Limits, ops: seq<PostgresOp>)
    ensures NonNegative(Run(limits, ops[..0]))
  {
  }

  /** The "locked balance underflow" branches: an active withdrawal is covered by what the ledger
      reads as locked exactly when the user's offline-pending account is not too far below zero. */
  lemma UnderflowExactly(t: Tables, id: nat)
    requires Inv(t) && id < |t.withdrawals| && IsActive(t.withdrawals[id].status)
    ensures var w := t.withdrawals[id];
            CurrentBalances(t, w.userId).lockedBalance < w.amount
            <==> Net(t.journals, OfflinePending(w.userId)) < w.amount - ActiveSum(t.withdrawals, w.userId)
    ensures t.withdrawals[id].amount <= ActiveSum(t.withdrawals, t.withdrawals[id].userId)
  {
    hide Net, HasPostings, SumBy;
    var w := t.withdrawals[id];
    CurrentIsProjected(t, w.userId);
    PendingCovers(t, id);
    assert Net(t.journals, WithdrawPending(w.userId)) == ActiveSum(t.withdrawals, w.userId);
  }

  /** ... hence it is unreachable in every run whose callers saw to the unchecked debits. */
  lemma SafeRunsNeverUnderflow(limits: Limits, ops: seq<PostgresOp>, id: nat)
    requires SafeRun(limits, ops)
    requires id < |Run(limits, ops).withdrawals| && IsActive(Run(limits, ops).withdrawals[id].status)
    ensures var t := Run(limits, ops);
            t.withdrawals[id].amount <= CurrentBalances(t, t.withdrawals[id].userId).lockedBalance
  {
    hide Run, Net, HasPostings, SumBy, Inv, SafeRun;
    var t := Run(limits, ops);
    EveryRun(limits, ops);
    SafeRunsNeverNegative(limits, ops);
    assert ops[..|ops|] == ops;
    assert NonNegative(Run(limits, ops[..|ops|]));
    UnderflowExactly(t, id);
  }
}
