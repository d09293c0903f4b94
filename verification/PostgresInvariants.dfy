/** What every run of the double-entry ledger keeps: the cached rows equal the fold, every journal
    balances, pending withdrawals are explained, and nobody goes negative unless a caller asks. */
module PostgresInvariants {
  import opened Domain
  import opened Sums
  import opened PostgresSpec
  import opened PostgresBooks

  // ---------- The fee ----------

  /** The fee never exceeds the amount, is smaller when there is an amount, and is a tenth of a percent
      for KORI and nothing for any other asset, rounded to the nearest unit, halves upwards. */
  lemma FeeBound(assetCode: string, amount: nat)
    ensures var fee := SettlementFee(assetCode, amount);
      && fee <= amount
      && (amount > 0 ==> fee < amount)
      && IsFee(assetCode, amount, fee)
  {
  }

  /** No other number is within half a unit: the bound alone determines the fee. */
  lemma FeeIsDetermined(assetCode: string, amount: nat, fee: nat)
    ensures IsFee(assetCode, amount, fee) <==> fee == SettlementFee(assetCode, amount)
  {
  }

  /** A fee never shrinks with the amount, and splitting an amount moves the total by a unit at most. */
  lemma FeeOfParts(assetCode: string, a: nat, b: nat)
    ensures SettlementFee(assetCode, a) <= SettlementFee(assetCode, a + b)
    ensures -1 <= SettlementFee(assetCode, a + b) - SettlementFee(assetCode, a) - SettlementFee(assetCode, b) <= 1
  {
    FeeBound(assetCode, a);
    FeeBound(assetCode, b);
    FeeBound(assetCode, a + b);
  }

  lemma SenderEffect(s: Settlement)
    ensures Balanced(SenderPostings(s))
    ensures ReceiverCredit(s) + FeeOf(s) == s.amount
    ensures s.action == Release ==>
      forall a :: SumBy(SenderPostings(s), EffectOn(a)) ==
        (if a == System(OfflinePayClearing) then ReceiverCredit(s) as int else 0)
        + (if a == System(OfflinePayFee) then FeeOf(s) as int else 0)
        - (if a == OfflinePending(s.userId) then s.amount as int else 0)
  {
    FeeBound(s.assetCode, s.amount);
    if s.action == AdjustBack {
      MoveEffect(OfflinePending(s.userId), Available(s.userId), s.amount);
    } else {
      var p, q := Posting(OfflinePending(s.userId), Debit, s.amount),
                  Posting(System(OfflinePayClearing), Side.Credit, ReceiverCredit(s));
      var r := Posting(System(OfflinePayFee), Side.Credit, FeeOf(s));
      PairSum(p, q, Signed());
      SumAppend([p, q], r, Signed());
      assert [p, q] + [] == [p, q];
      forall a ensures SumBy(SenderPostings(s), EffectOn(a)) ==
        (if a == System(OfflinePayClearing) then ReceiverCredit(s) as int else 0)
        + (if a == System(OfflinePayFee) then FeeOf(s) as int else 0)
        - (if a == OfflinePending(s.userId) then s.amount as int else 0)
      {
        PairSum(p, q, EffectOn(a));
        SumAppend([p, q], r, EffectOn(a));
      }
    }
  }

  // ---------- Pending withdrawals and signs ----------

  ghost predicate PendingExplained(t: Tables) {
    forall u :: Net(t.journals, WithdrawPending(u)) == ActiveSum(t.withdrawals, u)
  }

  ghost predicate NonNegative(t: Tables) {
    forall u :: Net(t.journals, Available(u)) >= 0 && Net(t.journals, OfflinePending(u)) >= 0
  }

  predicate IsPurse(a: LedgerAccount) {
    a.Available? || a.OfflinePending?
  }

  ghost predicate Inv(t: Tables) {
    Books(t) && PendingExplained(t)
  }

  /** t' is t with one more journal: a move of n from `debit` to `credit`. */
  ghost predicate Single(t: Tables, t': Tables, reference: Reference, debit: LedgerAccount, credit: LedgerAccount,
                         n: nat, now: Instant)
  {
    && debit != credit
    && t'.journals == t.journals + [Journal(reference, Kori, Move(debit, credit, n), now)]
  }

  ghost predicate SameWithdrawals(t: Tables, t': Tables) {
    t'.withdrawals == t.withdrawals
  }

  /** A move spares the purses exactly when the purse it debits covers it. */
  lemma SingleSigns(t: Tables, t': Tables, reference: Reference, debit: LedgerAccount, credit: LedgerAccount, n: nat,
                    now: Instant)
    requires Single(t, t', reference, debit, credit, n, now) && NonNegative(t)
    ensures NonNegative(t') <==> (IsPurse(debit) ==> n <= Net(t.journals, debit))
  {
    hide SumBy, Net;
    NetMove(t.journals, t'.journals[|t.journals|], debit, credit, n);
    if IsPurse(debit) && n > Net(t.journals, debit) {
      assert Net(t'.journals, debit) < 0;
      assert Net(t'.journals, Available(debit.userId)) < 0 || Net(t'.journals, OfflinePending(debit.userId)) < 0;
    }
  }

  lemma SingleExplained(t: Tables, t': Tables, reference: Reference, debit: LedgerAccount, credit: LedgerAccount,
                        n: nat, now: Instant)
    requires Single(t, t', reference, debit, credit, n, now) && PendingExplained(t) && SameWithdrawals(t, t')
    requires !debit.WithdrawPending? && !credit.WithdrawPending?
    ensures PendingExplained(t')
  {
    hide SumBy, Net;
    NetMove(t.journals, t'.journals[|t.journals|], debit, credit, n);
  }

  ghost predicate Still(t: Tables, t': Tables) {
    t'.journals == t.journals && SameWithdrawals(t, t')
  }

  /** Books look at the rows, the journals and the ledger accounts only. */
  ghost predicate SameBooks(t: Tables, t': Tables) {
    t'.accounts == t.accounts && t'.journals == t.journals && t'.ledgerAccounts == t.ledgerAccounts
  }

  lemma SameBooksKept(t: Tables, t': Tables)
    requires Books(t) && SameBooks(t, t')
    ensures Books(t')
  {
    hide HasPostings, Projected;
    forall u ensures RowIsFold(t', u) {
      assert RowIsFold(t, u);
    }
  }

  /** The shape of every transaction that writes one move: open the rows, append, synchronise. */
  lemma PostOne(t: Tables, ready: Tables, t': Tables, users: seq<UserId>, reference: Reference, debit: LedgerAccount,
                credit: LedgerAccount, n: nat, now: Instant)
    requires PendingExplained(t) && Books(ready) && ready.journals == t.journals
    requires SameBooks(Post(ready, reference, Move(debit, credit, n), users, now), t') && SameWithdrawals(t, t')
    requires forall u :: u in users ==> u in ready.accounts
    requires forall u :: IsOf(debit, u) || IsOf(credit, u) ==> u in users
    requires debit != credit && !debit.WithdrawPending? && !credit.WithdrawPending?
    ensures Inv(t') && Single(t, t', reference, debit, credit, n, now)
  {
    hide SumBy, Net, Cached, Footprints, AllBalanced, HasPostings, PendingExplained;
    PostMoveBooks(ready, users, reference, debit, credit, n, now);
    SameBooksKept(Post(ready, reference, Move(debit, credit, n), users, now), t');
    SingleExplained(t, t', reference, debit, credit, n, now);
  }

  // ---------- One lemma per operation ----------

  lemma EnsureInv(t: Tables, u: UserId)
    requires Inv(t)
    ensures Inv(Ensure(t, u)) && Books(Ensure(t, u)) && Cached(Ensure(t, u)) && PendingExplained(t)
  {
    EnsureBooks(t, u);
  }

  lemma DepositStep(t: Tables, u: UserId, amount: nat, txHash: string, block: nat, now: Instant)
    requires Inv(t)
    ensures var t' := ApplyDeposit(t, u, amount, txHash, block, now).0;
      && Inv(t')
      && (|| Still(t, t')
          || Single(t, t', Reference(RefDeposit, Uuid(|t.deposits|)), System(DepositClearing), Available(u), amount,
                    now))
  {
    hide Inv, Books, PendingExplained, HasPostings, Projected;
    var t' := ApplyDeposit(t, u, amount, txHash, block, now).0;
    if IndexWhere(t.deposits, HashIs(txHash)).None? {
      EnsureInv(t, u);
      PostOne(t, Ensure(t, u), t', [u], Reference(RefDeposit, Uuid(|t.deposits|)), System(DepositClearing),
              Available(u), amount, now);
    }
  }

  lemma CreditStep(t: Tables, u: UserId, amount: int, currency: string, reference: Reference, now: Instant)
    requires Inv(t)
    ensures var t' := ApplyCredit(t, u, amount, currency, reference, now).0;
      && Inv(t')
      && (|| Still(t, t')
          || (&& amount > 0 && FindJournal(t, reference).None?
              && Single(t, t', reference, System(FoxyaCreditSync), Available(u), amount, now)))
  {
    hide Inv, Books, PendingExplained, HasPostings, Projected;
    var t' := ApplyCredit(t, u, amount, currency, reference, now).0;
    if amount > 0 && t' != t {
      EnsureInv(t, u);
      PostOne(t, Ensure(t, u), t', [u], reference, System(FoxyaCreditSync), Available(u), amount, now);
    }
  }

  lemma TransferStep(t: Tables, f: UserId, to: UserId, amount: nat, key: string, now: Instant)
    requires Inv(t)
    ensures var t' := Transfer(t, f, to, amount, key, now).0;
      && Inv(t')
      && (|| Still(t, t')
          || (&& amount <= Net(t.journals, Available(f))
              && Single(t, t', Reference(RefTransfer, Text(key)), Available(f), Available(to), amount, now)))
  {
    hide Inv, Books, PendingExplained, HasPostings, Net, SumBy, IndexWhere;
    var t' := Transfer(t, f, to, amount, key, now).0;
    EnsureInv(t, f);
    EnsureInv(Ensure(t, f), to);
    CurrentIsProjected(Ensure(Ensure(t, f), to), f);
    if t' != t {
      PostOne(t, Ensure(Ensure(t, f), to), t', [f, to], Reference(RefTransfer, Text(key)), Available(f),
              Available(to), amount, now);
    }
  }

  lemma RequestStep(t: Tables, limits: Limits, u: UserId, amount: nat, toAddress: string, key: string,
                    required: Positive, now: Instant)
    requires Inv(t)
    ensures var t' := RequestWithdrawal(t, limits, u, amount, toAddress, key, required, now).0;
      && Inv(t')
      && (|| Still(t, t')
          || (&& amount <= Net(t.journals, Available(u))
              && Single(t, t', Reference(RefWithdrawal, Uuid(|t.withdrawals|)), Available(u), WithdrawPending(u),
                        amount, now)))
  {
    hide Books, PendingExplained, HasPostings, Net, SumBy, IndexWhere, DailyRequested;
    var t' := RequestWithdrawal(t, limits, u, amount, toAddress, key, required, now).0;
    EnsureInv(t, u);
    CurrentIsProjected(Ensure(t, u), u);
    if |t'.withdrawals| != |t.withdrawals| {
      var reference := Reference(RefWithdrawal, Uuid(|t.withdrawals|));
      PostMoveBooks(Ensure(t, u), [u], reference, Available(u), WithdrawPending(u), amount, now);
      SameBooksKept(Post(Ensure(t, u), reference, Move(Available(u), WithdrawPending(u), amount), [u], now), t');
      RequestExplained(t, t', u, amount, now);
    }
  }

  lemma RequestExplained(t: Tables, t': Tables, u: UserId, amount: nat, now: Instant)
    requires PendingExplained(t)
    requires Single(t, t', Reference(RefWithdrawal, Uuid(|t.withdrawals|)), Available(u), WithdrawPending(u), amount,
                    now)
    requires |t'.withdrawals| == |t.withdrawals| + 1 && t'.withdrawals[..|t.withdrawals|] == t.withdrawals
    requires var w := t'.withdrawals[|t.withdrawals|]; w.userId == u && w.amount == amount && IsActive(w.status)
    ensures PendingExplained(t')
  {
    hide Net;
    NetMove(t.journals, t'.journals[|t.journals|], Available(u), WithdrawPending(u), amount);
    var w := t'.withdrawals[|t.withdrawals|];
    assert t'.withdrawals == t.withdrawals + [w];
    forall v ensures Net(t'.journals, WithdrawPending(v)) == ActiveSum(t'.withdrawals, v) {
      SumAppend(t.withdrawals, w, ActiveOf(v));
    }
  }

  /** Withdrawal moves that write no journal keep user, amount and activity. */
  ghost predicate Restated(t: Tables, t': Tables) {
    && SameBooks(t, t')
    && (|| SameWithdrawals(t, t')
        || exists id: nat :: id < |t.withdrawals| && |t'.withdrawals| == |t.withdrawals|
                        && t'.withdrawals == t.withdrawals[id := t'.withdrawals[id]]
                        && t'.withdrawals[id].userId == t.withdrawals[id].userId
                        && t'.withdrawals[id].amount == t.withdrawals[id].amount
                        && IsActive(t'.withdrawals[id].status) == IsActive(t.withdrawals[id].status))
  }

  lemma RestatedStep(t: Tables, t': Tables)
    requires Inv(t) && Restated(t, t')
    ensures Inv(t')
  {
    hide Net, Cached, Footprints, AllBalanced;
    SameBooksKept(t, t');
    if !SameWithdrawals(t, t') {
      var id: nat :| id < |t.withdrawals| && t'.withdrawals == t.withdrawals[id := t'.withdrawals[id]]
                     && t'.withdrawals[id].userId == t.withdrawals[id].userId
                     && t'.withdrawals[id].amount == t.withdrawals[id].amount
                     && IsActive(t'.withdrawals[id].status) == IsActive(t.withdrawals[id].status);
      forall u ensures Net(t'.journals, WithdrawPending(u)) == ActiveSum(t'.withdrawals, u) {
        SumUpdate(t.withdrawals, id, t'.withdrawals[id], ActiveOf(u));
      }
    }
  }

  /** Closing an active withdrawal takes its amount out of the user's pending account. */
  lemma ClosedExplained(t: Tables, t': Tables, id: nat)
    requires PendingExplained(t) && id < |t.withdrawals| && IsActive(t.withdrawals[id].status)
    requires |t'.withdrawals| == |t.withdrawals| && t'.withdrawals == t.withdrawals[id := t'.withdrawals[id]]
    requires t'.withdrawals[id].userId == t.withdrawals[id].userId && !IsActive(t'.withdrawals[id].status)
    requires forall u :: Net(t'.journals, WithdrawPending(u)) == Net(t.journals, WithdrawPending(u))
                         - if u == t.withdrawals[id].userId then t.withdrawals[id].amount as int else 0
    ensures PendingExplained(t')
  {
    hide Net;
    forall u ensures Net(t'.journals, WithdrawPending(u)) == ActiveSum(t'.withdrawals, u) {
      SumUpdate(t.withdrawals, id, t'.withdrawals[id], ActiveOf(u));
    }
  }

  lemma PendingCovers(t: Tables, id: nat)
    requires PendingExplained(t) && id < |t.withdrawals| && IsActive(t.withdrawals[id].status)
    ensures t.withdrawals[id].amount <= Net(t.journals, WithdrawPending(t.withdrawals[id].userId))
  {
    hide Net;
    SumAtLeast(t.withdrawals, id, ActiveOf(t.withdrawals[id].userId));
  }

  lemma FailStep(t: Tables, id: nat, reason: string, now: Instant)
    requires Inv(t)
    ensures var t' := Fail(t, id, reason, now).0;
      && Inv(t')
      && (|| Still(t, t')
          || (&& id < |t.withdrawals|
              && var w := t.withdrawals[id];
              && w.amount <= Net(t.journals, WithdrawPending(w.userId))
              && Single(t, t', Reference(RefWithdrawal, Uuid(id)), WithdrawPending(w.userId), Available(w.userId),
                        w.amount, now)))
  {
    hide Books, PendingExplained, HasPostings, Net, SumBy, Sync, Projected, TxAt, Hydrated, CurrentBalances;
    var t' := Fail(t, id, reason, now).0;
    if t' != t {
      var w := t.withdrawals[id];
      var reference := Reference(RefWithdrawal, Uuid(id));
      PendingCovers(t, id);
      PostMoveBooks(t, [w.userId], reference, WithdrawPending(w.userId), Available(w.userId), w.amount, now);
      SameBooksKept(Post(t, reference, Move(WithdrawPending(w.userId), Available(w.userId), w.amount), [w.userId],
                         now), t');
      NetMove(t.journals, t'.journals[|t.journals|], WithdrawPending(w.userId), Available(w.userId), w.amount);
      ClosedExplained(t, t', id);
    }
  }

  /** What confirming withdrawal `id` writes: the payout and, with a fee, the network fee journal. */
  function PayoutJournals(w: Withdrawal, id: nat, fee: Option<NetworkFee>, now: Instant): seq<Journal> {
    var reference := Reference(RefWithdrawal, Uuid(id));
    [Journal(reference, Kori, Move(WithdrawPending(w.userId), System(HotWallet), w.amount), now)]
    + if fee.Some? && w.txHash.Some? && w.txHash.value != ""
      then [Journal(reference, Trx, Move(System(WithdrawNetworkFee), System(HotWalletTrx), fee.value.feeSun), now)]
      else []
  }

  lemma PayoutEffect(js: seq<Journal>, w: Withdrawal, id: nat, fee: Option<NetworkFee>, now: Instant)
    ensures forall u ::
      var js' := js + PayoutJournals(w, id, fee, now);
      && Net(js', Available(u)) == Net(js, Available(u))
      && Net(js', OfflinePending(u)) == Net(js, OfflinePending(u))
      && Net(js', WithdrawPending(u)) == Net(js, WithdrawPending(u)) - if u == w.userId then w.amount as int else 0
  {
    hide SumBy, Net;
    var written := PayoutJournals(w, id, fee, now);
    NetMove(js, written[0], WithdrawPending(w.userId), System(HotWallet), w.amount);
    if |written| == 2 {
      NetMove(js + [written[0]], written[1], System(WithdrawNetworkFee), System(HotWalletTrx), fee.value.feeSun);
      assert js + written == js + [written[0]] + [written[1]];
    } else {
      assert written == [written[0]];
    }
  }

  lemma PayoutBooks(t: Tables, w: Withdrawal, id: nat, fee: Option<NetworkFee>, now: Instant)
    requires Books(t) && w.userId in t.accounts
    ensures var reference := Reference(RefWithdrawal, Uuid(id));
            var t2 := AppendJournal(t, reference, Kori, Move(WithdrawPending(w.userId), System(HotWallet), w.amount),
                                    now);
            var t3 := if |PayoutJournals(w, id, fee, now)| == 2
                      then AppendJournal(t2, reference, Trx,
                             Move(System(WithdrawNetworkFee), System(HotWalletTrx), fee.value.feeSun), now)
                      else t2;
            Books(Sync(t3, [w.userId]))
  {
    hide CachedBut, Cached, Footprints, AllBalanced, SumBy;
    var u := w.userId;
    var reference := Reference(RefWithdrawal, Uuid(id));
    var payout := Move(WithdrawPending(u), System(HotWallet), w.amount);
    OpenBooks(t, [u]);
    MoveEffect(WithdrawPending(u), System(HotWallet), w.amount);
    MovePostsTo(reference, Kori, WithdrawPending(u), System(HotWallet), w.amount, now);
    AppendBooks(t, [u], reference, Kori, payout, now);
    var t2 := AppendJournal(t, reference, Kori, payout, now);
    CloseBooks(t2, [u]);
    if |PayoutJournals(w, id, fee, now)| == 2 {
      var feeMove := Move(System(WithdrawNetworkFee), System(HotWalletTrx), fee.value.feeSun);
      MoveEffect(System(WithdrawNetworkFee), System(HotWalletTrx), fee.value.feeSun);
      MovePostsTo(reference, Trx, System(WithdrawNetworkFee), System(HotWalletTrx), fee.value.feeSun, now);
      AppendBooks(t2, [u], reference, Trx, feeMove, now);
      CloseBooks(AppendJournal(t2, reference, Trx, feeMove, now), [u]);
    }
  }

  lemma ConfirmStep(t: Tables, id: nat, fee: Option<NetworkFee>, now: Instant)
    requires Inv(t)
    ensures var t' := Confirm(t, id, fee, now).0;
      && Inv(t')
      && (|| Still(t, t')
          || (id < |t.withdrawals| && t'.journals == t.journals + PayoutJournals(t.withdrawals[id], id, fee, now)))
  {
    hide Books, PendingExplained, HasPostings, Net, SumBy, Sync, Projected, TxAt, ForWithdrawal, Hydrated, IndexWhere;
    var t' := Confirm(t, id, fee, now).0;
    if t' != t {
      var w := t.withdrawals[id];
      PayoutBooks(t, w, id, fee, now);
      PayoutEffect(t.journals, w, id, fee, now);
      var reference := Reference(RefWithdrawal, Uuid(id));
      var t2 := AppendJournal(t, reference, Kori, Move(WithdrawPending(w.userId), System(HotWallet), w.amount), now);
      var t3 := if |PayoutJournals(w, id, fee, now)| == 2
                then AppendJournal(t2, reference, Trx,
                       Move(System(WithdrawNetworkFee), System(HotWalletTrx), fee.value.feeSun), now)
                else t2;
      assert t3.journals == t.journals + PayoutJournals(w, id, fee, now);
      SameBooksKept(Sync(t3, [w.userId]), t');
      ClosedExplained(t, t', id);
    }
  }
}
