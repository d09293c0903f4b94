/** The double-entry ledger as it runs: every call is one transaction over mutable tables, which
    inserts and updates rows step by step and puts them back when it is refused. Every method is
    proved to do what PostgresSpec says of the whole database. */
module PostgresLedger {
  import opened Domain
  import Sums
  import Text
  import Fees = FeeBooks
  import opened Spec = PostgresSpec

  class Repository {
    const limits: Limits
    var accounts: map<UserId, Account>
    var ledgerAccounts: set<LedgerAccount>
    var journals: seq<Journal>
    var transactions: seq<LedgerTx>
    var deposits: seq<Deposit>
    var withdrawals: seq<Withdrawal>
    var approvals: seq<Approval>
    var devices: map<string, Device>
    var sweeps: seq<Fees.SweepRecord>
    var feeReceipts: seq<FeeReceipt>
    var outbox: seq<OutboxEvent>

    ghost function Db(): Tables
      reads this
    {
      Tables(accounts, ledgerAccounts, journals, transactions, deposits, withdrawals, approvals, devices,
             sweeps, feeReceipts, outbox)
    }

    constructor (limits: Limits, db: Tables)
      ensures Db() == db && this.limits == limits
    {
      this.limits := limits;
      accounts, ledgerAccounts, journals := db.accounts, db.ledgerAccounts, db.journals;
      transactions, deposits, withdrawals, approvals := db.transactions, db.deposits, db.withdrawals, db.approvals;
      devices, sweeps, feeReceipts, outbox := db.devices, db.sweeps, db.feeReceipts, db.outbox;
    }

    // ---------- Private helpers ----------

    method EnsureAccount(userId: UserId)
      modifies this`accounts
      ensures Db() == Ensure(old(Db()), userId)
      ensures userId in accounts
    {
      if userId !in accounts {
        accounts := accounts[userId := Account(0, 0)];
      }
    }

    method EnsureLedgerAccount(account: LedgerAccount)
      modifies this`ledgerAccounts
      ensures ledgerAccounts == old(ledgerAccounts) + {account}
    {
      if account !in ledgerAccounts {
        ledgerAccounts := ledgerAccounts + {account};
      }
    }

    /** The journal row first, then the ledger accounts it needs, then its postings. Nothing checks
        that they balance. */
    method InsertJournal(reference: Reference, currency: Currency, postings: seq<Posting>, now: Instant)
      modifies this`journals, this`ledgerAccounts
      ensures Db() == AppendJournal(old(Db()), reference, currency, postings, now)
    {
      var row := |journals|;
      journals := journals + [Journal(reference, currency, [], now)];
      for i := 0 to |postings|
        invariant ledgerAccounts == old(ledgerAccounts) + PostedAccounts(postings[..i])
        invariant journals == old(journals) + [Journal(reference, currency, [], now)]
      {
        EnsureLedgerAccount(postings[i].account);
        assert postings[..i + 1] == postings[..i] + [postings[i]];
        assert PostedAccounts(postings[..i + 1]) == PostedAccounts(postings[..i]) + {postings[i].account};
      }
      assert postings[..|postings|] == postings;
      journals := journals[row := journals[row].(postings := postings)];
    }

    method SyncUserAccountProjection(users: seq<UserId>)
      modifies this`accounts
      ensures Db() == Sync(old(Db()), users)
    {
      hide HasPostings, Projected;
      for i := 0 to |users|
        invariant Db() == Sync(old(Db()), users[..i])
      {
        SyncNext(old(Db()), users, i);
        if users[i] in users[..i] || !HasPostings(journals, users[i]) {
          continue;
        }
        if users[i] in accounts {
          accounts := accounts[users[i] := Projected(journals, users[i])];
        }
      }
      assert users[..|users|] == users;
    }

    method EnqueueOutboxEvent(payload: Payload, occurredAt: Instant)
      modifies this`outbox
      ensures Db() == Enqueue(old(Db()), payload, occurredAt)
    {
      outbox := outbox + [OutboxEvent(payload, Pending, 0, occurredAt, occurredAt, None, None, None, None, None)];
    }

    method HydrateWithdrawal(id: nat) returns (w: Withdrawal)
      requires id < |withdrawals|
      ensures w == Hydrated(Db(), id)
    {
      var count := 0;
      for i := 0 to |approvals|
        invariant count == |ForWithdrawal(approvals[..i], id)|
      {
        assert approvals[..i + 1][..i] == approvals[..i];
        if approvals[i].withdrawalId == id {
          count := count + 1;
        }
      }
      assert approvals[..|approvals|] == approvals;
      w := withdrawals[id].(approvalCount := count);
    }

    /** Reads the row back, announces it, answers it. */
    method AnnounceWithdrawal(id: nat, now: Instant) returns (w: Withdrawal)
      requires id < |withdrawals|
      modifies this`outbox
      ensures w == old(Hydrated(Db(), id)) == Hydrated(Db(), id)
      ensures Db() == Announce(old(Db()), id, now)
    {
      w := HydrateWithdrawal(id);
      EnqueueOutboxEvent(WithdrawalPayload(id, w), now);
    }

    // ---------- Deposits, credits, transfers ----------

    method ApplyDeposit(userId: UserId, amount: nat, txHash: string, blockNumber: nat, now: Instant) returns (r: Reply)
      modifies this
      ensures (Db(), r) == Spec.ApplyDeposit(old(Db()), userId, amount, txHash, blockNumber, now)
    {
      hide Sync, AppendJournal;
      var existing := IndexWhere(deposits, HashIs(txHash));
      if existing.Some? {
        return DepositReply(deposits[existing.value], true);
      }
      EnsureAccount(userId);
      transactions := transactions + [LedgerTx(userId, DepositTx, amount, TxConfirmed, Some(txHash), None, None, now)];
      var depositId := |deposits|;
      var deposit := Deposit(depositId, userId, txHash, amount, Credited, blockNumber, now);
      deposits := deposits + [deposit];
      InsertJournal(Reference(RefDeposit, Uuid(depositId)), Kori,
                    [Posting(System(DepositClearing), Debit, amount), Posting(Available(userId), Credit, amount)], now);
      SyncUserAccountProjection([userId]);
      EnqueueOutboxEvent(DepositPayload(deposit), now);
      r := DepositReply(deposit, false);
    }

    method CompleteDeposit(depositId: nat) returns (r: Reply)
      modifies this`deposits
      ensures (Db(), r) == Spec.CompleteDeposit(old(Db()), depositId)
    {
      if depositId >= |deposits| {
        return Refused(NotFound);
      }
      if deposits[depositId].status == DepositCompleted {
        return DepositReply(deposits[depositId], true);
      }
      deposits := deposits[depositId := deposits[depositId].(status := DepositCompleted)];
      r := DepositReply(deposits[depositId], false);
    }

    method ApplyExternalCredit(userId: UserId, amount: int, currency: string, reference: Reference, now: Instant)
      returns (r: Reply)
      modifies this
      ensures (Db(), r) == Spec.ApplyCredit(old(Db()), userId, amount, currency, reference, now)
    {
      hide Sync, AppendJournal;
      if amount <= 0 {
        return Refused(ValidationError);
      }
      if Text.NormalizeCode(currency) != "KORI" {
        return Refused(UnsupportedCurrency);
      }
      var existing := IndexWhere(journals, RefersTo(reference));
      if existing.Some? {
        return CreditReply(ExternalCredit(userId, amount, reference, journals[existing.value].createdAt), true);
      }
      EnsureAccount(userId);
      InsertJournal(reference, Kori,
                    [Posting(System(FoxyaCreditSync), Debit, amount), Posting(Available(userId), Credit, amount)], now);
      SyncUserAccountProjection([userId]);
      r := CreditReply(ExternalCredit(userId, amount, reference, now), false);
    }

    method CountTransferRows(key: string) returns (count: int)
      ensures count == Sums.SumBy(transactions, CountRow(IsTransferRow(key)))
    {
      count := 0;
      for i := 0 to |transactions|
        invariant count == Sums.SumBy(transactions[..i], CountRow(IsTransferRow(key)))
      {
        assert transactions[..i + 1][..i] == transactions[..i];
        var tx := transactions[i];
        if tx.idempotencyKey == Some(key) && (tx.txType == TransferOutTx || tx.txType == TransferInTx) {
          count := count + 1;
        }
      }
      assert transactions[..|transactions|] == transactions;
    }

    method Transfer(fromUser: UserId, toUser: UserId, amount: nat, key: string, now: Instant) returns (r: Reply)
      modifies this
      ensures (Db(), r) == Spec.Transfer(old(Db()), fromUser, toUser, amount, key, now)
    {
      hide Sync, AppendJournal, HasPostings, Projected, Sums.SumBy;
      if fromUser == toUser {
        return Refused(ValidationError);
      }
      var existingRows := CountTransferRows(key);
      if existingRows >= 2 {
        var outAt := IndexWhere(transactions, IsTransferLeg(key, TransferOutTx));
        var inAt := IndexWhere(transactions, IsTransferLeg(key, TransferInTx));
        if outAt.None? || inAt.None? {
          return Refused(StateCorrupted);
        }
        return TransferReply(transactions[outAt.value], transactions[inAt.value], true);
      }
      var begun := accounts;
      EnsureAccount(fromUser);
      EnsureAccount(toUser);
      var available :=
        if HasPostings(journals, fromUser) then Projected(journals, fromUser).balance else accounts[fromUser].balance;
      if available < amount {
        accounts := begun;
        return Refused(InsufficientBalance);
      }
      var fromTx := LedgerTx(fromUser, TransferOutTx, amount, TxConfirmed, None, Some(toUser), Some(key), now);
      var toTx := LedgerTx(toUser, TransferInTx, amount, TxConfirmed, None, Some(fromUser), Some(key), now);
      transactions := transactions + [fromTx, toTx];
      InsertJournal(Reference(RefTransfer, Text(key)), Kori,
                    [Posting(Available(fromUser), Debit, amount), Posting(Available(toUser), Credit, amount)], now);
      SyncUserAccountProjection([fromUser, toUser]);
      r := TransferReply(fromTx, toTx, false);
    }

    // ---------- Withdrawals ----------

    method RequestWithdrawal(userId: UserId, amount: nat, toAddress: string, key: string, requiredApprovals: Positive,
                             now: Instant) returns (r: Reply)
      modifies this
      ensures (Db(), r) ==
        Spec.RequestWithdrawal(old(Db()), limits, userId, amount, toAddress, key, requiredApprovals, now)
    {
      hide Sync, AppendJournal, HasPostings, Projected, DailyRequested, Hydrated;
      if amount > limits.singleLimit {
        return Refused(LimitExceeded);
      }
      var existing := IndexWhere(withdrawals, KeyIs(key));
      if existing.Some? {
        var known := HydrateWithdrawal(existing.value);
        return RequestReply(known, true);
      }
      var begun := accounts;
      EnsureAccount(userId);
      var available :=
        if HasPostings(journals, userId) then Projected(journals, userId).balance else accounts[userId].balance;
      if available < amount {
        accounts := begun;
        return Refused(InsufficientBalance);
      }
      if DailyRequested(withdrawals, userId, DayOf(now)) + amount > limits.dailyLimit {
        accounts := begun;
        return Refused(LimitExceeded);
      }
      var ledgerTx := |transactions|;
      transactions := transactions + [LedgerTx(userId, WithdrawTx, amount, TxPending, None, None, Some(key), now)];
      var id := |withdrawals|;
      withdrawals := withdrawals + [NewWithdrawal(userId, amount, toAddress, key, ledgerTx, requiredApprovals, now)];
      InsertJournal(Reference(RefWithdrawal, Uuid(id)), Kori,
                    [Posting(Available(userId), Debit, amount), Posting(WithdrawPending(userId), Credit, amount)], now);
      SyncUserAccountProjection([userId]);
      var hydrated := AnnounceWithdrawal(id, now);
      r := RequestReply(hydrated, false);
    }

    method ConfirmWithdrawalExternalAuth(id: nat, provider: string, requestId: string, now: Instant) returns (r: Reply)
      modifies this
      ensures (Db(), r) == Spec.ConfirmAuth(old(Db()), id, provider, requestId, now)
    {
      hide Hydrated;
      if id >= |withdrawals| {
        return Refused(NotFound);
      }
      var row := withdrawals[id];
      if row.status == LedgerReserved {
        withdrawals := withdrawals[id := row.(status := PendingAdmin, authProvider := Some(provider),
                                              authRequestId := Some(requestId), authConfirmedAt := Some(now))];
        var updated := AnnounceWithdrawal(id, now);
        return WithdrawalReply(updated);
      }
      if row.authProvider == Some(provider) && row.authRequestId == Some(requestId) && row.authConfirmedAt.Some? {
        var known := HydrateWithdrawal(id);
        return WithdrawalReply(known);
      }
      r := Refused(InvalidState);
    }

    method MarkWithdrawalReviewRequired(id: nat, now: Instant) returns (r: Reply)
      modifies this
      ensures (Db(), r) == Spec.MarkReview(old(Db()), id, now)
    {
      hide Hydrated;
      if id >= |withdrawals| {
        return Refused(NotFound);
      }
      var hydrated: Withdrawal;
      if withdrawals[id].status != PendingAdmin {
        hydrated := HydrateWithdrawal(id);
      } else {
        withdrawals := withdrawals[id := withdrawals[id].(reviewRequiredAt := Some(now))];
        hydrated := AnnounceWithdrawal(id, now);
      }
      r := WithdrawalReply(hydrated);
    }

    method ApproveWithdrawal(id: nat, adminId: string, now: Instant) returns (r: Reply)
      modifies this
      ensures (Db(), r) == Spec.Approve(old(Db()), id, adminId, now)
    {
      if id >= |withdrawals| {
        return Refused(NotFound);
      }
      var row := withdrawals[id];
      if row.status != PendingAdmin {
        return Refused(InvalidState);
      }
      if IndexWhere(approvals, IsApprovalBy(id, adminId)).Some? {
        return Refused(AlreadyApproved);
      }
      approvals := approvals + [Approval(id, adminId, now)];
      var counted := HydrateWithdrawal(id);
      var finalized := counted.approvalCount >= row.requiredApprovals;
      hide ForWithdrawal;
      if finalized {
        withdrawals := withdrawals[id := row.(status := AdminApproved, approvedAt := Some(now))];
      } else {
        assert withdrawals[id := row] == withdrawals;
      }
      var updated := AnnounceWithdrawal(id, now);
      r := ApprovalReply(updated, finalized);
    }

    method BroadcastWithdrawal(id: nat, txHash: string, now: Instant) returns (r: Reply)
      modifies this
      ensures (Db(), r) == Spec.Broadcast(old(Db()), id, txHash, now)
    {
      hide Hydrated;
      if id >= |withdrawals| {
        return Refused(NotFound);
      }
      var row := withdrawals[id];
      if row.status != AdminApproved {
        return Refused(InvalidState);
      }
      withdrawals := withdrawals[id := row.(status := TxBroadcasted, txHash := Some(txHash),
                                            broadcastedAt := Some(now))];
      var updated := AnnounceWithdrawal(id, now);
      r := WithdrawalReply(updated);
    }

    method UpdateTransaction(at: nat, status: TxStatus, blockTx: Option<string>, w: Withdrawal)
      modifies this`transactions
      ensures transactions ==
        SetTx(old(transactions), at, TxAt(old(transactions), at, w).(status := status, blockTx := blockTx))
    {
      if at < |transactions| {
        transactions := transactions[at := transactions[at].(status := status, blockTx := blockTx)];
      }
    }

    method PersistNetworkFeeReceipt(reference: Reference, fee: NetworkFee, now: Instant)
      modifies this`feeReceipts
      ensures Db() == AddReceipt(old(Db()), reference, fee, now)
    {
      if IndexWhere(feeReceipts, IsReceiptFor(reference)).None? {
        feeReceipts := feeReceipts + [FeeReceipt(reference, fee, now)];
      }
    }

    /** What both confirmations do with a fee. */
    method BookNetworkFee(reference: Reference, expense: SystemAccount, wallet: SystemAccount, fee: NetworkFee,
                          now: Instant)
      modifies this`feeReceipts, this`journals, this`ledgerAccounts
      ensures Db() == BookFee(old(Db()), reference, expense, wallet, fee, now)
    {
      PersistNetworkFeeReceipt(reference, fee, now);
      InsertJournal(reference, Trx,
                    [Posting(System(expense), Debit, fee.feeSun), Posting(System(wallet), Credit, fee.feeSun)], now);
    }

    method ConfirmWithdrawal(id: nat, fee: Option<NetworkFee>, now: Instant) returns (r: Reply)
      modifies this
      ensures (Db(), r) == Spec.Confirm(old(Db()), id, fee, now)
    {
      hide BookFee, SetTx, TxAt, Sync, AppendJournal, HasPostings, Projected, Hydrated;
      if id >= |withdrawals| {
        return Refused(NotFound);
      }
      var row := withdrawals[id];
      if row.status != TxBroadcasted {
        return Refused(InvalidState);
      }
      var u := row.userId;
      if u !in accounts {
        return Refused(StateCorrupted);
      }
      var locked :=
        if HasPostings(journals, u) then Projected(journals, u).lockedBalance else accounts[u].lockedBalance;
      if locked < row.amount {
        return Refused(StateCorrupted);
      }
      UpdateTransaction(row.ledgerTx, TxConfirmed, row.txHash, row);
      withdrawals := withdrawals[id := row.(status := Completed, confirmedAt := Some(now))];
      var reference := Reference(RefWithdrawal, Uuid(id));
      InsertJournal(reference, Kori,
                    [Posting(WithdrawPending(u), Debit, row.amount), Posting(System(HotWallet), Credit, row.amount)], now);
      if fee.Some? && row.txHash.Some? && row.txHash.value != "" {
        BookNetworkFee(reference, WithdrawNetworkFee, HotWalletTrx, fee.value, now);
      }
      SyncUserAccountProjection([u]);
      var updated := AnnounceWithdrawal(id, now);
      r := WithdrawalReply(updated);
    }

    method FailWithdrawal(id: nat, reason: string, now: Instant) returns (r: Reply)
      modifies this
      ensures (Db(), r) == Spec.Fail(old(Db()), id, reason, now)
    {
      hide Sync, AppendJournal, HasPostings, Projected, Hydrated;
      if id >= |withdrawals| {
        return Refused(NotFound);
      }
      var row := withdrawals[id];
      if !IsActive(row.status) {
        return Refused(InvalidState);
      }
      var u := row.userId;
      if u !in accounts {
        return Refused(StateCorrupted);
      }
      var locked :=
        if HasPostings(journals, u) then Projected(journals, u).lockedBalance else accounts[u].lockedBalance;
      if locked < row.amount {
        return Refused(StateCorrupted);
      }
      UpdateTransaction(row.ledgerTx, TxFailed, TxAt(transactions, row.ledgerTx, row).blockTx, row);
      withdrawals := withdrawals[id := row.(status := Failed, failedAt := Some(now), failReason := Some(reason))];
      InsertJournal(Reference(RefWithdrawal, Uuid(id)), Kori,
                    [Posting(WithdrawPending(u), Debit, row.amount), Posting(Available(u), Credit, row.amount)], now);
      SyncUserAccountProjection([u]);
      var updated := AnnounceWithdrawal(id, now);
      r := WithdrawalReply(updated);
    }

    // ---------- Sweeps ----------

    method CreateSweepRecord(amount: nat, externalRef: Option<string>) returns (r: Fees.SweepReply)
      modifies this`sweeps
      ensures (Db(), r) == Spec.SweepCall(old(Db()), Fees.Create(amount, externalRef))
    {
      if externalRef.Some? && externalRef.value != "" {
        var duplicated := IndexWhere(sweeps, HasExternalRef(externalRef.value));
        if duplicated.Some? {
          return Fees.SweepDone(sweeps[duplicated.value]);
        }
      }
      var row := Fees.SweepRecord(amount, externalRef, Fees.Planned, None, 0);
      sweeps := sweeps + [row];
      r := Fees.SweepDone(row);
    }

    method ConfirmSweep(id: nat, fee: Option<NetworkFee>, now: Instant) returns (r: Fees.SweepReply)
      modifies this
      ensures (Db(), r) == Spec.SweepCall(old(Db()), Fees.ConfirmSweep(id, fee, now))
    {
      hide BookFee;
      if id >= |sweeps| {
        return Fees.SweepRefused(NotFound);
      }
      var existing := sweeps[id];
      if existing.status != Fees.Planned && existing.status != Fees.Broadcasted {
        return Fees.SweepRefused(InvalidState);
      }
      var row := existing.(status := Fees.Confirmed);
      sweeps := sweeps[id := row];
      if fee.Some? && row.txHash.Some? && row.txHash.value != "" {
        BookNetworkFee(SweepRef(id), SweepNetworkFee, SweepSourceTrx, fee.value, now);
      }
      r := Fees.SweepDone(row);
    }

    // ---------- Offline pay ----------

    method LockOfflinePayCollateral(userId: UserId, amount: nat, referenceId: string, now: Instant)
      returns (r: OfflineReply)
      modifies this
      ensures (Db(), r) == Spec.LockCollateral(old(Db()), userId, amount, referenceId, now)
    {
      hide Sync, AppendJournal, HasPostings, Projected;
      var reference := Reference(RefOfflineLock, Text(referenceId));
      if IndexWhere(journals, RefersTo(reference)).Some? {
        return LockReply(true);
      }
      var begun := accounts;
      EnsureAccount(userId);
      var available :=
        if HasPostings(journals, userId) then Projected(journals, userId).balance else accounts[userId].balance;
      if available < amount {
        accounts := begun;
        return OfflineRefused(InsufficientBalance);
      }
      InsertJournal(reference, Kori,
                    [Posting(Available(userId), Debit, amount), Posting(OfflinePending(userId), Credit, amount)], now);
      SyncUserAccountProjection([userId]);
      EnqueueOutboxEvent(OfflinePayEvent("offline_pay.collateral.locked", referenceId, userId, amount), now);
      r := LockReply(false);
    }

    method ReleaseOfflinePayCollateral(userId: UserId, amount: nat, referenceId: string, now: Instant)
      returns (r: OfflineReply)
      modifies this
      ensures (Db(), r) == Spec.ReleaseCollateral(old(Db()), userId, amount, referenceId, now)
    {
      hide Sync, AppendJournal, Net;
      var reference := Reference(RefOfflineRelease, Text(referenceId));
      if IndexWhere(journals, RefersTo(reference)).Some? {
        return LockReply(true);
      }
      var begun := accounts;
      EnsureAccount(userId);
      if Net(journals, OfflinePending(userId)) < amount {
        accounts := begun;
        return OfflineRefused(InsufficientOfflinePayPending);
      }
      InsertJournal(reference, Kori,
                    [Posting(OfflinePending(userId), Debit, amount), Posting(Available(userId), Credit, amount)], now);
      SyncUserAccountProjection([userId]);
      EnqueueOutboxEvent(OfflinePayEvent("offline_pay.collateral.released", referenceId, userId, amount), now);
      r := LockReply(false);
    }

    method UpsertOfflinePayDevice(deviceId: string, userId: UserId, active: bool)
      modifies this`devices
      ensures Db() == Spec.OfflineStep(old(Db()), DeviceOp(deviceId, userId, active)).0
    {
      devices := devices[deviceId := Device(userId, active)];
    }

    method ResolveReceiverUserId(sender: UserId, receiverUserId: Option<string>, receiverDeviceId: Option<string>)
      returns (receiver: Option<UserId>)
      ensures forall s: Settlement ::
                (s.userId == sender && s.receiverUserId == receiverUserId && s.receiverDeviceId == receiverDeviceId)
                ==> receiver == ResolveReceiver(Db(), s)
      ensures receiver != Some(sender) && receiver != Some("")
    {
      var normalized := if receiverUserId.Some? then Text.Trim(receiverUserId.value) else "";
      if normalized != "" && normalized != sender {
        return Some(normalized);
      }
      var device := if receiverDeviceId.Some? then Text.Trim(receiverDeviceId.value) else "";
      if device == "" || device !in devices || !devices[device].active {
        return None;
      }
      var owner := devices[device].userId;
      receiver := if owner == "" || owner == sender then None else Some(owner);
    }

    method AppendReceiverSettlementIfNeeded(s: Settlement, receiver: Option<UserId>, receiverCredit: nat)
      requires receiver == ResolveReceiver(Db(), s) && receiverCredit == ReceiverCredit(s)
      modifies this`journals, this`ledgerAccounts
      ensures Db() == PayReceiver(old(Db()), s)
    {
      hide AppendJournal, ResolveReceiver, ReceiverCredit;
      if receiver.None? || (!s.settled && !s.honored) || s.action != Release || s.conflict {
        return;
      }
      if IndexWhere(journals, RefersTo(ReceiverRef(s.id))).Some? {
        return;
      }
      InsertJournal(ReceiverRef(s.id), Kori,
                    [Posting(System(OfflinePayClearing), Debit, receiverCredit),
                     Posting(Available(receiver.value), Credit, receiverCredit)], s.now);
    }

    /** The end both the first call and its replays share. */
    method PayReceiverAndSync(s: Settlement, receiver: Option<UserId>, receiverCredit: nat, affected: seq<UserId>)
      requires receiver == ResolveReceiver(Db(), s) && receiverCredit == ReceiverCredit(s)
      modifies this`journals, this`ledgerAccounts, this`accounts
      ensures Db() == Sync(if s.receiverRequested then PayReceiver(old(Db()), s) else old(Db()), affected)
    {
      hide Sync, PayReceiver, ResolveReceiver, ReceiverCredit;
      if s.receiverRequested {
        AppendReceiverSettlementIfNeeded(s, receiver, receiverCredit);
      }
      SyncUserAccountProjection(affected);
    }

    method CalculateOfflinePaySettlementFee(assetCode: string, amount: nat) returns (fee: nat)
      ensures fee <= amount && (amount > 0 ==> fee < amount)
      ensures IsFee(assetCode, amount, fee) && fee == SettlementFee(assetCode, amount)
    {
      var feeBps := FeeBps(assetCode);
      if feeBps == 0 || amount == 0 {
        return 0;
      }
      fee := (amount * feeBps + BPS_DENOMINATOR / 2) / BPS_DENOMINATOR;
    }

    method RefuseSettlement(s: Settlement, expectedFee: nat) returns (refusal: Option<ErrorCode>)
      ensures refusal ==
        if s.feeAmount.Some? && s.feeAmount.value < 0 then Some(InvalidOfflinePayFee)
        else if s.action == Release && s.feeAmount.Some? && s.feeAmount.value != expectedFee
        then Some(OfflinePayFeeMismatch)
        else if Net(journals, OfflinePending(s.userId)) < s.amount then Some(InsufficientOfflinePayPending)
        else None
    {
      hide Net;
      if s.feeAmount.Some? && s.feeAmount.value < 0 {
        return Some(InvalidOfflinePayFee);
      }
      if s.action == Release && s.feeAmount.Some? && s.feeAmount.value != expectedFee {
        return Some(OfflinePayFeeMismatch);
      }
      if Net(journals, OfflinePending(s.userId)) < s.amount {
        return Some(InsufficientOfflinePayPending);
      }
      return None;
    }

    method SettlementPostings(s: Settlement, fee: nat, receiverCredit: nat) returns (postings: seq<Posting>)
      requires fee == FeeOf(s) && receiverCredit == ReceiverCredit(s)
      ensures postings == SenderPostings(s)
    {
      if s.action != Release {
        return [Posting(OfflinePending(s.userId), Debit, s.amount), Posting(Available(s.userId), Credit, s.amount)];
      }
      postings := [Posting(OfflinePending(s.userId), Debit, s.amount),
                   Posting(System(OfflinePayClearing), Credit, receiverCredit)];
      if fee > 0 {
        postings := postings + [Posting(System(OfflinePayFee), Credit, fee)];
      }
    }

    method EnsureAffectedAccounts(s: Settlement, receiver: Option<UserId>) returns (affected: seq<UserId>)
      requires receiver == ResolveReceiver(Db(), s)
      modifies this`accounts
      ensures affected == AffectedUsers(old(Db()), s)
      ensures Db() == EnsureAffected(old(Db()), s)
      ensures receiver == ResolveReceiver(Db(), s)
    {
      hide ResolveReceiver, Touch;
      affected := [s.userId];
      EnsureAccount(s.userId);
      if receiver.Some? && s.receiverRequested {
        affected := [s.userId, receiver.value];
        EnsureAccount(receiver.value);
      }
      ReceiverUnmoved(old(Db()), Db(), s);
    }

    method CreditAfterFee(s: Settlement, expectedFee: nat) returns (fee: nat, receiverCredit: nat)
      requires expectedFee == SettlementFee(s.assetCode, s.amount)
      ensures fee == FeeOf(s) && receiverCredit == ReceiverCredit(s)
    {
      hide SettlementFee;
      fee := if s.action == Release then expectedFee else 0;
      receiverCredit := if s.amount > fee then s.amount - fee else 0;
    }

    /** The accepted first call: sender journal, receiver journal, rows, answer, announcement. */
    method BookSettlement(s: Settlement, receiver: Option<UserId>, fee: nat, receiverCredit: nat, affected: seq<UserId>)
      returns (r: OfflineReply)
      requires receiver == ResolveReceiver(Db(), s) && fee == FeeOf(s) && receiverCredit == ReceiverCredit(s)
      modifies this
      ensures var t2 := AppendJournal(old(Db()), SettlementRef(s.id), Kori, SenderPostings(s), s.now);
              var t3 := Sync(if s.receiverRequested then PayReceiver(t2, s) else t2, affected);
              && Db() == Enqueue(t3, OfflinePayEvent("offline_pay.settlement.finalized", s.id, s.userId, s.amount), s.now)
              && r == SettleResult(t3, s.userId, false, fee)
    {
      hide Sync, AppendJournal, PayReceiver, ResolveReceiver, SenderPostings, FeeOf, ReceiverCredit, SettleResult,
           Enqueue;
      var postings := SettlementPostings(s, fee, receiverCredit);
      InsertJournal(SettlementRef(s.id), Kori, postings, s.now);
      ReceiverUnmoved(old(Db()), Db(), s);
      PayReceiverAndSync(s, receiver, receiverCredit, affected);
      r := ReadSettlement(s.userId, false, fee);
      EnqueueOutboxEvent(OfflinePayEvent("offline_pay.settlement.finalized", s.id, s.userId, s.amount), s.now);
    }

    method FinalizeOfflinePaySettlement(s: Settlement) returns (r: OfflineReply)
      modifies this
      ensures (Db(), r) == Spec.Finalize(old(Db()), s)
    {
      hide Sync, AppendJournal, Net, Projected, SettlementFee, PaysReceiver, PayReceiver, ResolveReceiver,
           SenderPostings, SettleResult, IndexWhere, EnsureAffected, AffectedUsers, FeeOf, ReceiverCredit, Enqueue;
      var receiver := ResolveReceiverUserId(s.userId, s.receiverUserId, s.receiverDeviceId);
      var existing := IndexWhere(journals, RefersTo(SettlementRef(s.id)));
      var begun := accounts;
      var affected := EnsureAffectedAccounts(s, receiver);
      var expectedFee := CalculateOfflinePaySettlementFee(s.assetCode, s.amount);
      var fee, receiverCredit := CreditAfterFee(s, expectedFee);
      if existing.Some? {
        PayReceiverAndSync(s, receiver, receiverCredit, affected);
        r := ReadSettlement(s.userId, true, if s.feeAmount.Some? then s.feeAmount.value else 0);
        return;
      }
      var refusal := RefuseSettlement(s, expectedFee);
      if refusal.Some? {
        accounts := begun;
        return OfflineRefused(refusal.value);
      }
      r := BookSettlement(s, receiver, fee, receiverCredit, affected);
    }

    method ReadSettlement(userId: UserId, duplicated: bool, fee: int) returns (r: OfflineReply)
      ensures r == SettleResult(Db(), userId, duplicated, fee)
    {
      var projected := Projected(journals, userId);
      r := SettleReply(duplicated, fee, projected.balance, projected.lockedBalance, Net(journals, OfflinePending(userId)));
    }

    method CompensateOfflinePaySettlement(id: string, userId: UserId, amount: nat, action: ReleaseAction, now: Instant)
      returns (r: OfflineReply)
      modifies this
      ensures (Db(), r) == Spec.Compensate(old(Db()), id, userId, amount, action, now)
    {
      hide Sync, AppendJournal, Net, Projected;
      var reference := Reference(RefCompensation, Text(id));
      if IndexWhere(journals, RefersTo(reference)).Some? {
        r := ReadSettlement(userId, true, 0);
        return;
      }
      EnsureAccount(userId);
      var from := if action == Release then System(OfflinePayClearing) else Available(userId);
      InsertJournal(reference, Kori, [Posting(from, Debit, amount), Posting(OfflinePending(userId), Credit, amount)],
                    now);
      SyncUserAccountProjection([userId]);
      r := ReadSettlement(userId, false, 0);
      EnqueueOutboxEvent(OfflinePayEvent("offline_pay.settlement.compensated", id, userId, amount), now);
    }

    // ---------- Reconciliation ----------

    /** One posting pair that pulls `account` by `delta`. */
    method InsertReconciliation(reference: Reference, account: LedgerAccount, delta: int, now: Instant)
      requires delta != 0
      modifies this`journals, this`ledgerAccounts
      ensures Db() == AppendJournal(old(Db()), reference, Kori, ReconcilePostings(account, delta), now)
    {
      var absolute := if delta < 0 then delta * -1 else delta;
      var pool := System(OfflinePayReconciliation);
      var postings := if delta > 0
                      then [Posting(pool, Debit, absolute), Posting(account, Credit, absolute)]
                      else [Posting(account, Debit, absolute), Posting(pool, Credit, absolute)];
      InsertJournal(reference, Kori, postings, now);
    }

    method ReconcileOfflinePayUserBalance(userId: UserId, target: int, now: Instant) returns (r: OfflineReply)
      modifies this
      ensures (Db(), r) == Spec.ReconcileBalance(old(Db()), userId, target, now)
    {
      hide Sync, AppendJournal, Projected, ReconcilePostings;
      EnsureAccount(userId);
      var projected := Projected(journals, userId);
      var previous := projected.balance + projected.lockedBalance;
      var delta := target - previous;
      if delta != 0 {
        if delta > 0 && (Available(userId) in ledgerAccounts || OfflinePending(userId) in ledgerAccounts
                         || WithdrawPending(userId) in ledgerAccounts) {
          return ReconcileReply(previous, target, delta, false);
        }
        InsertReconciliation(Reference(RefReconciliation, UserAt(userId, now)), Available(userId), delta, now);
        SyncUserAccountProjection([userId]);
      }
      r := ReconcileReply(previous, target, delta, delta != 0);
    }

    method ReconcileOfflinePayPendingBalance(userId: UserId, target: int, now: Instant) returns (r: OfflineReply)
      modifies this
      ensures (Db(), r) == Spec.ReconcilePending(old(Db()), userId, target, now)
    {
      hide Sync, AppendJournal, Net, ReconcilePostings;
      EnsureAccount(userId);
      var previous := Net(journals, OfflinePending(userId));
      var delta := target - previous;
      if delta != 0 {
        InsertReconciliation(Reference(RefPendingReconciliation, UserAt(userId, now)), OfflinePending(userId), delta,
                             now);
        SyncUserAccountProjection([userId]);
      }
      r := ReconcileReply(previous, target, delta, delta != 0);
    }

    /** Refreshes one row after the other, in the order the database lists them. */
    method RebuildAccountProjections() returns (r: OfflineReply)
      modifies this`accounts
      ensures (Db(), r) == Spec.OfflineStep(old(Db()), RebuildOp)
    {
      hide HasPostings, Projected;
      var count := |accounts|;
      var left := accounts.Keys;
      while left != {}
        invariant left <= accounts.Keys == old(accounts).Keys
        invariant forall u :: u in accounts ==>
                    accounts[u] == if u !in left && HasPostings(journals, u) then Projected(journals, u)
                                   else old(accounts)[u]
        decreases |left|
      {
        var u :| u in left;
        left := left - {u};
        SyncUserAccountProjection([u]);
      }
      assert accounts == Spec.Rebuild(old(Db())).accounts;
      r := DoneReply(count);
    }
  }

  /** One more user to refresh; a user seen before is already up to date. */
  lemma SyncNext(t: Tables, users: seq<UserId>, i: nat)
    requires i < |users|
    ensures Sync(t, users[..i + 1]) == SyncUser(Sync(t, users[..i]), users[i])
    ensures users[i] in users[..i] ==> Sync(t, users[..i + 1]) == Sync(t, users[..i])
  {
    hide HasPostings, Projected;
    assert users[..i + 1][..i] == users[..i];
    if users[i] in users[..i] {
      assert Sync(t, users[..i + 1]).accounts == Sync(t, users[..i]).accounts;
    }
  }

  /** The receiver depends on the devices alone. */
  lemma ReceiverUnmoved(t: Tables, t': Tables, s: Settlement)
    requires t'.devices == t.devices
    ensures ResolveReceiver(t', s) == ResolveReceiver(t, s)
  {
  }
}
