/** The in-memory ledger as it runs: mutable tables, changed one field at a time inside each call.
    Every method is proved to do what MemorySpec says of the whole state. */
module InMemoryLedger {
  import opened Domain
  import Sums
  import Spec = MemorySpec
  import Fees = FeeBooks
  import Store = OutboxStore

  class Ledger {
    const limits: Limits
    var accounts: map<UserId, Account>
    var transactions: seq<LedgerTx>
    var deposits: seq<Deposit>
    var credits: seq<ExternalCredit>
    var withdrawals: seq<Withdrawal>
    var withdrawalByKey: map<string, nat>
    var transferByKey: map<string, (nat, nat)>
    var approvals: map<nat, seq<Approval>>
    var fees: Fees.Books
    var outbox: seq<OutboxEvent>

    ghost function State(): Spec.Memory
      reads this
    {
      Spec.Memory(accounts, transactions, deposits, credits, withdrawals, withdrawalByKey, transferByKey, approvals,
                  fees, outbox)
    }

    constructor (limits: Limits)
      ensures State() == Spec.EMPTY && this.limits == limits
    {
      this.limits := limits;
      accounts, transactions, deposits, credits := map[], [], [], [];
      withdrawals, withdrawalByKey, transferByKey, approvals := [], map[], map[], map[];
      fees, outbox := Fees.EMPTY, [];
    }

    // ---------- Private helpers ----------

    method GetMutableAccount(userId: UserId) returns (account: Account)
      modifies this`accounts
      ensures accounts == Touch(old(accounts), userId)
      ensures userId in accounts && account == accounts[userId] == AccountOf(old(accounts), userId)
    {
      if userId !in accounts {
        accounts := accounts[userId := Account(0, 0)];
      }
      account := accounts[userId];
    }

    method EnqueueOutboxEvent(payload: Payload, occurredAt: Instant)
      modifies this`outbox
      ensures outbox == old(outbox) + [NewEvent(payload, occurredAt)]
    {
      outbox := outbox + [OutboxEvent(payload, Pending, 0, occurredAt, occurredAt, None, None, None, None, None)];
    }

    method DailyRequestedAmount(userId: UserId, now: Instant) returns (total: int)
      ensures total == DailyRequested(withdrawals, userId, DayOf(now))
    {
      total := 0;
      for i := 0 to |withdrawals|
        invariant total == DailyRequested(withdrawals[..i], userId, DayOf(now))
      {
        var w := withdrawals[i];
        assert withdrawals[..i + 1][..i] == withdrawals[..i];
        if w.userId == userId && DayOf(w.createdAt) == DayOf(now) && CountsTowardDailyLimit(w.status) {
          total := total + w.amount;
        }
      }
      assert withdrawals[..|withdrawals|] == withdrawals;
    }

    // ---------- Reads that write ----------

    method GetAccount(userId: UserId) returns (account: Account)
      modifies this`accounts
      ensures State() == Spec.Step(old(State()), limits, Spec.GetAccount(userId))
      ensures account == AccountOf(old(accounts), userId)
    {
      account := GetMutableAccount(userId);
    }

    // ---------- Deposits, credits, transfers ----------

    method ApplyDeposit(userId: UserId, amount: nat, txHash: string, blockNumber: nat, now: Instant) returns (r: Reply)
      modifies this
      ensures (State(), r) == Spec.ApplyDeposit(old(State()), userId, amount, txHash, blockNumber, now)
    {
      var existing := IndexWhere(deposits, HashIs(txHash));
      if existing.Some? {
        return DepositReply(deposits[existing.value], true);
      }
      var account := GetMutableAccount(userId);
      accounts := accounts[userId := account.(balance := account.balance + amount)];
      assert accounts == Adjust(old(accounts), userId, amount, 0);
      transactions := transactions + [LedgerTx(userId, DepositTx, amount, TxConfirmed, Some(txHash), None, None, now)];
      var deposit := Deposit(|deposits|, userId, txHash, amount, Credited, blockNumber, now);
      deposits := deposits + [deposit];
      EnqueueOutboxEvent(DepositPayload(deposit), now);
      r := DepositReply(deposit, false);
    }

    method CompleteDeposit(depositId: nat) returns (r: Reply)
      modifies this`deposits
      ensures (State(), r) == Spec.CompleteDeposit(old(State()), depositId)
    {
      if depositId >= |deposits| {
        return Refused(NotFound);
      }
      if deposits[depositId].status == DepositCompleted {
        assert deposits[depositId := deposits[depositId].(status := DepositCompleted)] == deposits;
        return DepositReply(deposits[depositId], true);
      }
      deposits := deposits[depositId := deposits[depositId].(status := DepositCompleted)];
      r := DepositReply(deposits[depositId], false);
    }

    method ApplyExternalCredit(userId: UserId, amount: int, reference: Reference, now: Instant) returns (r: Reply)
      modifies this
      ensures (State(), r) == Spec.ApplyCredit(old(State()), userId, amount, reference, now)
    {
      if amount <= 0 {
        return Refused(ValidationError);
      }
      var existing := IndexWhere(credits, CreditRefersTo(reference));
      if existing.Some? {
        return CreditReply(credits[existing.value], true);
      }
      var account := GetMutableAccount(userId);
      accounts := accounts[userId := account.(balance := account.balance + amount)];
      assert accounts == Adjust(old(accounts), userId, amount, 0);
      var credit := ExternalCredit(userId, amount, reference, now);
      credits := credits + [credit];
      r := CreditReply(credit, false);
    }

    method Transfer(fromUser: UserId, toUser: UserId, amount: nat, key: string, now: Instant) returns (r: Reply)
      modifies this
      ensures (State(), r) == Spec.Transfer(old(State()), fromUser, toUser, amount, key, now)
    {
      if key in transferByKey {
        var (fromTx, toTx) := transferByKey[key];
        if fromTx >= |transactions| || toTx >= |transactions| {
          return Refused(StateCorrupted);
        }
        return TransferReply(transactions[fromTx], transactions[toTx], true);
      }
      if fromUser == toUser {
        return Refused(ValidationError);
      }
      var source := GetMutableAccount(fromUser);
      var target := GetMutableAccount(toUser);
      if source.balance < amount {
        return Refused(InsufficientBalance);
      }
      accounts := accounts[fromUser := source.(balance := source.balance - amount)];
      accounts := accounts[toUser := target.(balance := target.balance + amount)];
      var n := |transactions|;
      var fromTx := LedgerTx(fromUser, TransferOutTx, amount, TxConfirmed, None, Some(toUser), Some(key), now);
      var toTx := LedgerTx(toUser, TransferInTx, amount, TxConfirmed, None, Some(fromUser), Some(key), now);
      transactions := transactions + [fromTx];
      transactions := transactions + [toTx];
      assert transactions == old(transactions) + [fromTx, toTx];
      transferByKey := transferByKey[key := (n, n + 1)];
      r := TransferReply(fromTx, toTx, false);
    }

    // ---------- Withdrawals ----------

    method RequestWithdrawal(userId: UserId, amount: nat, toAddress: string, key: string, requiredApprovals: Positive,
                             now: Instant) returns (r: Reply)
      modifies this
      ensures (State(), r) ==
        Spec.RequestWithdrawal(old(State()), limits, userId, amount, toAddress, key, requiredApprovals, now)
    {
      hide DailyRequested, Sums.SumBy, Touch, Adjust, Spec.Reserved;
      if key in withdrawalByKey {
        var known := withdrawalByKey[key];
        if known >= |withdrawals| {
          return Refused(StateCorrupted);
        }
        return RequestReply(withdrawals[known], true);
      }
      if amount > limits.singleLimit {
        return Refused(LimitExceeded);
      }
      var requestedToday := DailyRequestedAmount(userId, now);
      if requestedToday + amount > limits.dailyLimit {
        return Refused(LimitExceeded);
      }
      var account := GetMutableAccount(userId);
      if account.balance < amount {
        return Refused(InsufficientBalance);
      }
      var withdrawal := NewWithdrawal(userId, amount, toAddress, key, |transactions|, requiredApprovals, now);
      Reserve(account, withdrawal, now);
      r := RequestReply(withdrawal, false);
    }

    /** The second half of a request: the money moves and the withdrawal is stored under its key. */
    method Reserve(found: Account, withdrawal: Withdrawal, now: Instant)
      requires withdrawal.userId in accounts && accounts[withdrawal.userId] == found
      requires withdrawal.amount <= found.balance
      modifies this
      ensures State() == Spec.Reserved(old(State()), withdrawal, now)
    {
      hide WithdrawalPayload;
      var (u, amount, key) := (withdrawal.userId, withdrawal.amount, withdrawal.idempotencyKey);
      var account := found.(balance := found.balance - amount);
      account := account.(lockedBalance := account.lockedBalance + amount);
      accounts := accounts[u := account];
      transactions := transactions + [LedgerTx(u, WithdrawTx, amount, TxPending, None, None, Some(key), now)];
      var id := |withdrawals|;
      withdrawals := withdrawals + [withdrawal];
      withdrawalByKey := withdrawalByKey[key := id];
      approvals := approvals[id := []];
      EnqueueOutboxEvent(WithdrawalPayload(id, withdrawal), now);
    }

    method ConfirmWithdrawalExternalAuth(id: nat, provider: string, requestId: string, now: Instant) returns (r: Reply)
      modifies this
      ensures (State(), r) == Spec.ConfirmAuth(old(State()), id, provider, requestId, now)
    {
      if id >= |withdrawals| {
        return Refused(NotFound);
      }
      var withdrawal := withdrawals[id];
      if withdrawal.status == LedgerReserved {
        withdrawal := withdrawal.(status := PendingAdmin);
        withdrawal := withdrawal.(authProvider := Some(provider));
        withdrawal := withdrawal.(authRequestId := Some(requestId));
        withdrawal := withdrawal.(authConfirmedAt := Some(now));
        withdrawals := withdrawals[id := withdrawal];
        EnqueueOutboxEvent(WithdrawalPayload(id, withdrawal), now);
        return WithdrawalReply(withdrawal);
      }
      if withdrawal.authRequestId == Some(requestId) && withdrawal.authProvider == Some(provider) {
        return WithdrawalReply(withdrawal);
      }
      r := Refused(InvalidState);
    }

    method MarkWithdrawalReviewRequired(id: nat, now: Instant) returns (r: Reply)
      modifies this`withdrawals
      ensures (State(), r) == Spec.MarkReview(old(State()), id, now)
    {
      if id >= |withdrawals| {
        return Refused(NotFound);
      }
      if withdrawals[id].status != PendingAdmin {
        return WithdrawalReply(withdrawals[id]);
      }
      withdrawals := withdrawals[id := withdrawals[id].(reviewRequiredAt := Some(now))];
      r := WithdrawalReply(withdrawals[id]);
    }

    method ApproveWithdrawal(id: nat, adminId: string, now: Instant) returns (r: Reply)
      modifies this
      ensures (State(), r) == Spec.Approve(old(State()), id, adminId, now)
    {
      if id >= |withdrawals| {
        return Refused(NotFound);
      }
      var withdrawal := withdrawals[id];
      if withdrawal.status != PendingAdmin {
        return Refused(InvalidState);
      }
      var given := if id in approvals then approvals[id] else [];
      for i := 0 to |given|
        invariant forall k :: 0 <= k < i ==> given[k].adminId != adminId
        invariant State() == old(State())
      {
        if given[i].adminId == adminId {
          return Refused(AlreadyApproved);
        }
      }
      given := given + [Approval(id, adminId, now)];
      approvals := approvals[id := given];
      withdrawal := withdrawal.(approvalCount := |given|);
      var finalized := |given| >= withdrawal.requiredApprovals;
      if finalized {
        withdrawal := withdrawal.(status := AdminApproved);
        withdrawal := withdrawal.(approvedAt := Some(now));
      }
      withdrawals := withdrawals[id := withdrawal];
      EnqueueOutboxEvent(WithdrawalPayload(id, withdrawal), now);
      r := ApprovalReply(withdrawal, finalized);
    }

    method BroadcastWithdrawal(id: nat, txHash: string, now: Instant) returns (r: Reply)
      modifies this
      ensures (State(), r) == Spec.Broadcast(old(State()), id, txHash, now)
    {
      if id >= |withdrawals| {
        return Refused(NotFound);
      }
      var withdrawal := withdrawals[id];
      if withdrawal.status != AdminApproved {
        return Refused(InvalidState);
      }
      withdrawal := withdrawal.(status := TxBroadcasted);
      withdrawal := withdrawal.(txHash := Some(txHash));
      withdrawal := withdrawal.(broadcastedAt := Some(now));
      withdrawals := withdrawals[id := withdrawal];
      EnqueueOutboxEvent(WithdrawalPayload(id, withdrawal), now);
      r := WithdrawalReply(withdrawal);
    }

    method ConfirmWithdrawal(id: nat, fee: Option<NetworkFee>, now: Instant) returns (r: Reply)
      modifies this
      ensures (State(), r) == Spec.Confirm(old(State()), id, fee, now)
    {
      hide WithConfirmation, Spec.Confirmed;
      if id >= |withdrawals| {
        return Refused(NotFound);
      }
      var withdrawal := withdrawals[id];
      if withdrawal.status != TxBroadcasted {
        return Refused(InvalidState);
      }
      var account := GetMutableAccount(withdrawal.userId);
      if account.lockedBalance < withdrawal.amount {
        return Refused(StateCorrupted);
      }
      accounts := accounts[withdrawal.userId := account.(lockedBalance := account.lockedBalance - withdrawal.amount)];
      assert accounts == Adjust(old(accounts), withdrawal.userId, 0, 0 - withdrawal.amount);
      if withdrawal.ledgerTx >= |transactions| {
        return Refused(StateCorrupted);
      }
      withdrawal := Complete(id, fee, now);
      r := WithdrawalReply(withdrawal);
    }

    /** The second half of a confirmation, once the locked amount has left. */
    method Complete(id: nat, fee: Option<NetworkFee>, now: Instant) returns (withdrawal: Withdrawal)
      requires id < |withdrawals| && withdrawals[id].ledgerTx < |transactions|
      modifies this
      ensures State() == Spec.Confirmed(old(State()), id, fee, now)
      ensures withdrawal == WithConfirmation(old(withdrawals[id]), now)
    {
      hide WithdrawalPayload;
      withdrawal := withdrawals[id];
      var tx := transactions[withdrawal.ledgerTx];
      transactions := transactions[withdrawal.ledgerTx := tx.(status := TxConfirmed, blockTx := withdrawal.txHash)];
      withdrawal := withdrawal.(status := Completed);
      withdrawal := withdrawal.(confirmedAt := Some(now));
      withdrawals := withdrawals[id := withdrawal];
      if fee.Some? && withdrawal.txHash.Some? && withdrawal.txHash.value != "" {
        RecordFee(Fees.FeeKey(Fees.ForWithdrawal, id, withdrawal.txHash.value), fee.value, now);
      }
      EnqueueOutboxEvent(WithdrawalPayload(id, withdrawal), now);
    }

    method FailWithdrawal(id: nat, reason: string, now: Instant) returns (r: Reply)
      modifies this
      ensures (State(), r) == Spec.Fail(old(State()), id, reason, now)
    {
      if id >= |withdrawals| {
        return Refused(NotFound);
      }
      var withdrawal := withdrawals[id];
      if !IsActive(withdrawal.status) {
        return Refused(InvalidState);
      }
      var account := GetMutableAccount(withdrawal.userId);
      if account.lockedBalance < withdrawal.amount {
        return Refused(StateCorrupted);
      }
      account := account.(lockedBalance := account.lockedBalance - withdrawal.amount);
      account := account.(balance := account.balance + withdrawal.amount);
      accounts := accounts[withdrawal.userId := account];
      assert accounts == Adjust(old(accounts), withdrawal.userId, withdrawal.amount, 0 - withdrawal.amount);
      if withdrawal.ledgerTx >= |transactions| {
        return Refused(StateCorrupted);
      }
      var tx := transactions[withdrawal.ledgerTx];
      transactions := transactions[withdrawal.ledgerTx := tx.(status := TxFailed)];
      withdrawal := withdrawal.(status := Failed);
      withdrawal := withdrawal.(failedAt := Some(now));
      withdrawal := withdrawal.(failReason := Some(reason));
      withdrawals := withdrawals[id := withdrawal];
      EnqueueOutboxEvent(WithdrawalPayload(id, withdrawal), now);
      r := WithdrawalReply(withdrawal);
    }

    // ---------- Sweeps and fees ----------

    method RecordFee(key: Fees.FeeKey, fee: NetworkFee, now: Instant)
      modifies this`fees
      ensures fees == Fees.Record(old(fees), key.source, key.id, key.txHash, fee, now)
    {
      fees := fees.(receipts := Fees.SetReceipt(fees.receipts, Fees.Receipt(key, fee.txHash, fee.feeSun, now)));
      fees := fees.(journals := Fees.SetJournal(fees.journals, Fees.FeeJournal(key, DayOf(now), key.source,
                                                                               fee.feeSun)));
    }

    method ConfirmSweep(id: nat, fee: Option<NetworkFee>, now: Instant) returns (r: Fees.SweepReply)
      modifies this`fees
      ensures (fees, r) == Fees.SweepCall(old(fees), Fees.ConfirmSweep(id, fee, now))
    {
      if id >= |fees.sweeps| {
        return Fees.SweepRefused(NotFound);
      }
      var sweep := fees.sweeps[id];
      if sweep.status != Fees.Planned && sweep.status != Fees.Broadcasted {
        return Fees.SweepRefused(InvalidState);
      }
      sweep := sweep.(status := Fees.Confirmed);
      fees := fees.(sweeps := fees.sweeps[id := sweep]);
      if fee.Some? && sweep.txHash.Some? && sweep.txHash.value != "" {
        RecordFee(Fees.FeeKey(Fees.ForSweep, id, sweep.txHash.value), fee.value, now);
      }
      r := Fees.SweepDone(sweep);
    }

    // ---------- Outbox ----------

    /** Updates the selected events one after the other. */
    method UpdateSelected(ids: seq<nat>, g: OutboxEvent -> OutboxEvent)
      requires forall a, b :: 0 <= a < b < |ids| ==> ids[a] != ids[b]
      requires forall a :: 0 <= a < |ids| ==> ids[a] < |outbox|
      modifies this`outbox
      ensures outbox == Store.UpdateIds(old(outbox), ids, g)
    {
      for k := 0 to |ids|
        invariant |outbox| == |old(outbox)|
        invariant forall i :: 0 <= i < |outbox| ==>
                    outbox[i] == if i in ids[..k] then g(old(outbox)[i]) else old(outbox)[i]
      {
        assert ids[k] !in ids[..k];
        outbox := outbox[ids[k] := g(outbox[ids[k]])];
        assert ids[..k + 1] == ids[..k] + [ids[k]];
      }
      assert ids[..|ids|] == ids;
    }

    method ClaimPendingOutboxEvents(limit: nat, now: Instant) returns (claimed: seq<nat>)
      modifies this`outbox
      ensures outbox == Store.Step(old(outbox), Store.Claim(limit, now))
      ensures claimed == Store.ClaimedIds(old(outbox), limit, now)
    {
      claimed := Store.ClaimedIds(outbox, limit, now);
      Store.OldestIsQueuePrefix(outbox, Store.Claimable(now), None, limit);
      Store.QueueOrderDistinct(outbox, claimed);
      UpdateSelected(claimed, Store.AsClaimed(now));
    }

    method MarkOutboxEventPublished(id: nat, now: Instant)
      modifies this`outbox
      ensures outbox == Store.Step(old(outbox), Store.MarkPublished(id, now))
    {
      if id < |outbox| {
        outbox := outbox[id := outbox[id].(status := Published, processingStartedAt := None, publishedAt := Some(now),
                                           deadLetteredAt := None, lastError := None)];
      }
    }

    method RescheduleOutboxEvent(id: nat, error: string, availableAt: Instant)
      modifies this`outbox
      ensures outbox == Store.Step(old(outbox), Store.Reschedule(id, error, availableAt))
    {
      if id < |outbox| {
        outbox := outbox[id := outbox[id].(status := Pending, availableAt := availableAt, processingStartedAt := None,
                                           lastError := Some(error))];
      }
    }

    method DeadLetterOutboxEvent(id: nat, error: string, at: Instant)
      modifies this`outbox
      ensures outbox == Store.Step(old(outbox), Store.DeadLetter(id, error, at))
    {
      if id < |outbox| {
        outbox := outbox[id := outbox[id].(status := DeadLettered, processingStartedAt := None,
                                           deadLetteredAt := Some(at), acknowledgement := None,
                                           lastError := Some(error))];
      }
    }

    method ReplayOutboxEvents(ids: Option<set<nat>>, only: Option<EventStatus>, max: Option<nat>, now: Instant)
      returns (count: nat)
      modifies this`outbox
      ensures outbox == Store.Step(old(outbox), Store.Replay(ids, only, max, now))
      ensures count == |Store.Oldest(old(outbox), Store.HasStatus(only), ids, Store.PageSize(ids, max))|
    {
      var candidates := Store.Oldest(outbox, Store.HasStatus(only), ids, Store.PageSize(ids, max));
      Store.OldestIsQueuePrefix(outbox, Store.HasStatus(only), ids, Store.PageSize(ids, max));
      Store.QueueOrderDistinct(outbox, candidates);
      UpdateSelected(candidates, Store.AsReplayed(now));
      count := |candidates|;
    }

    method RecoverStaleProcessingOutboxEvents(timeoutSec: nat, now: Instant) returns (count: nat)
      modifies this`outbox
      ensures outbox == Store.Step(old(outbox), Store.RecoverStale(timeoutSec, now))
      ensures count == |Store.Select(old(outbox), Store.Stale(timeoutSec, now), None)|
    {
      var candidates := Store.Select(outbox, Store.Stale(timeoutSec, now), None);
      assert forall a :: 0 <= a < |candidates| ==> candidates[a] in candidates;
      UpdateSelected(candidates, Store.AsRecovered(now));
      count := |candidates|;
    }

    method AcknowledgeDeadLetterOutboxEvents(ids: Option<set<nat>>, max: Option<nat>, actorId: string,
                                             note: Option<string>,
                                             category: Option<string>, incidentRef: Option<string>, now: Instant)
      returns (count: nat)
      modifies this`outbox
      ensures outbox ==
        Store.Step(old(outbox), Store.Acknowledge(ids, max, Acknowledgement(now, actorId, note, category, incidentRef)))
      ensures count == |Store.Oldest(old(outbox), Store.Unacknowledged(), ids, Store.PageSize(ids, max))|
    {
      var candidates := Store.Oldest(outbox, Store.Unacknowledged(), ids, Store.PageSize(ids, max));
      Store.OldestIsQueuePrefix(outbox, Store.Unacknowledged(), ids, Store.PageSize(ids, max));
      Store.QueueOrderDistinct(outbox, candidates);
      UpdateSelected(candidates, Store.AsAcknowledged(Acknowledgement(now, actorId, note, category, incidentRef)));
      count := |candidates|;
    }
  }
}
