/** What each call of the in-memory ledger does to its state. */
module MemorySpec {
  import opened Domain
  import OutboxStore
  import Fees = FeeBooks

  datatype Memory = Memory(
    accounts: map<UserId, Account>,
    transactions: seq<LedgerTx>,
    deposits: seq<Deposit>,
    credits: seq<ExternalCredit>,
    withdrawals: seq<Withdrawal>,
    withdrawalByKey: map<string, nat>,
    transferByKey: map<string, (nat, nat)>,
    approvals: map<nat, seq<Approval>>,
    fees: Fees.Books,
    outbox: seq<OutboxEvent>)

  const EMPTY := Memory(map[], [], [], [], [], map[], map[], map[], Fees.EMPTY, [])

  datatype MemoryOp =
    | Ledger(op: Op)
    | GetAccount(userId: UserId)
    | Sweep(sweep: Fees.SweepOp)
    | Outbox(outboxOp: OutboxStore.OutboxOp)

  function ApplyDeposit(m: Memory, userId: UserId, amount: nat, txHash: string, blockNumber: nat, now: Instant):
    (Memory, Reply)
  {
    var existing := IndexWhere(m.deposits, HashIs(txHash));
    if existing.Some? then (m, DepositReply(m.deposits[existing.value], true))
    else
      var d := Deposit(|m.deposits|, userId, txHash, amount, Credited, blockNumber, now);
      var tx := LedgerTx(userId, DepositTx, amount, TxConfirmed, Some(txHash), None, None, now);
      (m.(accounts := Adjust(m.accounts, userId, amount, 0),
          transactions := m.transactions + [tx],
          deposits := m.deposits + [d],
          outbox := m.outbox + [NewEvent(DepositPayload(d), now)]),
       DepositReply(d, false))
  }

  function CompleteDeposit(m: Memory, depositId: nat): (Memory, Reply) {
    if depositId >= |m.deposits| then (m, Refused(NotFound))
    else
      var d := m.deposits[depositId].(status := DepositCompleted);
      (m.(deposits := m.deposits[depositId := d]), DepositReply(d, m.deposits[depositId].status == DepositCompleted))
  }

  /** The in-memory ledger does not look at the currency. */
  function ApplyCredit(m: Memory, userId: UserId, amount: int, reference: Reference, now: Instant): (Memory, Reply) {
    if amount <= 0 then (m, Refused(ValidationError))
    else
      var existing := IndexWhere(m.credits, CreditRefersTo(reference));
      if existing.Some? then (m, CreditReply(m.credits[existing.value], true))
      else
        var c := ExternalCredit(userId, amount, reference, now);
        (m.(accounts := Adjust(m.accounts, userId, amount, 0), credits := m.credits + [c]),
         CreditReply(c, false))
  }

  function Transfer(m: Memory, fromUser: UserId, toUser: UserId, amount: nat, key: string, now: Instant):
    (Memory, Reply)
  {
    if key in m.transferByKey then
      var (a, b) := m.transferByKey[key];
      if a < |m.transactions| && b < |m.transactions|
      then (m, TransferReply(m.transactions[a], m.transactions[b], true))
      else (m, Refused(StateCorrupted))
    else if fromUser == toUser then (m, Refused(ValidationError))
    else
      var touched := Touch(Touch(m.accounts, fromUser), toUser);
      if AccountOf(touched, fromUser).balance < amount
      then (m.(accounts := touched), Refused(InsufficientBalance))
      else
        var (outTx, inTx) := TransferTxs(fromUser, toUser, amount, key, now);
        var n := |m.transactions|;
        (m.(accounts := Adjust(Adjust(touched, fromUser, 0 - amount, 0), toUser, amount, 0),
            transactions := m.transactions + [outTx, inTx],
            transferByKey := m.transferByKey[key := (n, n + 1)]),
         TransferReply(outTx, inTx, false))
  }

  function RequestWithdrawal(m: Memory, limits: Limits, userId: UserId, amount: nat, toAddress: string, key: string,
                             requiredApprovals: Positive, now: Instant): (Memory, Reply)
  {
    if key in m.withdrawalByKey then
      var id := m.withdrawalByKey[key];
      if id < |m.withdrawals| then (m, RequestReply(m.withdrawals[id], true)) else (m, Refused(StateCorrupted))
    else if amount > limits.singleLimit then (m, Refused(LimitExceeded))
    else if DailyRequested(m.withdrawals, userId, DayOf(now)) + amount > limits.dailyLimit then
      (m, Refused(LimitExceeded))
    else
      var touched := Touch(m.accounts, userId);
      if AccountOf(touched, userId).balance < amount then
        (m.(accounts := touched), Refused(InsufficientBalance))
      else
        var w := NewWithdrawal(userId, amount, toAddress, key, |m.transactions|, requiredApprovals, now);
        (Reserved(m.(accounts := touched), w, now), RequestReply(w, false))
  }

  /** Reserves a new withdrawal, whose transaction is the next one and whose account exists. */
  function Reserved(m: Memory, w: Withdrawal, now: Instant): Memory {
    var tx := LedgerTx(w.userId, WithdrawTx, w.amount, TxPending, None, None, Some(w.idempotencyKey), now);
    var id := |m.withdrawals|;
    m.(accounts := Adjust(m.accounts, w.userId, 0 - w.amount, w.amount),
       transactions := m.transactions + [tx],
       withdrawals := m.withdrawals + [w],
       withdrawalByKey := m.withdrawalByKey[w.idempotencyKey := id],
       approvals := m.approvals[id := []],
       outbox := m.outbox + [NewEvent(WithdrawalPayload(id, w), now)])
  }

  /** Replaces withdrawal `id` and announces its new state. */
  function Moved(m: Memory, id: nat, w: Withdrawal, now: Instant): Memory
    requires id < |m.withdrawals|
  {
    m.(withdrawals := m.withdrawals[id := w], outbox := m.outbox + [NewEvent(WithdrawalPayload(id, w), now)])
  }

  function ConfirmAuth(m: Memory, id: nat, provider: string, requestId: string, now: Instant): (Memory, Reply) {
    if id >= |m.withdrawals| then (m, Refused(NotFound))
    else
      var w := m.withdrawals[id];
      if w.status == LedgerReserved then
        var w' := WithAuth(w, provider, requestId, now);
        (Moved(m, id, w', now), WithdrawalReply(w'))
      else if w.authRequestId == Some(requestId) && w.authProvider == Some(provider) then
        (m, WithdrawalReply(w))
      else (m, Refused(InvalidState))
  }

  function MarkReview(m: Memory, id: nat, now: Instant): (Memory, Reply) {
    if id >= |m.withdrawals| then (m, Refused(NotFound))
    else
      var w := m.withdrawals[id];
      if w.status != PendingAdmin then (m, WithdrawalReply(w))
      else
        var w' := w.(reviewRequiredAt := Some(now));
        (m.(withdrawals := m.withdrawals[id := w']), WithdrawalReply(w'))
  }

  function ApprovalsOf(m: Memory, id: nat): seq<Approval> {
    if id in m.approvals then m.approvals[id] else []
  }

  predicate HasApproved(approvals: seq<Approval>, adminId: string) {
    exists i :: 0 <= i < |approvals| && approvals[i].adminId == adminId
  }

  function Approve(m: Memory, id: nat, adminId: string, now: Instant): (Memory, Reply) {
    if id >= |m.withdrawals| then (m, Refused(NotFound))
    else
      var w := m.withdrawals[id];
      if w.status != PendingAdmin then (m, Refused(InvalidState))
      else if HasApproved(ApprovalsOf(m, id), adminId) then (m, Refused(AlreadyApproved))
      else
        var approvals := ApprovalsOf(m, id) + [Approval(id, adminId, now)];
        var w' := WithApproval(w, |approvals|, now);
        (Moved(m, id, w', now).(approvals := m.approvals[id := approvals]),
         ApprovalReply(w', w'.status == AdminApproved))
  }

  function Broadcast(m: Memory, id: nat, txHash: string, now: Instant): (Memory, Reply) {
    if id >= |m.withdrawals| then (m, Refused(NotFound))
    else
      var w := m.withdrawals[id];
      if w.status != AdminApproved then (m, Refused(InvalidState))
      else
        var w' := WithBroadcast(w, txHash, now);
        (Moved(m, id, w', now), WithdrawalReply(w'))
  }

  /** The missing-transaction branch leaves the account already changed, as the source does. */
  function Confirm(m: Memory, id: nat, fee: Option<NetworkFee>, now: Instant): (Memory, Reply) {
    if id >= |m.withdrawals| then (m, Refused(NotFound))
    else
      var w := m.withdrawals[id];
      if w.status != TxBroadcasted then (m, Refused(InvalidState))
      else if AccountOf(m.accounts, w.userId).lockedBalance < w.amount then
        (m.(accounts := Touch(m.accounts, w.userId)), Refused(StateCorrupted))
      else
        var m1 := m.(accounts := Adjust(m.accounts, w.userId, 0, 0 - w.amount));
        if w.ledgerTx >= |m.transactions| then (m1, Refused(StateCorrupted))
        else (Confirmed(m1, id, fee, now), WithdrawalReply(WithConfirmation(w, now)))
  }

  /** The transaction is confirmed, the fee recorded when there is one, the withdrawal completed. */
  function Confirmed(m: Memory, id: nat, fee: Option<NetworkFee>, now: Instant): Memory
    requires id < |m.withdrawals| && m.withdrawals[id].ledgerTx < |m.transactions|
  {
    var w := m.withdrawals[id];
    var tx := m.transactions[w.ledgerTx].(status := TxConfirmed, blockTx := w.txHash);
    var m1 := m.(
      transactions := m.transactions[w.ledgerTx := tx],
      fees := if fee.Some? && w.txHash.Some? && w.txHash.value != ""
              then Fees.Record(m.fees, Fees.ForWithdrawal, id, w.txHash.value, fee.value, now)
              else m.fees);
    Moved(m1, id, WithConfirmation(w, now), now)
  }

  function Fail(m: Memory, id: nat, reason: string, now: Instant): (Memory, Reply) {
    if id >= |m.withdrawals| then (m, Refused(NotFound))
    else
      var w := m.withdrawals[id];
      if !IsActive(w.status) then (m, Refused(InvalidState))
      else if AccountOf(m.accounts, w.userId).lockedBalance < w.amount then
        (m.(accounts := Touch(m.accounts, w.userId)), Refused(StateCorrupted))
      else
        var m1 := m.(accounts := Adjust(m.accounts, w.userId, w.amount, 0 - w.amount));
        if w.ledgerTx >= |m.transactions| then (m1, Refused(StateCorrupted))
        else
          var w' := WithFailure(w, reason, now);
          var tx := m.transactions[w.ledgerTx].(status := TxFailed);
          (Moved(m1.(transactions := m.transactions[w.ledgerTx := tx]), id, w', now), WithdrawalReply(w'))
  }

  function LedgerStep(m: Memory, limits: Limits, op: Op): (Memory, Reply) {
    match op
    case DepositOp(u, amount, txHash, blockNumber, now) => ApplyDeposit(m, u, amount, txHash, blockNumber, now)
    case CompleteOp(depositId) => CompleteDeposit(m, depositId)
    case CreditOp(u, amount, _, reference, now) => ApplyCredit(m, u, amount, reference, now)
    case TransferOp(f, t, amount, key, now) => Transfer(m, f, t, amount, key, now)
    case RequestOp(u, amount, toAddress, key, required, now) =>
      RequestWithdrawal(m, limits, u, amount, toAddress, key, required, now)
    case AuthOp(id, provider, requestId, now) => ConfirmAuth(m, id, provider, requestId, now)
    case ReviewOp(id, now) => MarkReview(m, id, now)
    case ApproveOp(id, adminId, now) => Approve(m, id, adminId, now)
    case BroadcastOp(id, txHash, now) => Broadcast(m, id, txHash, now)
    case ConfirmOp(id, fee, now) => Confirm(m, id, fee, now)
    case FailOp(id, reason, now) => Fail(m, id, reason, now)
  }

  function Step(m: Memory, limits: Limits, op: MemoryOp): Memory {
    match op
    case Ledger(op) => LedgerStep(m, limits, op).0
    case GetAccount(u) => m.(accounts := Touch(m.accounts, u))
    case Sweep(sweep) => m.(fees := Fees.SweepStep(m.fees, sweep))
    case Outbox(outboxOp) => m.(outbox := OutboxStore.Step(m.outbox, outboxOp))
  }

  /** The state after a whole run from the empty ledger. */
  function Run(limits: Limits, ops: seq<MemoryOp>): Memory {
    if ops == [] then EMPTY else Step(Run(limits, ops[..|ops| - 1]), limits, ops[|ops| - 1])
  }
}
