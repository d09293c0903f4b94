/** The entities both ledgers share: withdrawals, deposits, transactions, outbox events,
    the public operations and the replies they give. */
module Domain {
  import opened Sums

  type UserId = string

  /** Milliseconds since the epoch. ISO-8601 strings of one format order the same way. */
  type Instant = nat

  const MS_PER_DAY: nat := 86_400_000

  /** The calendar day, `nowIso.slice(0, 10)` in the source. */
  function DayOf(t: Instant): nat {
    t / MS_PER_DAY
  }

  type Positive = n: nat | 1 <= n witness 1

  datatype Option<+T> = None | Some(value: T)

  /** The first position whose element satisfies p: `Map.get` on a table kept in insertion order. */
  function IndexWhere<T>(s: seq<T>, p: T -> bool): (r: Option<nat>)
    ensures r.Some? ==> r.value < |s| && p(s[r.value]) && forall i :: 0 <= i < r.value ==> !p(s[i])
    ensures r.None? ==> forall i :: 0 <= i < |s| ==> !p(s[i])
  {
    if s == [] then None
    else
      var before := IndexWhere(s[..|s| - 1], p);
      if before.Some? then before else if p(s[|s| - 1]) then Some(|s| - 1) else None
  }

  lemma IndexAppend<T>(s: seq<T>, x: T, p: T -> bool)
    ensures IndexWhere(s + [x], p) ==
            if IndexWhere(s, p).Some? then IndexWhere(s, p) else if p(x) then Some(|s|) else None
  {
    assert (s + [x])[..|s|] == s;
  }

  /** Replacing an element by one the predicate cannot tell apart moves nothing. */
  lemma {:induction false} IndexReplace<T>(s: seq<T>, i: nat, x: T, p: T -> bool)
    requires i < |s| && p(x) == p(s[i])
    ensures IndexWhere(s[i := x], p) == IndexWhere(s, p)
  {
    var last := |s| - 1;
    if i == last {
      assert s[i := x][..last] == s[..last];
    } else {
      assert s[i := x][..last] == s[..last][i := x];
      IndexReplace(s[..last], i, x, p);
    }
  }

  datatype Limits = Limits(singleLimit: nat, dailyLimit: nat)

  datatype ErrorCode =
    | ValidationError
    | UnsupportedCurrency
    | NotFound
    | InvalidState
    | AlreadyApproved
    | InsufficientBalance
    | InsufficientOfflinePayPending
    | InvalidOfflinePayFee
    | OfflinePayFeeMismatch
    | LimitExceeded
    | StateCorrupted

  // ---------- Accounts ----------

  datatype Account = Account(balance: int, lockedBalance: int)

  const ZERO_ACCOUNT := Account(0, 0)

  function AccountOf(accounts: map<UserId, Account>, u: UserId): Account {
    if u in accounts then accounts[u] else ZERO_ACCOUNT
  }

  /** Creates an empty account row when there is none. */
  function Touch(accounts: map<UserId, Account>, u: UserId): map<UserId, Account> {
    if u in accounts then accounts else accounts[u := ZERO_ACCOUNT]
  }

  function Adjust(accounts: map<UserId, Account>, u: UserId, available: int, locked: int): map<UserId, Account> {
    var a := AccountOf(accounts, u);
    accounts[u := Account(a.balance + available, a.lockedBalance + locked)]
  }

  // ---------- Transactions, deposits, external credits ----------

  datatype TxType = DepositTx | WithdrawTx | TransferInTx | TransferOutTx

  datatype TxStatus = TxPending | TxConfirmed | TxFailed

  datatype LedgerTx = LedgerTx(
    userId: UserId,
    txType: TxType,
    amount: nat,
    status: TxStatus,
    blockTx: Option<string>,
    related: Option<UserId>,
    idempotencyKey: Option<string>,
    createdAt: Instant)

  function TransferTxs(fromUser: UserId, toUser: UserId, amount: nat, key: string, now: Instant): (LedgerTx, LedgerTx) {
    (LedgerTx(fromUser, TransferOutTx, amount, TxConfirmed, None, Some(toUser), Some(key), now),
     LedgerTx(toUser, TransferInTx, amount, TxConfirmed, None, Some(fromUser), Some(key), now))
  }

  datatype DepositStatus = Credited | DepositCompleted

  datatype Deposit = Deposit(
    depositId: nat,
    userId: UserId,
    txHash: string,
    amount: nat,
    status: DepositStatus,
    blockNumber: nat,
    createdAt: Instant)

  function HashIs(txHash: string): Deposit -> bool {
    (d: Deposit) => d.txHash == txHash
  }

  /** What a journal or an external credit refers to. The ledger's own reference types are
      constants of the source; any other text is `RefOther`. */
  datatype RefType =
    | RefDeposit
    | RefTransfer
    | RefWithdrawal
    | RefOfflineLock
    | RefOfflineRelease
    | RefSettlement
    | RefReceiverSettlement
    | RefCompensation
    | RefReconciliation
    | RefPendingReconciliation
    | RefSweep
    | RefOther(name: string)

  datatype RefId = Text(text: string) | Uuid(number: nat) | UserAt(userId: UserId, at: Instant)

  datatype Reference = Reference(refType: RefType, refId: RefId)

  datatype ExternalCredit = ExternalCredit(userId: UserId, amount: nat, reference: Reference, createdAt: Instant)

  function CreditRefersTo(reference: Reference): ExternalCredit -> bool {
    (c: ExternalCredit) => c.reference == reference
  }

  // ---------- Withdrawals ----------

  datatype Status =
    | LedgerReserved
    | PendingAdmin
    | AdminApproved
    | TxBroadcasted
    | Completed
    | Failed
    | StatusRejected

  predicate IsActive(s: Status) {
    s == LedgerReserved || s == PendingAdmin || s == AdminApproved || s == TxBroadcasted
  }

  predicate CountsTowardDailyLimit(s: Status) {
    IsActive(s) || s == Completed
  }

  datatype Withdrawal = Withdrawal(
    userId: UserId,
    amount: nat,
    toAddress: string,
    status: Status,
    txHash: Option<string>,
    idempotencyKey: string,
    ledgerTx: nat,
    createdAt: Instant,
    requiredApprovals: Positive,
    approvalCount: nat,
    approvedAt: Option<Instant>,
    broadcastedAt: Option<Instant>,
    confirmedAt: Option<Instant>,
    failedAt: Option<Instant>,
    failReason: Option<string>,
    reviewRequiredAt: Option<Instant>,
    authProvider: Option<string>,
    authRequestId: Option<string>,
    authConfirmedAt: Option<Instant>)

  function NewWithdrawal(userId: UserId, amount: nat, toAddress: string, key: string, ledgerTx: nat,
                         requiredApprovals: Positive, now: Instant): Withdrawal
  {
    Withdrawal(userId, amount, toAddress, LedgerReserved, None, key, ledgerTx, now, requiredApprovals, 0,
               None, None, None, None, None, None, None, None, None)
  }

  function WithAuth(w: Withdrawal, provider: string, requestId: string, now: Instant): Withdrawal {
    w.(status := PendingAdmin, authProvider := Some(provider), authRequestId := Some(requestId),
       authConfirmedAt := Some(now))
  }

  /** The withdrawal after its approval number `count`. */
  function WithApproval(w: Withdrawal, count: nat, now: Instant): Withdrawal {
    if count >= w.requiredApprovals
    then w.(approvalCount := count, status := AdminApproved, approvedAt := Some(now))
    else w.(approvalCount := count)
  }

  function WithBroadcast(w: Withdrawal, txHash: string, now: Instant): Withdrawal {
    w.(status := TxBroadcasted, txHash := Some(txHash), broadcastedAt := Some(now))
  }

  function WithConfirmation(w: Withdrawal, now: Instant): Withdrawal {
    w.(status := Completed, confirmedAt := Some(now))
  }

  function WithFailure(w: Withdrawal, reason: string, now: Instant): Withdrawal {
    w.(status := Failed, failedAt := Some(now), failReason := Some(reason))
  }

  /** What the user asked for on the day of `now`, in active or completed withdrawals. */
  function DailyRequested(ws: seq<Withdrawal>, userId: UserId, day: nat): int {
    SumBy(ws, CountedOn(userId, day))
  }

  function CountedOn(userId: UserId, day: nat): Withdrawal -> int {
    (w: Withdrawal) =>
      if w.userId == userId && DayOf(w.createdAt) == day && CountsTowardDailyLimit(w.status) then w.amount else 0
  }

  /** The amount of an active withdrawal of user u. */
  function ActiveOf(u: UserId): Withdrawal -> int {
    (w: Withdrawal) => if w.userId == u && IsActive(w.status) then w.amount else 0
  }

  function ActiveSum(ws: seq<Withdrawal>, u: UserId): int {
    SumBy(ws, ActiveOf(u))
  }

  datatype Approval = Approval(withdrawalId: nat, adminId: string, createdAt: Instant)

  datatype NetworkFee = NetworkFee(txHash: string, feeSun: nat, energyUsed: nat, bandwidthUsed: nat)

  // ---------- Outbox ----------

  datatype Payload =
    | DepositChanged(depositId: nat, userId: UserId, txHash: string, depositStatus: DepositStatus, amount: nat)
    | WithdrawalChanged(
        withdrawalId: nat, userId: UserId, status: Status, amount: nat, toAddress: string,
        withdrawalTxHash: Option<string>, approvalCount: nat, requiredApprovals: nat,
        authProvider: Option<string>, authRequestId: Option<string>)
    | OfflinePayEvent(eventType: string, aggregateId: string, userId: UserId, amount: nat)

  function DepositPayload(d: Deposit): Payload {
    DepositChanged(d.depositId, d.userId, d.txHash, d.status, d.amount)
  }

  /** `buildWithdrawalStateChangedContract` without signature and time stamp. */
  function WithdrawalPayload(id: nat, w: Withdrawal): Payload {
    WithdrawalChanged(id, w.userId, w.status, w.amount, w.toAddress, w.txHash, w.approvalCount,
                      w.requiredApprovals, w.authProvider, w.authRequestId)
  }

  datatype EventStatus = Pending | Processing | Published | DeadLettered

  /** Who acknowledged a dead letter, when, and what was noted about it. */
  datatype Acknowledgement = Acknowledgement(
    at: Instant, actorId: string, note: Option<string>, category: Option<string>, incidentRef: Option<string>)

  datatype OutboxEvent = OutboxEvent(
    payload: Payload,
    status: EventStatus,
    attempts: nat,
    availableAt: Instant,
    createdAt: Instant,
    processingStartedAt: Option<Instant>,
    publishedAt: Option<Instant>,
    deadLetteredAt: Option<Instant>,
    acknowledgement: Option<Acknowledgement>,
    lastError: Option<string>)

  function NewEvent(payload: Payload, now: Instant): OutboxEvent {
    OutboxEvent(payload, Pending, 0, now, now, None, None, None, None, None)
  }

  // ---------- Operations both ledgers offer ----------

  datatype Op =
    | DepositOp(userId: UserId, amount: nat, txHash: string, blockNumber: nat, now: Instant)
    | CompleteOp(depositId: nat)
    | CreditOp(userId: UserId, credit: int, currency: string, reference: Reference, now: Instant)
    | TransferOp(fromUser: UserId, toUser: UserId, amount: nat, key: string, now: Instant)
    | RequestOp(
        userId: UserId, amount: nat, toAddress: string, key: string, requiredApprovals: Positive, now: Instant)
    | AuthOp(id: nat, provider: string, requestId: string, now: Instant)
    | ReviewOp(id: nat, now: Instant)
    | ApproveOp(id: nat, adminId: string, now: Instant)
    | BroadcastOp(id: nat, hash: string, now: Instant)
    | ConfirmOp(id: nat, fee: Option<NetworkFee>, now: Instant)
    | FailOp(id: nat, reason: string, now: Instant)

  datatype Reply =
    | Refused(code: ErrorCode)
    | DepositReply(deposit: Deposit, duplicated: bool)
    | CreditReply(credit: ExternalCredit, duplicated: bool)
    | TransferReply(fromTx: LedgerTx, toTx: LedgerTx, duplicated: bool)
    | RequestReply(withdrawal: Withdrawal, duplicated: bool)
    | WithdrawalReply(withdrawal: Withdrawal)
    | ApprovalReply(approved: Withdrawal, finalized: bool)

  predicate IsRefusalOrDuplicate(r: Reply) {
    r.Refused? || ((r.DepositReply? || r.CreditReply? || r.TransferReply? || r.RequestReply?) && r.duplicated)
  }
}
