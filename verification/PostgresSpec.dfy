/** What each transaction of the double-entry ledger does to the tables. */
module PostgresSpec {
  import opened Domain
  import Sums
  import Text
  import Fees = FeeBooks

  // ---------- Journals and the fold over postings ----------

  datatype SystemAccount =
    | DepositClearing
    | FoxyaCreditSync
    | HotWallet
    | HotWalletTrx
    | WithdrawNetworkFee
    | OfflinePayClearing
    | OfflinePayFee
    | OfflinePayReconciliation
    | SweepNetworkFee
    | SweepSourceTrx

  datatype LedgerAccount =
    | Available(userId: UserId)
    | WithdrawPending(userId: UserId)
    | OfflinePending(userId: UserId)
    | System(name: SystemAccount)

  datatype Side = Debit | Credit

  datatype Posting = Posting(account: LedgerAccount, side: Side, amount: nat)

  datatype Currency = Kori | Trx

  datatype Journal = Journal(reference: Reference, currency: Currency, postings: seq<Posting>, createdAt: Instant)

  /** Debit one account, credit another. */
  function Move(debit: LedgerAccount, credit: LedgerAccount, amount: nat): seq<Posting> {
    [Posting(debit, Debit, amount), Posting(credit, Credit, amount)]
  }

  /** Credit minus debit of one posting on account a. */
  function EffectOn(a: LedgerAccount): Posting -> int {
    (p: Posting) => if p.account != a then 0 else if p.side == Credit then p.amount else 0 - p.amount
  }

  function JournalEffect(a: LedgerAccount): Journal -> int {
    (j: Journal) => Sums.SumBy(j.postings, EffectOn(a))
  }

  /** `getProjectedLedgerAccountBalance`: the fold over all postings of one account. */
  function Net(js: seq<Journal>, a: LedgerAccount): int {
    Sums.SumBy(js, JournalEffect(a))
  }

  predicate IsOf(a: LedgerAccount, u: UserId) {
    a == Available(u) || a == WithdrawPending(u) || a == OfflinePending(u)
  }

  predicate PostsTo(j: Journal, u: UserId) {
    exists k :: 0 <= k < |j.postings| && IsOf(j.postings[k].account, u)
  }

  predicate HasPostings(js: seq<Journal>, u: UserId) {
    exists i :: 0 <= i < |js| && PostsTo(js[i], u)
  }

  /** `getProjectedUserBalances` */
  function Projected(js: seq<Journal>, u: UserId): Account {
    Account(Net(js, Available(u)), Net(js, WithdrawPending(u)) + Net(js, OfflinePending(u)))
  }

  // ---------- Tables ----------

  datatype Device = Device(userId: UserId, active: bool)

  datatype FeeReceipt = FeeReceipt(reference: Reference, fee: NetworkFee, confirmedAt: Instant)

  datatype Tables = Tables(
    accounts: map<UserId, Account>,
    ledgerAccounts: set<LedgerAccount>,
    journals: seq<Journal>,
    transactions: seq<LedgerTx>,
    deposits: seq<Deposit>,
    withdrawals: seq<Withdrawal>,
    approvals: seq<Approval>,
    devices: map<string, Device>,
    sweeps: seq<Fees.SweepRecord>,
    feeReceipts: seq<FeeReceipt>,
    outbox: seq<OutboxEvent>)

  const EMPTY := Tables(map[], {}, [], [], [], [], [], map[], [], [], [])

  function RefersTo(reference: Reference): Journal -> bool {
    (j: Journal) => j.reference == reference
  }

  function FindJournal(t: Tables, reference: Reference): Option<nat> {
    IndexWhere(t.journals, RefersTo(reference))
  }

  function Ensure(t: Tables, u: UserId): Tables {
    t.(accounts := Touch(t.accounts, u))
  }

  function PostedAccounts(ps: seq<Posting>): set<LedgerAccount> {
    set p | p in ps :: p.account
  }

  function AppendJournal(t: Tables, reference: Reference, currency: Currency, ps: seq<Posting>, now: Instant): Tables {
    t.(journals := t.journals + [Journal(reference, currency, ps, now)],
       ledgerAccounts := t.ledgerAccounts + PostedAccounts(ps))
  }

  function SyncUser(t: Tables, u: UserId): Tables {
    if HasPostings(t.journals, u) && u in t.accounts
    then t.(accounts := t.accounts[u := Projected(t.journals, u)])
    else t
  }

  /** `syncUserAccountProjection`: exactly the rows of the listed users with postings are refreshed. */
  function Sync(t: Tables, users: seq<UserId>): (r: Tables)
    ensures r == t.(accounts := r.accounts) && r.accounts.Keys == t.accounts.Keys
    ensures forall u :: u in t.accounts ==>
              r.accounts[u] == if u in users && HasPostings(t.journals, u) then Projected(t.journals, u)
                               else t.accounts[u]
  {
    if users == [] then t
    else
      assert users == users[..|users| - 1] + [users[|users| - 1]];
      SyncUser(Sync(t, users[..|users| - 1]), users[|users| - 1])
  }

  /** One journal, then the cached rows of the users it touches. */
  function Post(t: Tables, reference: Reference, ps: seq<Posting>, users: seq<UserId>, now: Instant): Tables {
    Sync(AppendJournal(t, reference, Kori, ps, now), users)
  }

  function Enqueue(t: Tables, payload: Payload, now: Instant): Tables {
    t.(outbox := t.outbox + [NewEvent(payload, now)])
  }

  /** The fold, or the cached row when the user has no postings yet. */
  function CurrentBalances(t: Tables, u: UserId): Account {
    if HasPostings(t.journals, u) then Projected(t.journals, u) else AccountOf(t.accounts, u)
  }

  // ---------- Operations shared with the in-memory ledger ----------

  function ApplyDeposit(t: Tables, u: UserId, amount: nat, txHash: string, blockNumber: nat, now: Instant):
    (Tables, Reply)
  {
    var existing := IndexWhere(t.deposits, HashIs(txHash));
    if existing.Some? then (t, DepositReply(t.deposits[existing.value], true))
    else
      var id := |t.deposits|;
      var d := Deposit(id, u, txHash, amount, Credited, blockNumber, now);
      var tx := LedgerTx(u, DepositTx, amount, TxConfirmed, Some(txHash), None, None, now);
      var t1 := Ensure(t, u).(transactions := t.transactions + [tx], deposits := t.deposits + [d]);
      var t2 := Post(t1, Reference(RefDeposit, Uuid(id)), Move(System(DepositClearing), Available(u), amount), [u],
                     now);
      (Enqueue(t2, DepositPayload(d), now), DepositReply(d, false))
  }

  function CompleteDeposit(t: Tables, depositId: nat): (Tables, Reply) {
    if depositId >= |t.deposits| then (t, Refused(NotFound))
    else if t.deposits[depositId].status == DepositCompleted then (t, DepositReply(t.deposits[depositId], true))
    else
      var d := t.deposits[depositId].(status := DepositCompleted);
      (t.(deposits := t.deposits[depositId := d]), DepositReply(d, false))
  }

  function ApplyCredit(t: Tables, u: UserId, amount: int, currency: string, reference: Reference, now: Instant):
    (Tables, Reply)
  {
    if amount <= 0 then (t, Refused(ValidationError))
    else if Text.NormalizeCode(currency) != "KORI" then (t, Refused(UnsupportedCurrency))
    else
      var existing := FindJournal(t, reference);
      if existing.Some? then
        (t, CreditReply(ExternalCredit(u, amount, reference, t.journals[existing.value].createdAt), true))
      else
        (Post(Ensure(t, u), reference, Move(System(FoxyaCreditSync), Available(u), amount), [u], now),
         CreditReply(ExternalCredit(u, amount, reference, now), false))
  }

  function IsTransferRow(key: string): LedgerTx -> bool {
    (tx: LedgerTx) => tx.idempotencyKey == Some(key) && (tx.txType == TransferOutTx || tx.txType == TransferInTx)
  }

  function IsTransferLeg(key: string, leg: TxType): LedgerTx -> bool {
    (tx: LedgerTx) => tx.idempotencyKey == Some(key) && tx.txType == leg
  }

  function CountRow(p: LedgerTx -> bool): LedgerTx -> int {
    (tx: LedgerTx) => if p(tx) then 1 else 0
  }

  function Transfer(t: Tables, f: UserId, to: UserId, amount: nat, key: string, now: Instant): (Tables, Reply) {
    if f == to then (t, Refused(ValidationError))
    else if Sums.SumBy(t.transactions, CountRow(IsTransferRow(key))) >= 2 then
      var outAt := IndexWhere(t.transactions, IsTransferLeg(key, TransferOutTx));
      var inAt := IndexWhere(t.transactions, IsTransferLeg(key, TransferInTx));
      if outAt.Some? && inAt.Some?
      then (t, TransferReply(t.transactions[outAt.value], t.transactions[inAt.value], true))
      else (t, Refused(StateCorrupted))
    else
      var t1 := Ensure(Ensure(t, f), to);
      if CurrentBalances(t1, f).balance < amount then (t, Refused(InsufficientBalance))
      else
        var (outTx, inTx) := TransferTxs(f, to, amount, key, now);
        var t2 := t1.(transactions := t.transactions + [outTx, inTx]);
        (Post(t2, Reference(RefTransfer, Text(key)), Move(Available(f), Available(to), amount), [f, to], now),
         TransferReply(outTx, inTx, false))
  }

  function KeyIs(key: string): Withdrawal -> bool {
    (w: Withdrawal) => w.idempotencyKey == key
  }

  function ForWithdrawal(rows: seq<Approval>, id: nat): (r: seq<Approval>)
  {
    if rows == [] then []
    else
      var last := rows[|rows| - 1];
      ForWithdrawal(rows[..|rows| - 1], id) + if last.withdrawalId == id then [last] else []
  }

  /** `hydrateWithdrawal`: the stored row with its approvals counted. */
  function Hydrated(t: Tables, id: nat): Withdrawal
    requires id < |t.withdrawals|
  {
    t.withdrawals[id].(approvalCount := |ForWithdrawal(t.approvals, id)|)
  }

  function RequestWithdrawal(t: Tables, limits: Limits, u: UserId, amount: nat, toAddress: string, key: string,
                             requiredApprovals: Positive, now: Instant): (Tables, Reply)
  {
    if amount > limits.singleLimit then (t, Refused(LimitExceeded))
    else
      var existing := IndexWhere(t.withdrawals, KeyIs(key));
      if existing.Some? then (t, RequestReply(Hydrated(t, existing.value), true))
      else if CurrentBalances(Ensure(t, u), u).balance < amount then (t, Refused(InsufficientBalance))
      else if DailyRequested(t.withdrawals, u, DayOf(now)) + amount > limits.dailyLimit then
        (t, Refused(LimitExceeded))
      else
        var id := |t.withdrawals|;
        var tx := LedgerTx(u, WithdrawTx, amount, TxPending, None, None, Some(key), now);
        var w := NewWithdrawal(u, amount, toAddress, key, |t.transactions|, requiredApprovals, now);
        var t1 := Ensure(t, u).(transactions := t.transactions + [tx], withdrawals := t.withdrawals + [w]);
        var t2 := Post(t1, Reference(RefWithdrawal, Uuid(id)), Move(Available(u), WithdrawPending(u), amount), [u],
                       now);
        (Enqueue(t2, WithdrawalPayload(id, Hydrated(t2, id)), now), RequestReply(Hydrated(t2, id), false))
  }

  /** Announces the present state of withdrawal `id`. */
  function Announce(t: Tables, id: nat, now: Instant): Tables
    requires id < |t.withdrawals|
  {
    Enqueue(t, WithdrawalPayload(id, Hydrated(t, id)), now)
  }

  /** Stores a changed withdrawal row and announces it. */
  function Store(t: Tables, id: nat, w: Withdrawal, now: Instant): (Tables, Reply)
    requires id < |t.withdrawals|
  {
    var t1 := t.(withdrawals := t.withdrawals[id := w]);
    (Announce(t1, id, now), WithdrawalReply(Hydrated(t1, id)))
  }

  function ConfirmAuth(t: Tables, id: nat, provider: string, requestId: string, now: Instant): (Tables, Reply) {
    if id >= |t.withdrawals| then (t, Refused(NotFound))
    else
      var w := t.withdrawals[id];
      if w.status == LedgerReserved then Store(t, id, WithAuth(w, provider, requestId, now), now)
      else if w.authProvider == Some(provider) && w.authRequestId == Some(requestId) && w.authConfirmedAt.Some? then
        (t, WithdrawalReply(Hydrated(t, id)))
      else (t, Refused(InvalidState))
  }

  /** Unlike the in-memory ledger, this one announces the review mark. */
  function MarkReview(t: Tables, id: nat, now: Instant): (Tables, Reply) {
    if id >= |t.withdrawals| then (t, Refused(NotFound))
    else if t.withdrawals[id].status != PendingAdmin then (t, WithdrawalReply(Hydrated(t, id)))
    else Store(t, id, t.withdrawals[id].(reviewRequiredAt := Some(now)), now)
  }

  function IsApprovalBy(id: nat, adminId: string): Approval -> bool {
    (a: Approval) => a.withdrawalId == id && a.adminId == adminId
  }

  function Approve(t: Tables, id: nat, adminId: string, now: Instant): (Tables, Reply) {
    if id >= |t.withdrawals| then (t, Refused(NotFound))
    else
      var w := t.withdrawals[id];
      if w.status != PendingAdmin then (t, Refused(InvalidState))
      else if IndexWhere(t.approvals, IsApprovalBy(id, adminId)).Some? then (t, Refused(AlreadyApproved))
      else
        var t1 := t.(approvals := t.approvals + [Approval(id, adminId, now)]);
        var finalized := |ForWithdrawal(t1.approvals, id)| >= w.requiredApprovals;
        var w' := if finalized then w.(status := AdminApproved, approvedAt := Some(now)) else w;
        var t2 := Store(t1, id, w', now).0;
        (t2, ApprovalReply(Hydrated(t2, id), finalized))
  }

  function Broadcast(t: Tables, id: nat, txHash: string, now: Instant): (Tables, Reply) {
    if id >= |t.withdrawals| then (t, Refused(NotFound))
    else if t.withdrawals[id].status != AdminApproved then (t, Refused(InvalidState))
    else Store(t, id, WithBroadcast(t.withdrawals[id], txHash, now), now)
  }

  function SetTx(txs: seq<LedgerTx>, i: nat, tx: LedgerTx): seq<LedgerTx> {
    if i < |txs| then txs[i := tx] else txs
  }

  function TxAt(txs: seq<LedgerTx>, i: nat, w: Withdrawal): LedgerTx {
    if i < |txs| then txs[i] else LedgerTx(w.userId, WithdrawTx, w.amount, TxPending, None, None, None, 0)
  }

  function IsReceiptFor(reference: Reference): FeeReceipt -> bool {
    (r: FeeReceipt) => r.reference == reference
  }

  /** `persistNetworkFeeReceipt`: the first receipt of a reference stays. */
  function AddReceipt(t: Tables, reference: Reference, fee: NetworkFee, now: Instant): Tables {
    if IndexWhere(t.feeReceipts, IsReceiptFor(reference)).Some? then t
    else t.(feeReceipts := t.feeReceipts + [FeeReceipt(reference, fee, now)])
  }

  /** The receipt, and the fee from an expense account to the wallet that paid it. */
  function BookFee(t: Tables, reference: Reference, expense: SystemAccount, wallet: SystemAccount, fee: NetworkFee,
                   now: Instant): Tables {
    AppendJournal(AddReceipt(t, reference, fee, now), reference, Trx, Move(System(expense), System(wallet), fee.feeSun),
                  now)
  }

  function Confirm(t: Tables, id: nat, fee: Option<NetworkFee>, now: Instant): (Tables, Reply) {
    if id >= |t.withdrawals| then (t, Refused(NotFound))
    else
      var w := t.withdrawals[id];
      if w.status != TxBroadcasted then (t, Refused(InvalidState))
      else if w.userId !in t.accounts then (t, Refused(StateCorrupted))
      else if CurrentBalances(t, w.userId).lockedBalance < w.amount then (t, Refused(StateCorrupted))
      else
        var reference := Reference(RefWithdrawal, Uuid(id));
        var tx := TxAt(t.transactions, w.ledgerTx, w).(status := TxConfirmed, blockTx := w.txHash);
        var t1 := t.(transactions := SetTx(t.transactions, w.ledgerTx, tx),
                     withdrawals := t.withdrawals[id := WithConfirmation(w, now)]);
        var t2 := AppendJournal(t1, reference, Kori, Move(WithdrawPending(w.userId), System(HotWallet), w.amount), now);
        var t3 := if fee.Some? && w.txHash.Some? && w.txHash.value != ""
                  then BookFee(t2, reference, WithdrawNetworkFee, HotWalletTrx, fee.value, now)
                  else t2;
        var t4 := Sync(t3, [w.userId]);
        (Announce(t4, id, now), WithdrawalReply(Hydrated(t4, id)))
  }

  function Fail(t: Tables, id: nat, reason: string, now: Instant): (Tables, Reply) {
    if id >= |t.withdrawals| then (t, Refused(NotFound))
    else
      var w := t.withdrawals[id];
      if !IsActive(w.status) then (t, Refused(InvalidState))
      else if w.userId !in t.accounts then (t, Refused(StateCorrupted))
      else if CurrentBalances(t, w.userId).lockedBalance < w.amount then (t, Refused(StateCorrupted))
      else
        var tx := TxAt(t.transactions, w.ledgerTx, w).(status := TxFailed);
        var t1 := t.(transactions := SetTx(t.transactions, w.ledgerTx, tx),
                     withdrawals := t.withdrawals[id := WithFailure(w, reason, now)]);
        var t2 := Post(t1, Reference(RefWithdrawal, Uuid(id)),
                       Move(WithdrawPending(w.userId), Available(w.userId), w.amount), [w.userId], now);
        (Announce(t2, id, now), WithdrawalReply(Hydrated(t2, id)))
  }

  function LedgerStep(t: Tables, limits: Limits, op: Op): (Tables, Reply) {
    match op
    case DepositOp(u, amount, txHash, blockNumber, now) => ApplyDeposit(t, u, amount, txHash, blockNumber, now)
    case CompleteOp(depositId) => CompleteDeposit(t, depositId)
    case CreditOp(u, amount, currency, reference, now) => ApplyCredit(t, u, amount, currency, reference, now)
    case TransferOp(f, to, amount, key, now) => Transfer(t, f, to, amount, key, now)
    case RequestOp(u, amount, toAddress, key, required, now) =>
      RequestWithdrawal(t, limits, u, amount, toAddress, key, required, now)
    case AuthOp(id, provider, requestId, now) => ConfirmAuth(t, id, provider, requestId, now)
    case ReviewOp(id, now) => MarkReview(t, id, now)
    case ApproveOp(id, adminId, now) => Approve(t, id, adminId, now)
    case BroadcastOp(id, txHash, now) => Broadcast(t, id, txHash, now)
    case ConfirmOp(id, fee, now) => Confirm(t, id, fee, now)
    case FailOp(id, reason, now) => Fail(t, id, reason, now)
  }

  // ---------- Sweeps ----------

  function HasExternalRef(externalRef: string): Fees.SweepRecord -> bool {
    (s: Fees.SweepRecord) => s.externalRef == Some(externalRef)
  }

  /** A sweep call: as in memory, but a known external reference answers the sweep it belongs to, and a
      confirmation's fee is a receipt and a TRX journal. */
  function SweepCall(t: Tables, op: Fees.SweepOp): (Tables, Fees.SweepReply) {
    var known := if op.Create? && op.externalRef.Some? && op.externalRef.value != ""
                 then IndexWhere(t.sweeps, HasExternalRef(op.externalRef.value)) else None;
    if known.Some? then (t, Fees.SweepDone(t.sweeps[known.value]))
    else
      var (sweeps, reply) := Fees.Advance(t.sweeps, op);
      var t1 := t.(sweeps := sweeps);
      (if Fees.BooksFee(op, reply) then BookSweepFee(t1, op.id, op.fee.value, op.now) else t1, reply)
  }

  function SweepRef(id: nat): Reference {
    Reference(RefSweep, Uuid(id))
  }

  function BookSweepFee(t: Tables, id: nat, fee: NetworkFee, now: Instant): Tables {
    BookFee(t, SweepRef(id), SweepNetworkFee, SweepSourceTrx, fee, now)
  }

  // ---------- Offline pay ----------

  const FEE_BPS: nat := 10
  const BPS_DENOMINATOR: nat := 10_000

  function FeeBps(assetCode: string): nat {
    if Text.NormalizeCode(assetCode) == "KORI" then FEE_BPS else 0
  }

  /** Basis-point fee, rounded half up. */
  function SettlementFee(assetCode: string, amount: nat): nat {
    if FeeBps(assetCode) == 0 || amount == 0 then 0
    else (amount * FeeBps(assetCode) + BPS_DENOMINATOR / 2) / BPS_DENOMINATOR
  }

  /** Within half a unit of the asset's basis points of the amount, a half counting upwards. */
  predicate IsFee(assetCode: string, amount: nat, fee: nat) {
    var exact := amount * (if Text.NormalizeCode(assetCode) == "KORI" then 10 else 0);
    2 * exact - 10_000 < 2 * 10_000 * fee <= 2 * exact + 10_000
  }

  datatype ReleaseAction = Release | AdjustBack

  datatype Settlement = Settlement(
    id: string,
    userId: UserId,
    receiverUserId: Option<string>,
    receiverDeviceId: Option<string>,
    receiverRequested: bool,
    assetCode: string,
    amount: nat,
    feeAmount: Option<int>,
    settled: bool,
    action: ReleaseAction,
    conflict: bool,
    honored: bool,
    now: Instant)

  datatype OfflineOp =
    | LockOp(userId: UserId, amount: nat, referenceId: string, now: Instant)
    | ReleaseOp(userId: UserId, amount: nat, referenceId: string, now: Instant)
    | DeviceOp(deviceId: string, userId: UserId, active: bool)
    | FinalizeOp(settlement: Settlement)
    | CompensateOp(settlementId: string, userId: UserId, amount: nat, action: ReleaseAction, now: Instant)
    | ReconcileBalanceOp(userId: UserId, target: int, now: Instant)
    | ReconcilePendingOp(userId: UserId, target: int, now: Instant)
    | RebuildOp
    | AccountOp(userId: UserId)

  datatype OfflineReply =
    | OfflineRefused(code: ErrorCode)
    | LockReply(lockDuplicated: bool)
    | SettleReply(duplicated: bool, feeAmount: int, available: int, locked: int, offlinePending: int)
    | ReconcileReply(previous: int, target: int, delta: int, adjusted: bool)
    | DoneReply(accountCount: nat)

  function LockCollateral(t: Tables, u: UserId, amount: nat, referenceId: string, now: Instant): (Tables, OfflineReply) {
    var reference := Reference(RefOfflineLock, Text(referenceId));
    if FindJournal(t, reference).Some? then (t, LockReply(true))
    else if CurrentBalances(Ensure(t, u), u).balance < amount then (t, OfflineRefused(InsufficientBalance))
    else
      var t1 := Post(Ensure(t, u), reference, Move(Available(u), OfflinePending(u), amount), [u], now);
      (Enqueue(t1, OfflinePayEvent("offline_pay.collateral.locked", referenceId, u, amount), now), LockReply(false))
  }

  function ReleaseCollateral(t: Tables, u: UserId, amount: nat, referenceId: string, now: Instant):
    (Tables, OfflineReply)
  {
    var reference := Reference(RefOfflineRelease, Text(referenceId));
    if FindJournal(t, reference).Some? then (t, LockReply(true))
    else if Net(t.journals, OfflinePending(u)) < amount then (t, OfflineRefused(InsufficientOfflinePayPending))
    else
      var t1 := Post(Ensure(t, u), reference, Move(OfflinePending(u), Available(u), amount), [u], now);
      (Enqueue(t1, OfflinePayEvent("offline_pay.collateral.released", referenceId, u, amount), now), LockReply(false))
  }

  /** The receiver named in the request, or the owner of the receiving device; never the sender. */
  function ResolveReceiver(t: Tables, s: Settlement): Option<UserId> {
    var named := if s.receiverUserId.Some? then Text.Trim(s.receiverUserId.value) else "";
    if named == "" || named == s.userId then
      var device := if s.receiverDeviceId.Some? then Text.Trim(s.receiverDeviceId.value) else "";
      if device == "" || device !in t.devices || !t.devices[device].active then None
      else
        var owner := t.devices[device].userId;
        if owner == "" || owner == s.userId then None else Some(owner)
    else Some(named)
  }

  function SettlementRef(id: string): Reference {
    Reference(RefSettlement, Text(id))
  }

  function ReceiverRef(id: string): Reference {
    Reference(RefReceiverSettlement, Text(id))
  }

  function FeeOf(s: Settlement): nat {
    if s.action == Release then SettlementFee(s.assetCode, s.amount) else 0
  }

  function ReceiverCredit(s: Settlement): nat {
    if s.amount > FeeOf(s) then s.amount - FeeOf(s) else 0
  }

  function SenderPostings(s: Settlement): seq<Posting> {
    if s.action == AdjustBack then Move(OfflinePending(s.userId), Available(s.userId), s.amount)
    else
      [Posting(OfflinePending(s.userId), Debit, s.amount), Posting(System(OfflinePayClearing), Credit,
                                                                   ReceiverCredit(s))]
      + if FeeOf(s) > 0 then [Posting(System(OfflinePayFee), Credit, FeeOf(s))] else []
  }

  predicate PaysReceiver(t: Tables, s: Settlement) {
    && ResolveReceiver(t, s).Some?
    && (s.settled || s.honored)
    && s.action == Release
    && !s.conflict
    && FindJournal(t, ReceiverRef(s.id)).None?
  }

  /** `appendOfflinePayReceiverSettlementIfNeeded` */
  function PayReceiver(t: Tables, s: Settlement): Tables {
    if PaysReceiver(t, s)
    then AppendJournal(t, ReceiverRef(s.id), Kori,
                       Move(System(OfflinePayClearing), Available(ResolveReceiver(t, s).value), ReceiverCredit(s)), s.now)
    else t
  }

  function AffectedUsers(t: Tables, s: Settlement): seq<UserId> {
    if s.receiverRequested && ResolveReceiver(t, s).Some? then [s.userId, ResolveReceiver(t, s).value] else [s.userId]
  }

  function EnsureAffected(t: Tables, s: Settlement): Tables {
    if s.receiverRequested && ResolveReceiver(t, s).Some?
    then Ensure(Ensure(t, s.userId), ResolveReceiver(t, s).value)
    else Ensure(t, s.userId)
  }

  function SettleResult(t: Tables, u: UserId, duplicated: bool, fee: int): OfflineReply {
    var p := Projected(t.journals, u);
    SettleReply(duplicated, fee, p.balance, p.lockedBalance, Net(t.journals, OfflinePending(u)))
  }

  function Finalize(t: Tables, s: Settlement): (Tables, OfflineReply) {
    var t1 := EnsureAffected(t, s);
    if FindJournal(t, SettlementRef(s.id)).Some? then
      var t2 := Sync(if s.receiverRequested then PayReceiver(t1, s) else t1, AffectedUsers(t, s));
      (t2, SettleResult(t2, s.userId, true, if s.feeAmount.Some? then s.feeAmount.value else 0))
    else if s.feeAmount.Some? && s.feeAmount.value < 0 then (t, OfflineRefused(InvalidOfflinePayFee))
    else if s.action == Release && s.feeAmount.Some? && s.feeAmount.value != SettlementFee(s.assetCode, s.amount) then
      (t, OfflineRefused(OfflinePayFeeMismatch))
    else if Net(t.journals, OfflinePending(s.userId)) < s.amount then
      (t, OfflineRefused(InsufficientOfflinePayPending))
    else
      var t2 := AppendJournal(t1, SettlementRef(s.id), Kori, SenderPostings(s), s.now);
      var t3 := Sync(if s.receiverRequested then PayReceiver(t2, s) else t2, AffectedUsers(t, s));
      (Enqueue(t3, OfflinePayEvent("offline_pay.settlement.finalized", s.id, s.userId, s.amount), s.now),
       SettleResult(t3, s.userId, false, FeeOf(s)))
  }

  function Compensate(t: Tables, id: string, u: UserId, amount: nat, action: ReleaseAction, now: Instant):
    (Tables, OfflineReply)
  {
    var reference := Reference(RefCompensation, Text(id));
    if FindJournal(t, reference).Some? then (t, SettleResult(t, u, true, 0))
    else
      var from := if action == Release then System(OfflinePayClearing) else Available(u);
      var t1 := Post(Ensure(t, u), reference, Move(from, OfflinePending(u), amount), [u], now);
      (Enqueue(t1, OfflinePayEvent("offline_pay.settlement.compensated", id, u, amount), now),
       SettleResult(t1, u, false, 0))
  }

  /** Pulls `account` to a target that is `delta` away, against the reconciliation account. */
  function ReconcilePostings(account: LedgerAccount, delta: int): seq<Posting> {
    if delta > 0 then Move(System(OfflinePayReconciliation), account, delta)
    else Move(account, System(OfflinePayReconciliation), 0 - delta)
  }

  predicate HasFootprint(t: Tables, u: UserId) {
    Available(u) in t.ledgerAccounts || OfflinePending(u) in t.ledgerAccounts || WithdrawPending(u) in t.ledgerAccounts
  }

  function LiabilityOf(js: seq<Journal>, u: UserId): int {
    Projected(js, u).balance + Projected(js, u).lockedBalance
  }

  function ReconcileBalance(t: Tables, u: UserId, target: int, now: Instant): (Tables, OfflineReply) {
    var t1 := Ensure(t, u);
    var previous := LiabilityOf(t.journals, u);
    var delta := target - previous;
    if delta == 0 || (delta > 0 && HasFootprint(t, u)) then (t1, ReconcileReply(previous, target, delta, false))
    else
      (Post(t1, Reference(RefReconciliation, UserAt(u, now)), ReconcilePostings(Available(u), delta), [u], now),
       ReconcileReply(previous, target, delta, true))
  }

  function ReconcilePending(t: Tables, u: UserId, target: int, now: Instant): (Tables, OfflineReply) {
    var t1 := Ensure(t, u);
    var previous := Net(t.journals, OfflinePending(u));
    var delta := target - previous;
    if delta == 0 then (t1, ReconcileReply(previous, target, delta, false))
    else
      (Post(t1, Reference(RefPendingReconciliation, UserAt(u, now)), ReconcilePostings(OfflinePending(u), delta),
            [u], now),
       ReconcileReply(previous, target, delta, true))
  }

  function Rebuild(t: Tables): Tables {
    t.(accounts := map u | u in t.accounts ::
         if HasPostings(t.journals, u) then Projected(t.journals, u) else t.accounts[u])
  }

  function OfflineStep(t: Tables, op: OfflineOp): (Tables, OfflineReply) {
    match op
    case LockOp(u, amount, referenceId, now) => LockCollateral(t, u, amount, referenceId, now)
    case ReleaseOp(u, amount, referenceId, now) => ReleaseCollateral(t, u, amount, referenceId, now)
    case DeviceOp(deviceId, u, active) => (t.(devices := t.devices[deviceId := Device(u, active)]), DoneReply(0))
    case FinalizeOp(s) => Finalize(t, s)
    case CompensateOp(id, u, amount, action, now) => Compensate(t, id, u, amount, action, now)
    case ReconcileBalanceOp(u, target, now) => ReconcileBalance(t, u, target, now)
    case ReconcilePendingOp(u, target, now) => ReconcilePending(t, u, target, now)
    case RebuildOp => (Rebuild(t), DoneReply(|t.accounts|))
    case AccountOp(u) => (Ensure(t, u), DoneReply(0))
  }

  datatype PostgresOp = Ledger(op: Op) | Offline(offlineOp: OfflineOp) | Sweep(sweepOp: Fees.SweepOp)

  function Step(t: Tables, limits: Limits, op: PostgresOp): Tables {
    match op
    case Ledger(op) => LedgerStep(t, limits, op).0
    case Offline(op) => OfflineStep(t, op).0
    case Sweep(op) => SweepCall(t, op).0
  }

  /** The tables after a whole run from an empty database. */
  function Run(limits: Limits, ops: seq<PostgresOp>): Tables {
    if ops == [] then EMPTY else Step(Run(limits, ops[..|ops| - 1]), limits, ops[|ops| - 1])
  }
}
