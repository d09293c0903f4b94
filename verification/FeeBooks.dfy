/** Sweeps, network fee receipts and fee journals of the in-memory ledger. */
module FeeBooks {
  import opened Domain

  datatype FeeSource = ForWithdrawal | ForSweep

  /** `${withdrawalId}:${txHash}` or `${sweepId}:${txHash}`. */
  datatype FeeKey = FeeKey(source: FeeSource, id: nat, txHash: string)

  datatype Receipt = Receipt(key: FeeKey, txHash: string, feeSun: nat, confirmedAt: Instant)

  datatype FeeJournal = FeeJournal(key: FeeKey, day: nat, source: FeeSource, feeSun: nat)

  datatype SweepStatus = Planned | Queued | Broadcasted | Confirmed | SweepFailed

  datatype SweepRecord = SweepRecord(
    amount: nat, externalRef: Option<string>, status: SweepStatus, txHash: Option<string>, attempts: nat)

  /** Receipts and journals are Maps: entries in insertion order, one per key. */
  datatype Books = Books(sweeps: seq<SweepRecord>, receipts: seq<Receipt>, journals: seq<FeeJournal>)

  const EMPTY := Books([], [], [])

  datatype SweepOp =
    | Create(amount: nat, externalRef: Option<string>)
    | MarkQueued(id: nat)
    | RecordAttempt(id: nat)
    | MarkBroadcasted(id: nat, txHash: string)
    | ConfirmSweep(id: nat, fee: Option<NetworkFee>, now: Instant)
    | FailSweep(id: nat)

  /** `Map.set` of a receipt. */
  function SetReceipt(rs: seq<Receipt>, r: Receipt): seq<Receipt> {
    if rs == [] then [r]
    else if rs[0].key == r.key then [r] + rs[1..]
    else [rs[0]] + SetReceipt(rs[1..], r)
  }

  /** `Map.set` of a fee journal. */
  function SetJournal(js: seq<FeeJournal>, j: FeeJournal): seq<FeeJournal> {
    if js == [] then [j]
    else if js[0].key == j.key then [j] + js[1..]
    else [js[0]] + SetJournal(js[1..], j)
  }

  function Record(b: Books, source: FeeSource, id: nat, txHash: string, fee: NetworkFee, now: Instant): Books {
    var key := FeeKey(source, id, txHash);
    b.(receipts := SetReceipt(b.receipts, Receipt(key, fee.txHash, fee.feeSun, now)),
       journals := SetJournal(b.journals, FeeJournal(key, DayOf(now), source, fee.feeSun)))
  }

  predicate Allowed(s: SweepStatus, op: SweepOp) {
    match op
    case Create(_, _) => true
    case MarkQueued(_) => s == Planned
    case RecordAttempt(_) => s == Queued
    case MarkBroadcasted(_, _) => s == Planned || s == Queued
    case ConfirmSweep(_, _, _) => s == Planned || s == Broadcasted
    case FailSweep(_) => s == Planned || s == Queued || s == Broadcasted
  }

  datatype SweepReply = SweepRefused(code: ErrorCode) | SweepDone(sweep: SweepRecord)

  /** The records after a sweep call, with its answer: a new or known sweep as it is afterwards, or a
      refusal that changes nothing. */
  function Advance(sweeps: seq<SweepRecord>, op: SweepOp): (seq<SweepRecord>, SweepReply) {
    if op.Create? then
      var created := SweepRecord(op.amount, op.externalRef, Planned, None, 0);
      (sweeps + [created], SweepDone(created))
    else if op.id >= |sweeps| then (sweeps, SweepRefused(NotFound))
    else if !Allowed(sweeps[op.id].status, op) then (sweeps, SweepRefused(InvalidState))
    else
      var s := Swept(sweeps[op.id], op);
      (sweeps[op.id := s], SweepDone(s))
  }

  /** A confirmation that goes through records its fee when there is one and the sweep has a hash. */
  predicate BooksFee(op: SweepOp, reply: SweepReply) {
    && op.ConfirmSweep? && op.fee.Some?
    && reply.SweepDone? && reply.sweep.txHash.Some? && reply.sweep.txHash.value != ""
  }

  function SweepCall(b: Books, op: SweepOp): (Books, SweepReply) {
    var (sweeps, reply) := Advance(b.sweeps, op);
    var b1 := b.(sweeps := sweeps);
    (if BooksFee(op, reply) then Record(b1, ForSweep, op.id, reply.sweep.txHash.value, op.fee.value, op.now) else b1,
     reply)
  }

  function Swept(s: SweepRecord, op: SweepOp): SweepRecord {
    match op
    case Create(_, _) => s
    case MarkQueued(_) => s.(status := Queued)
    case RecordAttempt(_) => s.(attempts := s.attempts + 1)
    case MarkBroadcasted(_, txHash) => s.(status := Broadcasted, txHash := Some(txHash))
    case ConfirmSweep(_, _, _) => s.(status := Confirmed)
    case FailSweep(_) => s.(status := SweepFailed)
  }

  function SweepStep(b: Books, op: SweepOp): Books {
    SweepCall(b, op).0
  }
}
