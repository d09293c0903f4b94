/** The token-deposit sync: every row is first applied and then completed, two ledger calls with room
    for an exception in between. Rows are keyed in the ledger by transaction hash, which other
    callers use too, and which the foreign table does not promise to be unique. */
module DepositSync {
  import opened Domain
  import opened CursorPaging
  import Text
  import M = MemorySpec
  import InMemoryLedger

  datatype Row = Row(key: Cursor, userId: UserId, currency: string, amount: nat, txHash: string, blockNumber: nat)

  function KeyOf(): Row -> Cursor {
    (r: Row) => r.key
  }

  predicate Supported(r: Row) {
    Text.NormalizeCode(r.currency) == "KORI"
  }

  // ---------- One candidate ----------

  /** Where an exception hits a candidate. */
  datatype Fault = NoFault | BeforeApply | BeforeComplete | AfterComplete

  /** What a cycle meets from outside: faults, and the time of each ledger call. */
  datatype Environment = Environment(faults: Row -> Fault, clock: Row -> Instant)

  function Process(m: M.Memory, r: Row, fault: Fault, now: Instant): (M.Memory, bool) {
    if !Supported(r) then (m, true)
    else if fault == BeforeApply then (m, false)
    else
      var (applied, reply) := M.ApplyDeposit(m, r.userId, r.amount, r.txHash, r.blockNumber, now);
      if fault == BeforeComplete then (applied, false)
      else if reply.deposit.status == DepositCompleted then (applied, fault == NoFault)
      else
        var (completed, answer) := M.CompleteDeposit(applied, reply.deposit.depositId);
        (completed, !answer.Refused? && fault == NoFault)
  }

  function StepOf(env: Environment): (M.Memory, Row) -> (M.Memory, bool) {
    (m: M.Memory, r: Row) => Process(m, r, env.faults(r), env.clock(r))
  }

  type SyncWorld = World<M.Memory, Row>

  function CycleOf(w: SyncWorld, limit: nat, env: Environment, ending: Ending): SyncWorld {
    Cycle(w, KeyOf(), limit, StepOf(env), ending)
  }

  // ---------- The cycle as it runs ----------

  class SyncService {
    const ledger: InMemoryLedger.Ledger
    var cursor: Option<Cursor>

    constructor (ledger: InMemoryLedger.Ledger)
      ensures this.ledger == ledger && cursor == None
    {
      this.ledger, cursor := ledger, None;
    }

    /** The body of the loop's try block. */
    method ApplyCandidate(candidate: Row, fault: Fault, now: Instant) returns (outcome: Outcome)
      modifies ledger
      ensures Process(old(ledger.State()), candidate, fault, now) == (ledger.State(), outcome != CandidateFailed)
    {
      hide M.ApplyDeposit, M.CompleteDeposit;
      if !Supported(candidate) {
        return Skipped;
      }
      if fault == BeforeApply {
        return CandidateFailed;
      }
      ApplyEffect(ledger.State(), candidate.userId, candidate.amount, candidate.txHash, candidate.blockNumber, now);
      var applied :=
        ledger.ApplyDeposit(candidate.userId, candidate.amount, candidate.txHash, candidate.blockNumber, now);
      if fault == BeforeComplete {
        return CandidateFailed;
      }
      if applied.deposit.status != DepositCompleted {
        var completed := ledger.CompleteDeposit(applied.deposit.depositId);
        if completed.Refused? {
          return CandidateFailed;
        }
      }
      if fault == AfterComplete {
        return CandidateFailed;
      }
      outcome := if applied.duplicated then Duplicated else Synced;
    }

    method RunCycle(rows: seq<Row>, limit: nat, env: Environment, ending: Ending) returns (counts: Counts)
      modifies this`cursor, ledger
      ensures World(rows, ledger.State(), cursor) ==
              CycleOf(World(rows, old(ledger.State()), old(cursor)), limit, env, ending)
      ensures counts.checked == counts.synced + counts.duplicated + counts.skipped + counts.failed
      ensures counts.failed <= 1
      ensures counts.cursorAdvanced <==> ending.Completes? && counts.checked > counts.failed
    {
      hide Process, Loop;
      var candidates := Candidates(rows, KeyOf(), cursor, limit);
      ghost var start := ledger.State();
      ghost var step := StepOf(env);
      ghost var reached := Reached(World(rows, start, cursor), KeyOf(), limit, ending);
      hide Candidates, Done;
      LoopNone(start, step);
      counts := Counts(0, 0, 0, 0, 0, false);
      var lastProcessed: Option<Cursor> := None;
      var i := 0;
      while i < |candidates|
        invariant i <= |reached| && i == counts.checked
        invariant Loop(start, reached[..i], step) == (ledger.State(), i)
        invariant lastProcessed == if i == 0 then None else Some(reached[i - 1].key)
        invariant counts.failed == 0 && !counts.cursorAdvanced
        invariant counts.checked == counts.synced + counts.duplicated + counts.skipped
        invariant cursor == old(cursor)
      {
        if ending.Crashes? && ending.at <= i {
          assert reached[..i] == reached;
          return;
        }
        var candidate := candidates[i];
        assert candidate == reached[i];
        LoopNext(start, reached, step, i);
        counts := counts.(checked := counts.checked + 1);
        var outcome := ApplyCandidate(candidate, env.faults(candidate), env.clock(candidate));
        match outcome {
          case Skipped => counts := counts.(skipped := counts.skipped + 1);
          case Duplicated => counts := counts.(duplicated := counts.duplicated + 1);
          case Synced => counts := counts.(synced := counts.synced + 1);
          case CandidateFailed =>
            counts := counts.(failed := 1);
            StopsThere(start, reached, step, i);
            break;
        }
        lastProcessed := Some(candidate.key);
        i := i + 1;
      }
      if i == |candidates| {
        assert reached[..|reached|] == reached;
      }
      if ending.Crashes? {
        return;
      }
      if lastProcessed.Some? {
        cursor := lastProcessed;
        counts := counts.(cursorAdvanced := true);
      }
    }
  }

  // ---------- Rows and deposits ----------

  /** Deposits sit at their id, one for each hash. */
  ghost predicate OneDepositPerHash(deposits: seq<Deposit>) {
    && (forall i :: 0 <= i < |deposits| ==> deposits[i].depositId == i)
    && (forall i, j :: 0 <= i < j < |deposits| ==> deposits[i].txHash != deposits[j].txHash)
  }

  ghost predicate HasHash(deposits: seq<Deposit>, txHash: string) {
    exists i :: 0 <= i < |deposits| && deposits[i].txHash == txHash
  }

  /** A deposit with the row's hash is recorded and COMPLETED. */
  ghost predicate IsRecorded(deposits: seq<Deposit>, r: Row) {
    exists i :: 0 <= i < |deposits| && deposits[i].txHash == r.txHash && deposits[i].status == DepositCompleted
  }

  ghost predicate RecordedBelow(deposits: seq<Deposit>, rows: seq<Row>, n: nat) {
    forall i :: 0 <= i < n && i < |rows| && Supported(rows[i]) ==> IsRecorded(deposits, rows[i])
  }

  /** Deposits are only added, and only their status moves, to COMPLETED. */
  ghost predicate DepositsGrow(before: seq<Deposit>, after: seq<Deposit>) {
    && |before| <= |after|
    && forall i :: 0 <= i < |before| ==>
         after[i] == before[i] || after[i] == before[i].(status := DepositCompleted)
  }

  ghost predicate Books(deposits: seq<Deposit>, rows: seq<Row>, n: nat) {
    OneDepositPerHash(deposits) && RecordedBelow(deposits, rows, n)
  }

  lemma GrowthKeepsRecorded(before: seq<Deposit>, after: seq<Deposit>, r: Row)
    requires DepositsGrow(before, after) && IsRecorded(before, r)
    ensures IsRecorded(after, r)
  {
    var i :| 0 <= i < |before| && before[i].txHash == r.txHash && before[i].status == DepositCompleted;
    assert after[i].txHash == r.txHash;
  }

  lemma GrowthKeepsBelow(before: seq<Deposit>, after: seq<Deposit>, rows: seq<Row>, n: nat)
    requires DepositsGrow(before, after) && RecordedBelow(before, rows, n)
    ensures RecordedBelow(after, rows, n)
  {
    hide Supported, IsRecorded, DepositsGrow;
    forall i | 0 <= i < n && i < |rows| && Supported(rows[i]) ensures IsRecorded(after, rows[i]) {
      GrowthKeepsRecorded(before, after, rows[i]);
    }
  }

  /** What any ledger call can do to the deposits: complete some, or record one with a new hash. */
  ghost predicate DepositStep(before: seq<Deposit>, after: seq<Deposit>) {
    && DepositsGrow(before, after)
    && (OneDepositPerHash(before) ==> OneDepositPerHash(after))
  }

  lemma ApplyEffect(m: M.Memory, u: UserId, amount: nat, txHash: string, block: nat, now: Instant)
    ensures var (m', reply) := M.ApplyDeposit(m, u, amount, txHash, block, now);
      && reply.DepositReply?
      && DepositStep(m.deposits, m'.deposits)
      && (if HasHash(m.deposits, txHash) then m' == m
          else m'.deposits == m.deposits + [Deposit(|m.deposits|, u, txHash, amount, Credited, block, now)])
      && (OneDepositPerHash(m.deposits) ==>
            && reply.deposit.depositId < |m'.deposits| && reply.deposit == m'.deposits[reply.deposit.depositId]
            && reply.deposit.txHash == txHash)
  {
    hide AccountOf, Adjust, Touch;
  }

  lemma CompleteEffect(m: M.Memory, depositId: nat)
    ensures var (m', reply) := M.CompleteDeposit(m, depositId);
      && DepositStep(m.deposits, m'.deposits)
      && |m'.deposits| == |m.deposits|
      && (reply.Refused? <==> depositId >= |m.deposits|)
      && (depositId < |m.deposits| ==> m'.deposits[depositId] == m.deposits[depositId].(status := DepositCompleted))
      && m' == m.(deposits := m'.deposits)
  {
  }

  /** A candidate fails only by a fault; when it does not, its hash is recorded and COMPLETED. New
      deposits are the row's own. */
  lemma ProcessEffect(m: M.Memory, r: Row, fault: Fault, now: Instant)
    requires OneDepositPerHash(m.deposits)
    ensures var (m', ok) := Process(m, r, fault, now);
      && DepositStep(m.deposits, m'.deposits)
      && (ok <==> !Supported(r) || fault == NoFault)
      && (ok && Supported(r) ==> IsRecorded(m'.deposits, r))
      && (if Supported(r) && fault != BeforeApply && !HasHash(m.deposits, r.txHash)
          then |m'.deposits| == |m.deposits| + 1 && Matches(m'.deposits[|m.deposits|], r)
          else |m'.deposits| == |m.deposits|)
  {
    hide M.ApplyDeposit, M.CompleteDeposit, OneDepositPerHash;
    if Supported(r) && fault != BeforeApply {
      ApplyEffect(m, r.userId, r.amount, r.txHash, r.blockNumber, now);
      var (applied, reply) := M.ApplyDeposit(m, r.userId, r.amount, r.txHash, r.blockNumber, now);
      CompleteEffect(applied, reply.deposit.depositId);
    }
  }

  lemma ProcessKeeps(m: M.Memory, rows: seq<Row>, i: nat, fault: Fault, now: Instant)
    requires i < |rows| && Books(m.deposits, rows, i)
    ensures var (m', ok) := Process(m, rows[i], fault, now);
            Books(m'.deposits, rows, if ok then i + 1 else i)
  {
    hide Process, Supported, IsRecorded, OneDepositPerHash;
    ProcessEffect(m, rows[i], fault, now);
    GrowthKeepsBelow(m.deposits, Process(m, rows[i], fault, now).0.deposits, rows, i);
  }

  lemma {:induction false} LoopKeeps(m: M.Memory, rows: seq<Row>, lo: nat, k: nat, env: Environment)
    requires lo + k <= |rows| && Books(m.deposits, rows, lo)
    ensures var (m', n) := Loop(m, rows[lo..lo + k], StepOf(env));
      && Books(m'.deposits, rows, lo + n)
      && (env.faults == NoFaults() ==> n == k)
  {
    hide Process, Books;
    if k > 0 {
      LoopKeeps(m, rows, lo, k - 1, env);
      var slice := rows[lo..lo + k];
      assert slice[..k - 1] == rows[lo..lo + k - 1];
      var (m1, n) := Loop(m, slice[..k - 1], StepOf(env));
      if n == k - 1 {
        var r := rows[lo + n];
        ProcessKeeps(m1, rows, lo + n, env.faults(r), env.clock(r));
        BooksHaveHashes(m1.deposits, rows, lo + n);
        ProcessEffect(m1, r, env.faults(r), env.clock(r));
      }
    }
  }

  lemma BooksHaveHashes(deposits: seq<Deposit>, rows: seq<Row>, n: nat)
    requires Books(deposits, rows, n)
    ensures OneDepositPerHash(deposits)
  {
  }

  function NoFaults(): Row -> Fault {
    (r: Row) => NoFault
  }

  // ---------- Runs ----------

  datatype Event =
    | SyncCycle(limit: nat, env: Environment, ending: Ending)
    | SourceGrows(rows: seq<Row>)
    | LedgerCall(limits: Limits, call: M.MemoryOp)

  /** New rows lie after the cursor; anyone may deposit anything. */
  ghost predicate Legal(w: SyncWorld, e: Event) {
    e.SourceGrows? ==> Arrival(w.rows, e.rows, KeyOf(), w.cursor)
  }

  function Next(w: SyncWorld, e: Event): SyncWorld {
    match e
    case SyncCycle(limit, env, ending) => CycleOf(w, limit, env, ending)
    case SourceGrows(rows) => w.(rows := rows)
    case LedgerCall(limits, call) => w.(ledger := M.Step(w.ledger, limits, call))
  }

  const START: SyncWorld := World([], M.EMPTY, None)

  function RunOf(events: seq<Event>): SyncWorld {
    if events == [] then START else Next(RunOf(events[..|events| - 1]), events[|events| - 1])
  }

  ghost predicate LegalRun(events: seq<Event>) {
    forall i :: 0 <= i < |events| ==> Legal(RunOf(events[..i]), events[i])
  }

  function DoneOf(w: SyncWorld): (n: nat)
    ensures n <= |w.rows|
  {
    Done(w.rows, KeyOf(), w.cursor)
  }

  /** At or below the cursor every row's hash is recorded and COMPLETED; no hash is booked twice. */
  ghost predicate Inv(w: SyncWorld) {
    IsTable(w.rows, KeyOf()) && Books(w.ledger.deposits, w.rows, DoneOf(w))
  }

  lemma CycleKeeps(w: SyncWorld, limit: nat, env: Environment, ending: Ending)
    requires Inv(w)
    ensures var w' := CycleOf(w, limit, env, ending);
      && Inv(w') && w'.rows == w.rows
      && (env.faults == NoFaults() && ending.Completes? ==>
            DoneOf(w') == if DoneOf(w) + limit <= |w.rows| then DoneOf(w) + limit else |w.rows|)
  {
    hide Loop, Process, Done, IsTable, OneDepositPerHash, Reached;
    var reached := Reached(w, KeyOf(), limit, ending);
    ReachedIsSlice(w, KeyOf(), limit, ending);
    LoopKeeps(w.ledger, w.rows, DoneOf(w), |reached|, env);
    CycleMovesCursor(w, KeyOf(), limit, StepOf(env), ending);
  }

  lemma CallEffect(m: M.Memory, limits: Limits, call: M.MemoryOp)
    ensures DepositStep(m.deposits, M.Step(m, limits, call).deposits)
    ensures (call.Ledger? && call.op.DepositOp?) || |M.Step(m, limits, call).deposits| == |m.deposits|
  {
    hide AccountOf, Adjust, Touch, DailyRequested, IndexWhere, M.ApprovalsOf, M.HasApproved, M.ApplyDeposit,
         M.CompleteDeposit, OneDepositPerHash, WithAuth, WithApproval, WithBroadcast, WithConfirmation, WithFailure,
         NewWithdrawal, TransferTxs;
    if call.Ledger? && call.op.DepositOp? {
      ApplyEffect(m, call.op.userId, call.op.amount, call.op.txHash, call.op.blockNumber, call.op.now);
    } else if call.Ledger? && call.op.CompleteOp? {
      CompleteEffect(m, call.op.depositId);
    } else {
      assert M.Step(m, limits, call).deposits == m.deposits;
    }
  }

  lemma NextKeeps(w: SyncWorld, e: Event)
    requires Inv(w) && Legal(w, e)
    ensures Inv(Next(w, e))
  {
    hide M.Step, Done, CycleOf, Supported, IsRecorded, OneDepositPerHash, DepositsGrow;
    match e
    case SyncCycle(limit, env, ending) => CycleKeeps(w, limit, env, ending);
    case SourceGrows(rows) =>
      ArrivalKeepsDone(w.rows, rows, KeyOf(), w.cursor);
    case LedgerCall(limits, call) =>
      CallEffect(w.ledger, limits, call);
      GrowthKeepsBelow(w.ledger.deposits, M.Step(w.ledger, limits, call).deposits, w.rows, DoneOf(w));
  }

  lemma {:induction false} EveryRun(events: seq<Event>)
    requires LegalRun(events)
    ensures Inv(RunOf(events))
  {
    hide Next, Inv;
    if events == [] {
      StartHolds();
    } else {
      var before := events[..|events| - 1];
      assert forall i :: 0 <= i < |before| ==> before[i] == events[i] && before[..i] == events[..i];
      EveryRun(before);
      NextKeeps(RunOf(before), events[|events| - 1]);
    }
  }

  lemma StartHolds()
    ensures Inv(START)
  {
  }

  lemma CursorNeverGoesBack(events: seq<Event>, e: Event)
    requires LegalRun(events) && Legal(RunOf(events), e)
    ensures var w := RunOf(events);
            var w' := Next(w, e);
            w'.cursor == w.cursor || (w'.cursor.Some? && Later(w'.cursor.value, w.cursor))
  {
    hide RunOf, Process, Loop, Done, Reached, M.Step;
    EveryRun(events);
    if e.SyncCycle? {
      CycleMovesCursor(RunOf(events), KeyOf(), e.limit, StepOf(e.env), e.ending);
    }
  }

  // ---------- Draining ----------

  function CleanCycles(w: SyncWorld, limit: nat, clock: Row -> Instant, count: nat): SyncWorld {
    if count == 0 then w
    else CycleOf(CleanCycles(w, limit, clock, count - 1), limit, Environment(NoFaults(), clock), Completes)
  }

  lemma {:induction false} CleanCyclesProgress(w: SyncWorld, limit: nat, clock: Row -> Instant, count: nat)
    requires Inv(w)
    ensures var w' := CleanCycles(w, limit, clock, count);
      && Inv(w') && w'.rows == w.rows
      && DoneOf(w') == if DoneOf(w) + count * limit <= |w.rows| then DoneOf(w) + count * limit else |w.rows|
  {
    hide Inv, Done, CycleOf;
    if count > 0 {
      CleanCyclesProgress(w, limit, clock, count - 1);
      CycleKeeps(CleanCycles(w, limit, clock, count - 1), limit, Environment(NoFaults(), clock), Completes);
      OneMore(count, limit);
    }
  }

  /** Unlike credits, deposits always drain: the ledger takes a deposit of zero units. */
  lemma AlwaysDrains(events: seq<Event>, limit: nat, clock: Row -> Instant, count: nat)
    requires LegalRun(events) && limit > 0 && count >= |RunOf(events).rows|
    ensures var w' := CleanCycles(RunOf(events), limit, clock, count);
      && w'.rows == RunOf(events).rows && DoneOf(w') == |w'.rows|
      && RecordedBelow(w'.ledger.deposits, w'.rows, |w'.rows|)
  {
    hide RunOf, Done, CleanCycles, RecordedBelow;
    EveryRun(events);
    CleanCyclesProgress(RunOf(events), limit, clock, count);
    AtLeast(count, limit);
  }

  // ---------- Whose money a hash books ----------

  predicate Matches(d: Deposit, r: Row) {
    d.txHash == r.txHash && d.userId == r.userId && d.amount == r.amount
  }

  ghost predicate DistinctHashes(rows: seq<Row>) {
    forall i, j :: 0 <= i < j < |rows| && Supported(rows[i]) && Supported(rows[j]) ==> rows[i].txHash != rows[j].txHash
  }

  /** The source owns its hashes: no two rows share one, rows do not arrive with a hash already
      booked, and nobody else books the hash of a row. */
  ghost predicate OwnsHashes(w: SyncWorld, e: Event) {
    match e
    case SyncCycle(_, _, _) => true
    case SourceGrows(rows) =>
      DistinctHashes(rows) &&
      forall i :: 0 <= i < |rows| && rows[i] !in w.rows && Supported(rows[i]) ==>
        !HasHash(w.ledger.deposits, rows[i].txHash)
    case LedgerCall(_, call) =>
      call.Ledger? && call.op.DepositOp? ==>
        forall i :: 0 <= i < |w.rows| && Supported(w.rows[i]) ==> w.rows[i].txHash != call.op.txHash
  }

  /** A deposit with a row's hash is that row's deposit. */
  ghost predicate Faithful(deposits: seq<Deposit>, rows: seq<Row>) {
    forall i, j :: 0 <= i < |deposits| && 0 <= j < |rows| && Supported(rows[j]) && deposits[i].txHash == rows[j].txHash
      ==> Matches(deposits[i], rows[j])
  }

  ghost predicate OwningRun(events: seq<Event>) {
    LegalRun(events) && forall i :: 0 <= i < |events| ==> OwnsHashes(RunOf(events[..i]), events[i])
  }

  function Matters(): Row -> bool {
    (r: Row) => Supported(r)
  }

  ghost function Booked(deposits: seq<Deposit>): Row -> bool {
    (r: Row) => HasHash(deposits, r.txHash)
  }

  ghost predicate BookedPrefix(deposits: seq<Deposit>, rows: seq<Row>) {
    IsPrefix(rows, Matters(), Booked(deposits))
  }

  lemma ProcessOwn(m: M.Memory, rows: seq<Row>, i: nat, fault: Fault, now: Instant)
    requires i < |rows| && Books(m.deposits, rows, i) && DistinctHashes(rows) && Faithful(m.deposits, rows)
    ensures var m' := Process(m, rows[i], fault, now).0;
            Faithful(m'.deposits, rows) && (BookedPrefix(m.deposits, rows) ==> BookedPrefix(m'.deposits, rows))
  {
    hide Process, Supported, OneDepositPerHash, IsPrefix;
    ProcessEffect(m, rows[i], fault, now);
    var m' := Process(m, rows[i], fault, now).0;
    forall j | 0 <= j < |rows| && Supported(rows[j])
      ensures HasHash(m'.deposits, rows[j].txHash) <==>
              HasHash(m.deposits, rows[j].txHash) || (j == i && |m'.deposits| > |m.deposits|)
    {
      HashesGrow(m.deposits, m'.deposits, rows[j].txHash);
    }
    if BookedPrefix(m.deposits, rows) {
      forall j | 0 <= j < i && Matters()(rows[j]) ensures Booked(m.deposits)(rows[j]) {
        assert IsRecorded(m.deposits, rows[j]);
      }
      if |m'.deposits| > |m.deposits| {
        PrefixGrows(rows, Matters(), Booked(m.deposits), Booked(m'.deposits), i);
      } else {
        SamePrefix(rows, Booked(m.deposits), Booked(m'.deposits));
      }
    }
  }

  lemma SamePrefix(rows: seq<Row>, has: Row -> bool, has': Row -> bool)
    requires forall j :: 0 <= j < |rows| && Matters()(rows[j]) ==> (has(rows[j]) <==> has'(rows[j]))
    requires IsPrefix(rows, Matters(), has)
    ensures IsPrefix(rows, Matters(), has')
  {
    var p: nat :| PrefixAt(rows, Matters(), has, p);
    assert PrefixAt(rows, Matters(), has', p);
  }

  lemma HashesGrow(before: seq<Deposit>, after: seq<Deposit>, txHash: string)
    requires DepositsGrow(before, after) && |after| <= |before| + 1
    ensures HasHash(after, txHash) <==>
            HasHash(before, txHash) || (|after| > |before| && after[|before|].txHash == txHash)
  {
    if HasHash(before, txHash) {
      var i :| 0 <= i < |before| && before[i].txHash == txHash;
      assert after[i].txHash == txHash;
    }
  }

  lemma {:induction false} LoopOwn(m: M.Memory, rows: seq<Row>, lo: nat, k: nat, env: Environment)
    requires lo + k <= |rows| && Books(m.deposits, rows, lo) && DistinctHashes(rows) && Faithful(m.deposits, rows)
    ensures var m' := Loop(m, rows[lo..lo + k], StepOf(env)).0;
            Faithful(m'.deposits, rows) && (BookedPrefix(m.deposits, rows) ==> BookedPrefix(m'.deposits, rows))
  {
    hide Process, Books, Faithful, DistinctHashes, BookedPrefix;
    if k > 0 {
      LoopOwn(m, rows, lo, k - 1, env);
      LoopKeeps(m, rows, lo, k - 1, env);
      var slice := rows[lo..lo + k];
      assert slice[..k - 1] == rows[lo..lo + k - 1];
      var (m1, n) := Loop(m, slice[..k - 1], StepOf(env));
      if n == k - 1 {
        ProcessOwn(m1, rows, lo + n, env.faults(rows[lo + n]), env.clock(rows[lo + n]));
      }
    }
  }

  /** New rows come after every booked one, not just after the cursor. */
  ghost predicate ArrivesInOrder(w: SyncWorld, rows: seq<Row>) {
    InOrder(w.rows, rows, KeyOf(), Matters(), Booked(w.ledger.deposits))
  }

  ghost predicate Owned(w: SyncWorld) {
    DistinctHashes(w.rows) && Faithful(w.ledger.deposits, w.rows)
  }

  lemma NextOwn(w: SyncWorld, e: Event)
    requires Inv(w) && Owned(w) && Legal(w, e) && OwnsHashes(w, e)
    ensures Owned(Next(w, e))
    ensures BookedPrefix(w.ledger.deposits, w.rows) ==>
              (BookedPrefix(Next(w, e).ledger.deposits, Next(w, e).rows) <==>
               (e.SourceGrows? ==> ArrivesInOrder(w, e.rows)))
  {
    match e
    case SyncCycle(limit, env, ending) => CycleOwn(w, limit, env, ending);
    case SourceGrows(rows) => GrowthOwn(w, rows);
    case LedgerCall(limits, call) => CallOwn(w, limits, call);
  }

  lemma CycleOwn(w: SyncWorld, limit: nat, env: Environment, ending: Ending)
    requires Inv(w) && Owned(w)
    ensures var w' := CycleOf(w, limit, env, ending);
      && Owned(w') && (BookedPrefix(w.ledger.deposits, w.rows) ==> BookedPrefix(w'.ledger.deposits, w'.rows))
  {
    hide Loop, Process, Done, IsTable, Books, Faithful, DistinctHashes, BookedPrefix, Reached;
    var reached := Reached(w, KeyOf(), limit, ending);
    ReachedIsSlice(w, KeyOf(), limit, ending);
    LoopOwn(w.ledger, w.rows, DoneOf(w), |reached|, env);
  }

  lemma GrowthOwn(w: SyncWorld, rows: seq<Row>)
    requires Inv(w) && Owned(w) && Arrival(w.rows, rows, KeyOf(), w.cursor) && OwnsHashes(w, SourceGrows(rows))
    ensures Owned(w.(rows := rows))
    ensures BookedPrefix(w.ledger.deposits, w.rows) ==>
              (BookedPrefix(w.ledger.deposits, rows) <==> ArrivesInOrder(w, rows))
  {
    hide Done, Supported, IsPrefix, InOrder, Books, Matches;
    var deposits := w.ledger.deposits;
    forall i, j | 0 <= i < |deposits| && 0 <= j < |rows| && Supported(rows[j]) && deposits[i].txHash == rows[j].txHash
      ensures Matches(deposits[i], rows[j])
    {
      assert HasHash(deposits, rows[j].txHash);
      assert rows[j] in w.rows;
    }
    if BookedPrefix(deposits, w.rows) {
      GrowthKeepsPrefixExactly(w.rows, rows, KeyOf(), w.cursor, Matters(), Booked(deposits));
    }
  }

  lemma CallOwn(w: SyncWorld, limits: Limits, call: M.MemoryOp)
    requires Owned(w) && OwnsHashes(w, LedgerCall(limits, call))
    ensures var w' := Next(w, LedgerCall(limits, call));
      && Owned(w') && (BookedPrefix(w.ledger.deposits, w.rows) ==> BookedPrefix(w'.ledger.deposits, w.rows))
  {
    hide M.Step, Supported, IsPrefix, OneDepositPerHash;
    CallEffect(w.ledger, limits, call);
    var before := w.ledger.deposits;
    var after := M.Step(w.ledger, limits, call).deposits;
    if call.Ledger? && call.op.DepositOp? {
      DepositCall(w.ledger, limits, call.op);
    }
    forall j | 0 <= j < |w.rows| && Supported(w.rows[j])
      ensures HasHash(after, w.rows[j].txHash) <==> HasHash(before, w.rows[j].txHash)
    {
      HashesGrow(before, after, w.rows[j].txHash);
    }
    if BookedPrefix(before, w.rows) {
      SamePrefix(w.rows, Booked(before), Booked(after));
    }
  }

  lemma DepositCall(m: M.Memory, limits: Limits, op: Op)
    requires op.DepositOp?
    ensures var after := M.Step(m, limits, M.Ledger(op)).deposits;
      |m.deposits| <= |after| <= |m.deposits| + 1
      && (|after| > |m.deposits| ==> after[|m.deposits|].txHash == op.txHash)
  {
    hide M.ApplyDeposit;
    ApplyEffect(m, op.userId, op.amount, op.txHash, op.blockNumber, op.now);
  }

  lemma {:induction false} OwningRunsStayFaithful(events: seq<Event>)
    requires OwningRun(events)
    ensures Owned(RunOf(events))
  {
    hide Next, Inv, Owned, Legal, OwnsHashes;
    if events == [] {
      StartOwned();
    } else {
      var before := events[..|events| - 1];
      assert forall i :: 0 <= i < |before| ==> before[i] == events[i] && before[..i] == events[..i];
      OwningRunsStayFaithful(before);
      EveryRun(before);
      NextOwn(RunOf(before), events[|events| - 1]);
    }
  }

  lemma StartOwned()
    ensures Owned(START) && BookedPrefix(START.ledger.deposits, START.rows)
  {
    assert PrefixAt([], Matters(), Booked([]), 0);
  }

  /** When the source owns its hashes, each row at or below the cursor has exactly one deposit, with
      the row's user and amount, COMPLETED. */
  lemma EachRowBookedOnce(events: seq<Event>, i: nat)
    requires OwningRun(events) && i < DoneOf(RunOf(events)) && Supported(RunOf(events).rows[i])
    ensures var (deposits, r) := (RunOf(events).ledger.deposits, RunOf(events).rows[i]);
      exists k :: 0 <= k < |deposits| && Matches(deposits[k], r) && deposits[k].status == DepositCompleted
                  && forall l :: 0 <= l < |deposits| && deposits[l].txHash == r.txHash ==> l == k
  {
    hide RunOf, Done, Supported;
    EveryRun(events);
    OwningRunsStayFaithful(events);
    var (deposits, r) := (RunOf(events).ledger.deposits, RunOf(events).rows[i]);
    var k :| 0 <= k < |deposits| && deposits[k].txHash == r.txHash && deposits[k].status == DepositCompleted;
    assert Matches(deposits[k], r);
  }

  /** Event n, when it is an arrival, comes in order. */
  ghost predicate InOrderAt(events: seq<Event>, n: nat)
    requires n < |events|
  {
    events[n].SourceGrows? ==> ArrivesInOrder(RunOf(events[..n]), events[n].rows)
  }

  ghost predicate PrefixAfter(events: seq<Event>, n: nat)
    requires n <= |events|
  {
    var w := RunOf(events[..n]); BookedPrefix(w.ledger.deposits, w.rows)
  }

  /** When the source owns its hashes, the booked rows are a prefix of the table after every step of a
      run if and only if every arrival in the run comes in order. */
  lemma EveryRunBooksPrefix(events: seq<Event>)
    requires OwningRun(events)
    ensures (forall n :: 0 <= n <= |events| ==> PrefixAfter(events, n)) <==>
            (forall n :: 0 <= n < |events| ==> InOrderAt(events, n))
  {
    hide OwningRun, PrefixAfter, InOrderAt;
    StartIsPrefix(events);
    var after := (n: nat) => n <= |events| && PrefixAfter(events, n);
    var inOrder := (n: nat) => n < |events| && InOrderAt(events, n);
    forall n: nat | n < |events| && after(n) ensures after(n + 1) <==> inOrder(n) {
      PrefixStep(events, n);
    }
    KeptThroughout(after, inOrder, |events|);
    assert forall n :: 0 <= n <= |events| ==> (PrefixAfter(events, n) <==> after(n));
    assert forall n :: 0 <= n < |events| ==> (InOrderAt(events, n) <==> inOrder(n));
  }

  lemma StartIsPrefix(events: seq<Event>)
    ensures PrefixAfter(events, 0)
  {
    hide BookedPrefix;
    StartOwned();
    assert events[..0] == [];
  }

  lemma PrefixStep(events: seq<Event>, n: nat)
    requires OwningRun(events) && n < |events|
    ensures PrefixAfter(events, n) ==> (PrefixAfter(events, n + 1) <==> InOrderAt(events, n))
  {
    hide Next, Inv, Owned, Legal, OwnsHashes, BookedPrefix, ArrivesInOrder;
    var before := events[..n];
    assert events[..n + 1][..n] == before;
    assert forall i :: 0 <= i < n ==> before[i] == events[i] && before[..i] == events[..i];
    EveryRun(before);
    OwningRunsStayFaithful(before);
    NextOwn(RunOf(before), events[n]);
  }

  /** When two rows share a hash, the later one is taken for a duplicate: the cursor passes it, the
      sync reports no failure, and its money is booked if and only if it is the money of the first. */
  lemma SharedHashBooksFirstRowOnly(m: M.Memory, first: Row, second: Row, now: Instant, later: Instant)
    requires OneDepositPerHash(m.deposits) && !HasHash(m.deposits, first.txHash)
    requires first.txHash == second.txHash && Supported(first) && Supported(second)
    ensures var (m1, ok1) := Process(m, first, NoFault, now);
            var (m2, ok2) := Process(m1, second, NoFault, later);
      && ok1 && ok2 && m2.accounts == m1.accounts && m2.deposits == m1.deposits
      && ((exists k :: 0 <= k < |m2.deposits| && Matches(m2.deposits[k], second)) <==>
            first.userId == second.userId && first.amount == second.amount)
  {
    hide Supported, AccountOf, Adjust;
    ProcessEffect(m, first, NoFault, now);
    var m1 := Process(m, first, NoFault, now).0;
    assert m1.deposits[|m.deposits|].txHash == second.txHash;
    ProcessEffect(m1, second, NoFault, later);
    var m2 := Process(m1, second, NoFault, later).0;
    assert m2.deposits == m1.deposits;
    assert Matches(m2.deposits[|m.deposits|], first);
  }
}
