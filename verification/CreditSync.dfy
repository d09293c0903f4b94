/** The balance-credit sync: one ledger credit for each row of a foreign table, read through a
    cursor, over runs with failing rows, crashes, late rows and other ledger traffic. */
module CreditSync {
  import opened Domain
  import opened Sums
  import opened CursorPaging
  import Text
  import M = MemorySpec
  import InMemoryLedger

  // ---------- The source table ----------

  /** `amount` is the row's amount in units, after the query's rounding to six decimals. */
  datatype Row = Row(key: Cursor, userId: UserId, currency: string, amount: nat)

  function KeyOf(): Row -> Cursor {
    (r: Row) => r.key
  }

  predicate Supported(r: Row) {
    Text.NormalizeCode(r.currency) == "KORI"
  }

  function RefOf(source: string, r: Row): Reference {
    Reference(RefOther(source), Uuid(r.key.id))
  }

  // ---------- One candidate ----------

  /** What goes wrong around a candidate's ledger call: nothing, or an exception before or after the
      credit was booked. */
  datatype Fault = NoFault | BeforeCall | AfterCall

  /** The ledger after a candidate, and whether the loop goes on. */
  function Process(m: M.Memory, source: string, r: Row, fault: Fault): (M.Memory, bool) {
    if !Supported(r) then (m, true)
    else if fault == BeforeCall then (m, false)
    else
      var (m', reply) := M.ApplyCredit(m, r.userId, r.amount, RefOf(source, r), r.key.at);
      (m', !reply.Refused? && fault == NoFault)
  }

  function StepOf(source: string, faults: Row -> Fault): (M.Memory, Row) -> (M.Memory, bool) {
    (m: M.Memory, r: Row) => Process(m, source, r, faults(r))
  }

  type SyncWorld = World<M.Memory, Row>

  function CycleOf(w: SyncWorld, source: string, limit: nat, faults: Row -> Fault, ending: Ending): SyncWorld {
    Cycle(w, KeyOf(), limit, StepOf(source, faults), ending)
  }

  // ---------- The cycle as it runs ----------

  class SyncService {
    const ledger: InMemoryLedger.Ledger
    const source: string
    var cursor: Option<Cursor>

    constructor (ledger: InMemoryLedger.Ledger, source: string)
      ensures this.ledger == ledger && this.source == source && cursor == None
    {
      this.ledger, this.source, cursor := ledger, source, None;
    }

    /** The body of the loop's try block. */
    method ApplyCandidate(candidate: Row, fault: Fault) returns (outcome: Outcome)
      modifies ledger
      ensures Process(old(ledger.State()), source, candidate, fault) == (ledger.State(), outcome != CandidateFailed)
    {
      if !Supported(candidate) {
        return Skipped;
      }
      if fault == BeforeCall {
        return CandidateFailed;
      }
      var applied :=
        ledger.ApplyExternalCredit(candidate.userId, candidate.amount, RefOf(source, candidate), candidate.key.at);
      if applied.Refused? || fault == AfterCall {
        return CandidateFailed;
      }
      outcome := if applied.duplicated then Duplicated else Synced;
    }

    method RunCycle(rows: seq<Row>, limit: nat, faults: Row -> Fault, ending: Ending) returns (counts: Counts)
      modifies this`cursor, ledger
      ensures World(rows, ledger.State(), cursor) ==
              CycleOf(World(rows, old(ledger.State()), old(cursor)), source, limit, faults, ending)
      ensures counts.checked == counts.synced + counts.duplicated + counts.skipped + counts.failed
      ensures counts.failed <= 1
      ensures counts.cursorAdvanced <==> ending.Completes? && counts.checked > counts.failed
    {
      hide Process, Loop;
      var candidates := Candidates(rows, KeyOf(), cursor, limit);
      ghost var start := ledger.State();
      ghost var step := StepOf(source, faults);
      ghost var reached := Reached(World(rows, start, cursor), KeyOf(), limit, ending);
      hide Candidates, Done;
      LoopNone(start, step);
      counts := Counts(0, 0, 0, 0, 0, false);
      var lastProcessed: Option<Cursor> := None;
      var i := 0;
      while i < |candidates|
        invariant i <= |reached| && i == counts.checked
        invariant Loop(start, reached[..i], step) == (ledger.State(), i)
        invariant lastProcessed == if i == 0 then None else Some(reached[i - 1].key)
        invariant counts.failed == 0 && !counts.cursorAdvanced
        invariant counts.checked == counts.synced + counts.duplicated + counts.skipped
        invariant cursor == old(cursor)
      {
        if ending.Crashes? && ending.at <= i {
          assert reached[..i] == reached;
          return;
        }
        var candidate := candidates[i];
        assert candidate == reached[i];
        LoopNext(start, reached, step, i);
        counts := counts.(checked := counts.checked + 1);
        var outcome := ApplyCandidate(candidate, faults(candidate));
        match outcome {
          case Skipped => counts := counts.(skipped := counts.skipped + 1);
          case Duplicated => counts := counts.(duplicated := counts.duplicated + 1);
          case Synced => counts := counts.(synced := counts.synced + 1);
          case CandidateFailed =>
            counts := counts.(failed := 1);
            StopsThere(start, reached, step, i);
            break;
        }
        lastProcessed := Some(candidate.key);
        i := i + 1;
      }
      if i == |candidates| {
        assert reached[..|reached|] == reached;
      }
      if ending.Crashes? {
        return;
      }
      if lastProcessed.Some? {
        cursor := lastProcessed;
        counts := counts.(cursorAdvanced := true);
      }
    }
  }

  // ---------- Rows and credits ----------

  predicate CreditedAs(c: ExternalCredit, source: string, r: Row) {
    c == ExternalCredit(r.userId, r.amount, RefOf(source, r), r.key.at)
  }

  ghost predicate IsCredited(credits: seq<ExternalCredit>, source: string, r: Row) {
    exists i :: 0 <= i < |credits| && CreditedAs(credits[i], source, r)
  }

  ghost predicate OneCreditPerReference(credits: seq<ExternalCredit>) {
    && (forall i :: 0 <= i < |credits| ==> credits[i].amount > 0)
    && (forall i, j :: 0 <= i < j < |credits| ==> credits[i].reference != credits[j].reference)
  }

  ghost predicate HasRow(rows: seq<Row>, source: string, c: ExternalCredit) {
    exists j :: 0 <= j < |rows| && Supported(rows[j]) && CreditedAs(c, source, rows[j])
  }

  /** Every credit of the source is the credit of a row. */
  ghost predicate FromTable(credits: seq<ExternalCredit>, source: string, rows: seq<Row>) {
    forall i :: 0 <= i < |credits| && credits[i].reference.refType == RefOther(source) ==>
      HasRow(rows, source, credits[i])
  }

  /** The first n rows are credited, those in another currency aside. */
  ghost predicate CreditedBelow(credits: seq<ExternalCredit>, source: string, rows: seq<Row>, n: nat) {
    forall i :: 0 <= i < n && i < |rows| && Supported(rows[i]) ==> IsCredited(credits, source, rows[i])
  }

  ghost predicate Books(credits: seq<ExternalCredit>, source: string, rows: seq<Row>, n: nat) {
    && OneCreditPerReference(credits)
    && FromTable(credits, source, rows)
    && CreditedBelow(credits, source, rows, n)
  }

  function Matters(): Row -> bool {
    (r: Row) => Supported(r)
  }

  ghost function Credited(credits: seq<ExternalCredit>, source: string): Row -> bool {
    (r: Row) => IsCredited(credits, source, r)
  }

  /** The credited rows are a prefix of the table, those in another currency aside. */
  ghost predicate CreditedPrefix(credits: seq<ExternalCredit>, source: string, rows: seq<Row>) {
    IsPrefix(rows, Matters(), Credited(credits, source))
  }

  lemma AppendCredits(credits: seq<ExternalCredit>, c: ExternalCredit, source: string, r: Row)
    ensures IsCredited(credits + [c], source, r) <==> IsCredited(credits, source, r) || CreditedAs(c, source, r)
  {
    var all := credits + [c];
    if IsCredited(credits, source, r) {
      var i :| 0 <= i < |credits| && CreditedAs(credits[i], source, r);
      assert CreditedAs(all[i], source, r);
    }
    if CreditedAs(c, source, r) {
      assert CreditedAs(all[|credits|], source, r);
    }
  }

  /** What a candidate can do to the credits: nothing, or the row's own first credit. */
  lemma ProcessEffect(m: M.Memory, source: string, rows: seq<Row>, i: nat, fault: Fault)
    requires IsTable(rows, KeyOf()) && i < |rows| && Books(m.credits, source, rows, i)
    ensures var (m', ok) := Process(m, source, rows[i], fault);
      && (m'.credits == m.credits
          || (Supported(rows[i]) && rows[i].amount > 0 && !IsCredited(m.credits, source, rows[i])
              && m'.credits == m.credits + [ExternalCredit(rows[i].userId, rows[i].amount, RefOf(source, rows[i]),
                                                           rows[i].key.at)]
              && forall k :: 0 <= k < |m.credits| ==> m.credits[k].reference != RefOf(source, rows[i])))
      && (ok && Supported(rows[i]) ==> IsCredited(m'.credits, source, rows[i]))
      && (ok <==> !Supported(rows[i]) || (rows[i].amount > 0 && fault == NoFault))
  {
    var r := rows[i];
    var (m', ok) := Process(m, source, r, fault);
    if Supported(r) && fault != BeforeCall && r.amount > 0 {
      var existing := IndexWhere(m.credits, CreditRefersTo(RefOf(source, r)));
      if existing.Some? {
        assert HasRow(rows, source, m.credits[existing.value]);
        var j :| 0 <= j < |rows| && Supported(rows[j]) && CreditedAs(m.credits[existing.value], source, rows[j]);
        assert KeyOf()(rows[j]).id == KeyOf()(r).id;
        assert j == i;
      } else {
        assert CreditedAs(m'.credits[|m.credits|], source, r);
      }
    }
  }

  lemma ProcessKeeps(m: M.Memory, source: string, rows: seq<Row>, i: nat, fault: Fault)
    requires IsTable(rows, KeyOf()) && i < |rows| && Books(m.credits, source, rows, i)
    ensures var (m', ok) := Process(m, source, rows[i], fault);
      && Books(m'.credits, source, rows, if ok then i + 1 else i)
      && (CreditedPrefix(m.credits, source, rows) ==> CreditedPrefix(m'.credits, source, rows))
  {
    hide Process, Supported;
    ProcessEffect(m, source, rows, i, fault);
    var m' := Process(m, source, rows[i], fault).0;
    if m'.credits != m.credits {
      var c := m'.credits[|m.credits|];
      assert CreditedAs(c, source, rows[i]);
      forall j | 0 <= j < |rows|
        ensures IsCredited(m'.credits, source, rows[j]) <==> IsCredited(m.credits, source, rows[j]) || j == i
      {
        AppendCredits(m.credits, c, source, rows[j]);
        assert KeyOf()(rows[j]).id == KeyOf()(rows[i]).id ==> j == i;
      }
      forall k | 0 <= k < |m'.credits| && m'.credits[k].reference.refType == RefOther(source)
        ensures HasRow(rows, source, m'.credits[k])
      {
        assert k < |m.credits| ==> m'.credits[k] == m.credits[k];
      }
      if CreditedPrefix(m.credits, source, rows) {
        PrefixGrows(rows, Matters(), Credited(m.credits, source), Credited(m'.credits, source), i);
      }
    }
  }

  lemma {:induction false} LoopKeeps(m: M.Memory, source: string, rows: seq<Row>, lo: nat, k: nat, faults: Row -> Fault)
    requires IsTable(rows, KeyOf()) && lo + k <= |rows| && Books(m.credits, source, rows, lo)
    ensures var (m', n) := Loop(m, rows[lo..lo + k], StepOf(source, faults));
      && Books(m'.credits, source, rows, lo + n)
      && (CreditedPrefix(m.credits, source, rows) ==> CreditedPrefix(m'.credits, source, rows))
  {
    hide Process, Books, CreditedPrefix, IsTable;
    if k > 0 {
      LoopKeeps(m, source, rows, lo, k - 1, faults);
      var slice := rows[lo..lo + k];
      assert slice[..k - 1] == rows[lo..lo + k - 1];
      var (m1, n) := Loop(m, slice[..k - 1], StepOf(source, faults));
      if n == k - 1 {
        ProcessKeeps(m1, source, rows, lo + n, faults(rows[lo + n]));
      }
    }
  }

  /** A candidate leaves the other rows as they are. */
  lemma ProcessSpares(m: M.Memory, source: string, rows: seq<Row>, i: nat, fault: Fault, j: nat)
    requires IsTable(rows, KeyOf()) && i < |rows| && Books(m.credits, source, rows, i) && j < |rows| && j != i
    ensures IsCredited(Process(m, source, rows[i], fault).0.credits, source, rows[j]) <==>
            IsCredited(m.credits, source, rows[j])
  {
    hide Process, Supported, FromTable, CreditedBelow, OneCreditPerReference;
    ProcessEffect(m, source, rows, i, fault);
    var m' := Process(m, source, rows[i], fault).0;
    if m'.credits != m.credits {
      AppendCredits(m.credits, m'.credits[|m.credits|], source, rows[j]);
      assert KeyOf()(rows[j]).id != KeyOf()(rows[i]).id;
    }
  }

  /** And a cycle leaves the rows after its page as they are. */
  lemma {:induction false} LoopSpares(m: M.Memory, source: string, rows: seq<Row>, lo: nat, k: nat,
                                      faults: Row -> Fault, j: nat)
    requires IsTable(rows, KeyOf()) && lo + k <= j < |rows| && Books(m.credits, source, rows, lo)
    ensures IsCredited(Loop(m, rows[lo..lo + k], StepOf(source, faults)).0.credits, source, rows[j]) <==>
            IsCredited(m.credits, source, rows[j])
  {
    hide Process, Books, IsTable, IsCredited;
    if k > 0 {
      LoopSpares(m, source, rows, lo, k - 1, faults, j);
      LoopKeeps(m, source, rows, lo, k - 1, faults);
      var slice := rows[lo..lo + k];
      assert slice[..k - 1] == rows[lo..lo + k - 1];
      var (m1, n) := Loop(m, slice[..k - 1], StepOf(source, faults));
      if n == k - 1 {
        ProcessSpares(m1, source, rows, lo + n, faults(rows[lo + n]), j);
      }
    }
  }

  // ---------- Runs ----------

  datatype Event =
    | SyncCycle(limit: nat, faults: Row -> Fault, ending: Ending)
    | SourceGrows(rows: seq<Row>)
    | LedgerCall(limits: Limits, call: M.MemoryOp)
    | CursorSlips(back: Option<Cursor>)

  /** New rows lie after the cursor, which its store may hand back earlier than it was saved; nobody else
      credits this source's references. */
  ghost predicate Legal(w: SyncWorld, source: string, e: Event) {
    match e
    case SyncCycle(_, _, _) => true
    case SourceGrows(rows) => Arrival(w.rows, rows, KeyOf(), w.cursor)
    case LedgerCall(_, call) =>
      call.Ledger? && call.op.CreditOp? ==> call.op.reference.refType != RefOther(source)
    case CursorSlips(back) => NotLater(back, w.cursor)
  }

  function Next(w: SyncWorld, source: string, e: Event): SyncWorld {
    match e
    case SyncCycle(limit, faults, ending) => CycleOf(w, source, limit, faults, ending)
    case SourceGrows(rows) => w.(rows := rows)
    case LedgerCall(limits, call) => w.(ledger := M.Step(w.ledger, limits, call))
    case CursorSlips(back) => w.(cursor := back)
  }

  const START: SyncWorld := World([], M.EMPTY, None)

  function RunOf(source: string, events: seq<Event>): SyncWorld {
    if events == [] then START else Next(RunOf(source, events[..|events| - 1]), source, events[|events| - 1])
  }

  ghost predicate LegalRun(source: string, events: seq<Event>) {
    forall i :: 0 <= i < |events| ==> Legal(RunOf(source, events[..i]), source, events[i])
  }

  function DoneOf(w: SyncWorld): (n: nat)
    ensures n <= |w.rows|
  {
    Done(w.rows, KeyOf(), w.cursor)
  }

  /** At or below the cursor everything is credited, with its user, amount and time; nothing else
      bears the source's name, and nothing is credited twice. */
  ghost predicate Inv(w: SyncWorld, source: string) {
    && IsTable(w.rows, KeyOf())
    && Books(w.ledger.credits, source, w.rows, DoneOf(w))
  }

  lemma CycleKeeps(w: SyncWorld, source: string, limit: nat, faults: Row -> Fault, ending: Ending)
    requires Inv(w, source)
    ensures var w' := CycleOf(w, source, limit, faults, ending);
      && Inv(w', source)
      && (CreditedPrefix(w.ledger.credits, source, w.rows) ==> CreditedPrefix(w'.ledger.credits, source, w'.rows))
  {
    hide Loop, Process, Done, CreditedPrefix, IsTable, OneCreditPerReference, FromTable, Reached;
    var d := DoneOf(w);
    var reached := Reached(w, KeyOf(), limit, ending);
    ReachedIsSlice(w, KeyOf(), limit, ending);
    LoopKeeps(w.ledger, source, w.rows, d, |reached|, faults);
    CycleMovesCursor(w, KeyOf(), limit, StepOf(source, faults), ending);
  }

  lemma GrowthKeeps(w: SyncWorld, source: string, rows: seq<Row>)
    requires Inv(w, source) && Arrival(w.rows, rows, KeyOf(), w.cursor)
    ensures Inv(w.(rows := rows), source)
  {
    hide Done;
    var credits := w.ledger.credits;
    ArrivalKeepsDone(w.rows, rows, KeyOf(), w.cursor);
    forall i | 0 <= i < |credits| && credits[i].reference.refType == RefOther(source)
      ensures HasRow(rows, source, credits[i])
    {
      assert HasRow(w.rows, source, credits[i]);
    }
  }

  /** Any other call leaves the credits alone, or adds one with a new reference and amount above zero. */
  lemma CallEffect(m: M.Memory, limits: Limits, call: M.MemoryOp)
    ensures var credits := M.Step(m, limits, call).credits;
      || credits == m.credits
      || (call.Ledger? && call.op.CreditOp?
          && |credits| == |m.credits| + 1 && credits[..|m.credits|] == m.credits
          && credits[|m.credits|].reference == call.op.reference && credits[|m.credits|].amount > 0
          && forall k :: 0 <= k < |m.credits| ==> m.credits[k].reference != call.op.reference)
  {
    hide WithAuth, WithApproval, WithBroadcast, WithConfirmation, WithFailure, NewWithdrawal, TransferTxs, AccountOf,
         Adjust, Touch, DailyRequested, IndexWhere, M.Moved, M.ApprovalsOf, M.HasApproved;
    if call.Ledger? && !call.op.CreditOp? {
      OtherCallsAddNoCredit(m, limits, call.op);
    }
  }

  lemma OtherCallsAddNoCredit(m: M.Memory, limits: Limits, op: Op)
    requires !op.CreditOp?
    ensures M.LedgerStep(m, limits, op).0.credits == m.credits
  {
    hide WithAuth, WithApproval, WithBroadcast, WithConfirmation, WithFailure, NewWithdrawal, TransferTxs, AccountOf,
         Adjust, Touch, DailyRequested, IndexWhere, M.ApprovalsOf, M.HasApproved;
  }

  lemma CallKeeps(w: SyncWorld, source: string, limits: Limits, call: M.MemoryOp)
    requires Inv(w, source) && Legal(w, source, LedgerCall(limits, call))
    ensures Inv(Next(w, source, LedgerCall(limits, call)), source)
    ensures forall i :: 0 <= i < |w.rows| ==>
      (IsCredited(w.ledger.credits, source, w.rows[i]) <==>
       IsCredited(M.Step(w.ledger, limits, call).credits, source, w.rows[i]))
  {
    hide M.Step, Done, IsTable, Supported;
    CallEffect(w.ledger, limits, call);
    var before := w.ledger.credits;
    var after := M.Step(w.ledger, limits, call).credits;
    if after != before {
      var c := after[|before|];
      assert after == before + [c];
      forall i | 0 <= i < |w.rows|
        ensures IsCredited(before, source, w.rows[i]) <==> IsCredited(after, source, w.rows[i])
      {
        AppendCredits(before, c, source, w.rows[i]);
      }
    }
  }

  lemma StartHolds(source: string)
    ensures Inv(START, source)
  {
  }

  lemma {:induction false} EveryRun(source: string, events: seq<Event>)
    requires LegalRun(source, events)
    ensures Inv(RunOf(source, events), source)
  {
    hide Next, Inv;
    if events == [] {
      StartHolds(source);
    } else {
      var before := events[..|events| - 1];
      assert forall i :: 0 <= i < |before| ==> before[i] == events[i] && before[..i] == events[..i];
      EveryRun(source, before);
      NextKeeps(RunOf(source, before), source, events[|events| - 1]);
    }
  }

  lemma NextKeeps(w: SyncWorld, source: string, e: Event)
    requires Inv(w, source) && Legal(w, source, e)
    ensures Inv(Next(w, source, e), source)
  {
    hide Inv;
    match e
    case SyncCycle(limit, faults, ending) => CycleKeeps(w, source, limit, faults, ending);
    case SourceGrows(rows) => GrowthKeeps(w, source, rows);
    case LedgerCall(limits, call) => CallKeeps(w, source, limits, call);
    case CursorSlips(back) => SlipKeeps(w, source, back);
  }

  lemma SlipKeeps(w: SyncWorld, source: string, back: Option<Cursor>)
    requires Inv(w, source) && NotLater(back, w.cursor)
    ensures Inv(w.(cursor := back), source)
  {
    hide Done, IsTable, OneCreditPerReference, FromTable, Supported, IsCredited, NotLater;
    SlipLowersDone(w.rows, KeyOf(), back, w.cursor);
  }

  /** In any legal run only a slip of its store moves the cursor back. */
  lemma CursorNeverGoesBack(source: string, events: seq<Event>, e: Event)
    requires LegalRun(source, events) && Legal(RunOf(source, events), source, e)
    ensures var w := RunOf(source, events);
            var w' := Next(w, source, e);
            e.CursorSlips? || w'.cursor == w.cursor || (w'.cursor.Some? && Later(w'.cursor.value, w.cursor))
  {
    hide RunOf, Process, Loop, Done, Reached, M.Step;
    EveryRun(source, events);
    if e.SyncCycle? {
      CycleMovesCursor(RunOf(source, events), KeyOf(), e.limit, StepOf(source, e.faults), e.ending);
    }
  }

  // ---------- Credited rows form a prefix ----------

  /** New rows come after every credited one, not just after the cursor. */
  ghost predicate ArrivesInOrder(w: SyncWorld, source: string, rows: seq<Row>) {
    InOrder(w.rows, rows, KeyOf(), Matters(), Credited(w.ledger.credits, source))
  }

  lemma LateRowsBreakPrefixExactly(w: SyncWorld, source: string, rows: seq<Row>)
    requires Inv(w, source) && Arrival(w.rows, rows, KeyOf(), w.cursor)
    requires CreditedPrefix(w.ledger.credits, source, w.rows)
    ensures CreditedPrefix(w.ledger.credits, source, rows) <==> ArrivesInOrder(w, source, rows)
  {
    hide Done, Supported, InOrder, IsPrefix, Books, IsCredited, Arrival;
    forall i | 0 <= i < |rows| && Matters()(rows[i]) && Credited(w.ledger.credits, source)(rows[i])
      ensures rows[i] in w.rows
    {
      CreditedWasThere(w, source, rows, i);
    }
    GrowthKeepsPrefixExactly(w.rows, rows, KeyOf(), w.cursor, Matters(), Credited(w.ledger.credits, source));
  }

  /** A credited row was in the table when it was credited. */
  lemma CreditedWasThere(w: SyncWorld, source: string, rows: seq<Row>, i: nat)
    requires Inv(w, source) && Arrival(w.rows, rows, KeyOf(), w.cursor)
    requires i < |rows| && IsCredited(w.ledger.credits, source, rows[i])
    ensures rows[i] in w.rows
  {
    hide Done, Supported;
    var credits := w.ledger.credits;
    var k :| 0 <= k < |credits| && CreditedAs(credits[k], source, rows[i]);
    assert HasRow(w.rows, source, credits[k]);
    var j :| 0 <= j < |w.rows| && Supported(w.rows[j]) && CreditedAs(credits[k], source, w.rows[j]);
    assert w.rows[j] in rows;
    var l :| 0 <= l < |rows| && rows[l] == w.rows[j];
    assert KeyOf()(rows[l]).id == KeyOf()(rows[i]).id;
  }

  /** Event n, when it is an arrival, comes in order. */
  ghost predicate InOrderAt(source: string, events: seq<Event>, n: nat)
    requires n < |events|
  {
    events[n].SourceGrows? ==> ArrivesInOrder(RunOf(source, events[..n]), source, events[n].rows)
  }

  ghost predicate PrefixAfter(source: string, events: seq<Event>, n: nat)
    requires n <= |events|
  {
    var w := RunOf(source, events[..n]); CreditedPrefix(w.ledger.credits, source, w.rows)
  }

  /** The credited rows are a prefix of the table after every step of a run if and only if every
      arrival in the run comes in order. */
  lemma EveryRunCreditsPrefix(source: string, events: seq<Event>)
    requires LegalRun(source, events)
    ensures (forall n :: 0 <= n <= |events| ==> PrefixAfter(source, events, n)) <==>
            (forall n :: 0 <= n < |events| ==> InOrderAt(source, events, n))
  {
    hide LegalRun, PrefixAfter, InOrderAt;
    StartIsPrefix(source, events);
    var after := (n: nat) => n <= |events| && PrefixAfter(source, events, n);
    var inOrder := (n: nat) => n < |events| && InOrderAt(source, events, n);
    forall n: nat | n < |events| && after(n) ensures after(n + 1) <==> inOrder(n) {
      PrefixStep(source, events, n);
    }
    KeptThroughout(after, inOrder, |events|);
    assert forall n :: 0 <= n <= |events| ==> (PrefixAfter(source, events, n) <==> after(n));
    assert forall n :: 0 <= n < |events| ==> (InOrderAt(source, events, n) <==> inOrder(n));
  }

  lemma PrefixStep(source: string, events: seq<Event>, n: nat)
    requires LegalRun(source, events) && n < |events|
    ensures PrefixAfter(source, events, n) ==>
              (PrefixAfter(source, events, n + 1) <==> InOrderAt(source, events, n))
  {
    hide Next, Inv, CreditedPrefix, Legal, ArrivesInOrder;
    var before := events[..n];
    assert events[..n + 1][..n] == before;
    assert forall i :: 0 <= i < n ==> before[i] == events[i] && before[..i] == events[..i];
    EveryRun(source, before);
    if PrefixAfter(source, events, n) {
      NextKeepsPrefixExactly(RunOf(source, before), source, events[n]);
    }
  }

  lemma StartIsPrefix(source: string, events: seq<Event>)
    ensures PrefixAfter(source, events, 0)
  {
    assert events[..0] == [];
    assert PrefixAt([], Matters(), Credited([], source), 0);
  }

  lemma NextKeepsPrefixExactly(w: SyncWorld, source: string, e: Event)
    requires Inv(w, source) && Legal(w, source, e) && CreditedPrefix(w.ledger.credits, source, w.rows)
    ensures var w' := Next(w, source, e);
            CreditedPrefix(w'.ledger.credits, source, w'.rows) <==>
            (e.SourceGrows? ==> ArrivesInOrder(w, source, e.rows))
  {
    hide Inv, ArrivesInOrder, M.Step;
    match e
    case SyncCycle(limit, faults, ending) => CycleKeeps(w, source, limit, faults, ending);
    case SourceGrows(rows) => LateRowsBreakPrefixExactly(w, source, rows);
    case LedgerCall(limits, call) =>
      CallKeeps(w, source, limits, call);
      var p: nat :| PrefixAt(w.rows, Matters(), Credited(w.ledger.credits, source), p);
      assert PrefixAt(w.rows, Matters(), Credited(M.Step(w.ledger, limits, call).credits, source), p);
    case CursorSlips(back) =>
  }

  // ---------- Draining, and the row that stops it ----------

  /** A supported row whose amount is zero units: the ledger refuses it, in every cycle. The query
      asks for amounts above zero before it rounds them to six decimals. */
  predicate Blocks(r: Row) {
    Supported(r) && r.amount == 0
  }

  function FirstBlocked(rows: seq<Row>, from: nat): (n: nat)
    requires from <= |rows|
    ensures from <= n <= |rows| && (n < |rows| ==> Blocks(rows[n]))
    ensures forall i :: from <= i < n ==> !Blocks(rows[i])
    decreases |rows| - from
  {
    if from == |rows| || Blocks(rows[from]) then from else FirstBlocked(rows, from + 1)
  }

  function NoFaults(): Row -> Fault {
    (r: Row) => NoFault
  }

  function CleanCycle(w: SyncWorld, source: string, limit: nat): SyncWorld {
    CycleOf(w, source, limit, NoFaults(), Completes)
  }

  function CleanCycles(w: SyncWorld, source: string, limit: nat, count: nat): SyncWorld {
    if count == 0 then w else CleanCycle(CleanCycles(w, source, limit, count - 1), source, limit)
  }

  function Min(a: nat, b: nat): nat {
    if a <= b then a else b
  }

  lemma {:induction false} CleanLoop(m: M.Memory, source: string, rows: seq<Row>, lo: nat, k: nat)
    requires IsTable(rows, KeyOf()) && lo + k <= |rows| && Books(m.credits, source, rows, lo)
    ensures lo + Loop(m, rows[lo..lo + k], StepOf(source, NoFaults())).1 == Min(lo + k, FirstBlocked(rows, lo))
  {
    hide Process, Books, IsTable, FirstBlocked, Blocks;
    if k > 0 {
      CleanLoop(m, source, rows, lo, k - 1);
      LoopKeeps(m, source, rows, lo, k - 1, NoFaults());
      var slice := rows[lo..lo + k];
      assert slice[..k - 1] == rows[lo..lo + k - 1];
      var (m1, n) := Loop(m, slice[..k - 1], StepOf(source, NoFaults()));
      if n == k - 1 {
        CleanStep(m1, source, rows, lo, lo + n);
      }
    }
  }

  /** A clean candidate fails exactly when it is the first blocking row. */
  lemma CleanStep(m: M.Memory, source: string, rows: seq<Row>, lo: nat, i: nat)
    requires IsTable(rows, KeyOf()) && lo <= i < |rows| && Books(m.credits, source, rows, i)
    requires i <= FirstBlocked(rows, lo)
    ensures Process(m, source, rows[i], NoFault).1 <==> i < FirstBlocked(rows, lo)
  {
    hide Process, OneCreditPerReference, FromTable, CreditedBelow, IsTable, IsCredited;
    ProcessEffect(m, source, rows, i, NoFault);
  }

  /** A failure-free cycle moves on by `limit` rows, or up to the end, or up to a blocking row. */
  lemma CleanCycleProgress(w: SyncWorld, source: string, limit: nat)
    requires Inv(w, source)
    ensures var w' := CleanCycle(w, source, limit);
      && Inv(w', source) && w'.rows == w.rows
      && DoneOf(w') == Min(DoneOf(w) + limit, FirstBlocked(w.rows, DoneOf(w)))
  {
    hide Loop, Process, Done, IsTable, Books, Reached;
    var reached := Reached(w, KeyOf(), limit, Completes);
    ReachedIsSlice(w, KeyOf(), limit, Completes);
    CleanLoop(w.ledger, source, w.rows, DoneOf(w), |reached|);
    CycleMovesCursor(w, KeyOf(), limit, StepOf(source, NoFaults()), Completes);
    CycleKeeps(w, source, limit, NoFaults(), Completes);
  }

  lemma {:induction false} CleanCyclesProgress(w: SyncWorld, source: string, limit: nat, count: nat)
    requires Inv(w, source)
    ensures var w' := CleanCycles(w, source, limit, count);
      && Inv(w', source) && w'.rows == w.rows
      && DoneOf(w') == Min(DoneOf(w) + count * limit, FirstBlocked(w.rows, DoneOf(w)))
  {
    hide Inv, Done, CycleOf, FirstBlocked, Blocks;
    if count > 0 {
      CleanCyclesProgress(w, source, limit, count - 1);
      var before := CleanCycles(w, source, limit, count - 1);
      CleanCycleProgress(before, source, limit);
      OneMore(count, limit);
      SameFirstBlocked(w.rows, DoneOf(w), DoneOf(before));
    }
  }

  lemma SameFirstBlocked(rows: seq<Row>, from: nat, to: nat)
    requires from <= |rows| && from <= to <= FirstBlocked(rows, from)
    ensures FirstBlocked(rows, to) == FirstBlocked(rows, from)
  {
    hide Blocks;
  }

  /** Failure-free cycles drain the source if and only if no row above the cursor blocks. */
  lemma DrainsExactly(source: string, events: seq<Event>, limit: nat)
    requires LegalRun(source, events) && limit > 0
    ensures var w := RunOf(source, events);
      (exists n: nat :: DoneOf(CleanCycles(w, source, limit, n)) == |w.rows|) <==>
      (forall i :: DoneOf(w) <= i < |w.rows| ==> !Blocks(w.rows[i]))
  {
    hide RunOf, Done, Inv, Supported, CleanCycles, FirstBlocked;
    var w := RunOf(source, events);
    EveryRun(source, events);
    var d := DoneOf(w);
    if forall i :: d <= i < |w.rows| ==> !Blocks(w.rows[i]) {
      CleanCyclesProgress(w, source, limit, |w.rows|);
      AtLeast(|w.rows|, limit);
      assert DoneOf(CleanCycles(w, source, limit, |w.rows|)) == |w.rows|;
    }
    if n: nat :| DoneOf(CleanCycles(w, source, limit, n)) == |w.rows| {
      CleanCyclesProgress(w, source, limit, n);
    }
  }

  /** No run ever gets past a blocking row, nor credits it. */
  lemma BlockedForever(source: string, events: seq<Event>, i: nat)
    requires LegalRun(source, events)
    requires var w := RunOf(source, events); i < |w.rows| && Blocks(w.rows[i])
    ensures var w := RunOf(source, events);
            DoneOf(w) <= i && !IsCredited(w.ledger.credits, source, w.rows[i])
  {
    hide RunOf, Done, Supported;
    EveryRun(source, events);
    var w := RunOf(source, events);
    if IsCredited(w.ledger.credits, source, w.rows[i]) {
      CreditedIsPositive(w.ledger.credits, source, w.rows[i]);
    }
  }

  lemma CreditedIsPositive(credits: seq<ExternalCredit>, source: string, r: Row)
    requires OneCreditPerReference(credits) && IsCredited(credits, source, r)
    ensures r.amount > 0
  {
    var k :| 0 <= k < |credits| && CreditedAs(credits[k], source, r);
    assert credits[k].amount > 0;
  }

  /** And when rows arrive in order, nothing behind it is credited either. */
  lemma NothingBehindBlocked(source: string, events: seq<Event>, i: nat, j: nat)
    requires LegalRun(source, events) && forall n :: 0 <= n < |events| ==> InOrderAt(source, events, n)
    requires var rows := RunOf(source, events).rows; i < j < |rows| && Blocks(rows[i]) && Supported(rows[j])
    ensures var w := RunOf(source, events); !IsCredited(w.ledger.credits, source, w.rows[j])
  {
    hide RunOf, LegalRun, InOrderAt, Supported, IsCredited;
    var w := RunOf(source, events);
    BlockedForever(source, events, i);
    EveryRunCreditsPrefix(source, events);
    assert events[..|events|] == events;
    assert PrefixAfter(source, events, |events|);
    var p: nat :| PrefixAt(w.rows, Matters(), Credited(w.ledger.credits, source), p);
    assert Matters()(w.rows[i]) && Matters()(w.rows[j]);
  }

  // ---------- What a drained source has paid ----------

  function PaidTo(source: string, u: UserId): ExternalCredit -> int {
    (c: ExternalCredit) => if c.reference.refType == RefOther(source) && c.userId == u then c.amount else 0
  }

  function OwedTo(u: UserId): Row -> int {
    (r: Row) => if Supported(r) && r.userId == u then r.amount else 0
  }

  lemma {:induction false} PaidIsOwed(credits: seq<ExternalCredit>, source: string, rows: seq<Row>, u: UserId)
    requires IsTable(rows, KeyOf()) && Books(credits, source, rows, |rows|)
    ensures SumBy(credits, PaidTo(source, u)) == SumBy(rows, OwedTo(u))
  {
    hide SumBy, Supported;
    if rows == [] {
      assert forall c :: c in credits ==> PaidTo(source, u)(c) == 0;
      SumZero(credits, PaidTo(source, u));
      SumZero(rows, OwedTo(u));
    } else {
      var n := |rows| - 1;
      var r := rows[n];
      var before := rows[..n];
      assert rows == before + [r];
      SumAppend(before, r, OwedTo(u));
      if !Supported(r) {
        forall k | 0 <= k < |credits| && credits[k].reference.refType == RefOther(source)
          ensures HasRow(before, source, credits[k])
        {
          HasRowBefore(rows, source, credits[k]);
        }
        PaidIsOwed(credits, source, before, u);
      } else {
        assert IsCredited(credits, source, r);
        var k :| 0 <= k < |credits| && CreditedAs(credits[k], source, r);
        WithoutLast(credits, source, rows, k);
        PaidIsOwed(credits[..k] + credits[k + 1..], source, before, u);
        assert credits == credits[..k] + [credits[k]] + credits[k + 1..];
        SumConcat(credits[..k], credits[k + 1..], PaidTo(source, u));
        SumConcat(credits[..k] + [credits[k]], credits[k + 1..], PaidTo(source, u));
        SumAppend(credits[..k], credits[k], PaidTo(source, u));
      }
    }
  }

  lemma HasRowBefore(rows: seq<Row>, source: string, c: ExternalCredit)
    requires rows != [] && HasRow(rows, source, c)
    requires Supported(rows[|rows| - 1]) ==> !CreditedAs(c, source, rows[|rows| - 1])
    ensures HasRow(rows[..|rows| - 1], source, c)
  {
    hide Supported;
    var before := rows[..|rows| - 1];
    var j :| 0 <= j < |rows| && Supported(rows[j]) && CreditedAs(c, source, rows[j]);
    assert before[j] == rows[j];
  }

  /** Taking the last row and its credit away leaves matching books. */
  lemma WithoutLast(credits: seq<ExternalCredit>, source: string, rows: seq<Row>, k: nat)
    requires IsTable(rows, KeyOf()) && rows != [] && Books(credits, source, rows, |rows|)
    requires k < |credits| && CreditedAs(credits[k], source, rows[|rows| - 1])
    ensures Books(credits[..k] + credits[k + 1..], source, rows[..|rows| - 1], |rows| - 1)
  {
    hide Supported;
    var rest := credits[..k] + credits[k + 1..];
    var before := rows[..|rows| - 1];
    forall i | 0 <= i < |rest| && rest[i].reference.refType == RefOther(source) ensures HasRow(before, source, rest[i]) {
      var was := if i < k then i else i + 1;
      assert rest[i] == credits[was];
      HasRowBefore(rows, source, rest[i]);
    }
    forall i | 0 <= i < |before| && Supported(before[i]) ensures IsCredited(rest, source, before[i]) {
      assert IsCredited(credits, source, rows[i]);
      var was :| 0 <= was < |credits| && CreditedAs(credits[was], source, rows[i]);
      assert KeyOf()(rows[i]).id != KeyOf()(rows[|rows| - 1]).id;
      assert was != k;
      assert CreditedAs(rest[if was < k then was else was - 1], source, before[i]);
    }
  }

  /** Once a run has drained the source, every user got from it exactly what its rows say. */
  lemma DrainedPaysEveryone(source: string, events: seq<Event>, u: UserId)
    requires LegalRun(source, events)
    requires var w := RunOf(source, events); DoneOf(w) == |w.rows|
    ensures var w := RunOf(source, events);
            SumBy(w.ledger.credits, PaidTo(source, u)) == SumBy(w.rows, OwedTo(u))
  {
    hide RunOf, Done;
    EveryRun(source, events);
    var w := RunOf(source, events);
    PaidIsOwed(w.ledger.credits, source, w.rows, u);
  }
}
