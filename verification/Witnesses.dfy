/** Reachable runs for the places where the code does less than one might expect: each exact condition
    proved elsewhere is met by a run that starts empty. */
module Witnesses {
  import opened Domain
  import opened Sums
  import Text
  import M = MemorySpec
  import P = PostgresSpec
  import PB = PostgresBooks
  import PI = PostgresInvariants
  import OI = OfflineInvariants
  import PR = PostgresReplies
  import R = Refinement
  import C = CreditSync
  import D = DepositSync
  import CursorPaging
  import CursorStore
  import T = TruncatingSync
  import RW = ReconciliationWorker

  const LIMITS := Limits(10, 10)

  // ---------- The locked-underflow refusal ----------

  const DEPOSITED := [P.Ledger(DepositOp("a", 10, "h", 0, 0))]
  const REQUESTED := DEPOSITED + [P.Ledger(RequestOp("a", 5, "to", "k", 1, 0))]
  const OVERDRAWN := REQUESTED + [P.Offline(P.ReconcilePendingOp("a", -6, 1))]

  lemma AfterDeposit()
    ensures var t := P.Run(LIMITS, DEPOSITED);
      && PI.Inv(t) && t.withdrawals == []
      && P.Net(t.journals, P.Available("a")) == 10 && P.LiabilityOf(t.journals, "a") == 10
  {
    hide P.Net, SumBy, PI.Inv;
    OI.EveryRun(LIMITS, []);
    OI.EveryRun(LIMITS, DEPOSITED);
    assert DEPOSITED[..0] == [];
    var t := P.ApplyDeposit(P.EMPTY, "a", 10, "h", 0, 0).0;
    assert t == P.Run(LIMITS, DEPOSITED);
    PI.DepositStep(P.EMPTY, "a", 10, "h", 0, 0);
    PB.NetMove([], t.journals[0], P.System(P.DepositClearing), P.Available("a"), 10);
    OI.EmptyNets();
  }

  lemma AfterRequest()
    ensures var t := P.Run(LIMITS, REQUESTED);
      && PI.Inv(t) && |t.withdrawals| == 1
      && t.withdrawals[0].userId == "a" && t.withdrawals[0].amount == 5 && t.withdrawals[0].status == LedgerReserved
  {
    hide P.Net, SumBy, PI.Inv, P.HasPostings, P.Sync, P.CurrentBalances;
    var t := P.Run(LIMITS, DEPOSITED);
    AfterDeposit();
    OI.EveryRun(LIMITS, REQUESTED);
    assert REQUESTED[..1] == DEPOSITED;
    OI.BooksAreCached(t);
    PB.CurrentIsProjected(t, "a");
    assert DailyRequested([], "a", DayOf(0)) == 0 by { NothingRequested(); }
  }

  lemma NothingRequested()
    ensures DailyRequested([], "a", DayOf(0)) == 0
  {
  }

  /** Ten in, five reserved, a pending target of minus six: releasing the five is refused. */
  lemma UnderflowReached()
    ensures P.Net(P.Run(LIMITS, OVERDRAWN).journals, P.OfflinePending("a")) == -6
    ensures P.LedgerStep(P.Run(LIMITS, OVERDRAWN), LIMITS, FailOp(0, "r", 2)).1 == Refused(StateCorrupted)
  {
    hide P.Net, SumBy, PI.Inv, P.Run, P.LedgerStep;
    var t := P.Run(LIMITS, REQUESTED);
    var t' := P.Run(LIMITS, OVERDRAWN);
    AfterRequest();
    LastStep(REQUESTED, P.Offline(P.ReconcilePendingOp("a", -6, 1)));
    OI.ReconcilePendingStep(t, "a", -6, 1);
    PendingIsTarget(t, "a", -6, 1);
    PR.CorruptedExactly(LIMITS, OVERDRAWN, FailOp(0, "r", 2));
    assert t'.withdrawals == t.withdrawals;
    OneActive(t'.withdrawals);
  }

  lemma LastStep(ops: seq<P.PostgresOp>, op: P.PostgresOp)
    ensures P.Run(LIMITS, ops + [op]) == P.Step(P.Run(LIMITS, ops), LIMITS, op)
  {
    assert (ops + [op])[..|ops|] == ops;
  }

  lemma PendingIsTarget(t: P.Tables, u: UserId, target: int, now: Instant)
    requires PI.Inv(t)
    ensures P.Net(P.ReconcilePending(t, u, target, now).0.journals, P.OfflinePending(u)) == target
  {
    hide P.Net, SumBy, PI.Inv, P.ReconcilePending;
    var t' := P.ReconcilePending(t, u, target, now).0;
    var delta := target - P.Net(t.journals, P.OfflinePending(u));
    OI.ReconcilePendingStep(t, u, target, now);
    if delta > 0 {
      PB.NetMove(t.journals, t'.journals[|t.journals|], P.System(P.OfflinePayReconciliation), P.OfflinePending(u), delta);
    } else if delta < 0 {
      PB.NetMove(t.journals, t'.journals[|t.journals|], P.OfflinePending(u), P.System(P.OfflinePayReconciliation),
                 0 - delta);
    }
  }

  lemma OneActive(ws: seq<Withdrawal>)
    requires |ws| == 1 && ws[0].userId == "a" && IsActive(ws[0].status)
    ensures ActiveSum(ws, "a") == ws[0].amount
  {
    assert ws == [] + [ws[0]];
    SumAppend([], ws[0], ActiveOf("a"));
  }

  // ---------- Answers that differ between the ledgers ----------

  const PAID := [DepositOp("a", 5, "h", 0, 0), TransferOp("a", "b", 5, "k", 0)]
  const ASKED := [DepositOp("a", 5, "h", 0, 0), RequestOp("a", 5, "to", "k", 1, 0)]

  lemma TwoSteps(first: Op, second: Op)
    ensures M.Run(LIMITS, R.InMemory([first, second])) ==
            M.LedgerStep(M.LedgerStep(M.EMPTY, LIMITS, first).0, LIMITS, second).0
  {
    hide M.LedgerStep;
    var ops := R.InMemory([first, second]);
    var one := [M.Ledger(first)];
    assert ops == one + [M.Ledger(second)] && ops[..1] == one && one[..0] == [];
    assert M.Run(LIMITS, one) == M.Step(M.Run(LIMITS, one[..0]), LIMITS, one[0]);
    assert M.Run(LIMITS, ops) == M.Step(M.Run(LIMITS, ops[..1]), LIMITS, ops[1]);
  }

  /** The key of a transfer, used again to transfer to oneself. */
  lemma SelfTransferAnswersDiffer()
    ensures var op := TransferOp("a", "a", 5, "k", 1);
      !R.Agree(M.LedgerStep(M.Run(LIMITS, R.InMemory(PAID)), LIMITS, op).1,
               P.LedgerStep(P.Run(LIMITS, R.InPostgres(PAID)), LIMITS, op).1)
  {
    hide M.Run, P.Run, R.Agree, P.LedgerStep, P.Projected, P.CurrentBalances;
    TwoSteps(PAID[0], PAID[1]);
    assert PAID == [PAID[0], PAID[1]];
    assert "k" in M.Run(LIMITS, R.InMemory(PAID)).transferByKey;
    R.RefinementVisible(LIMITS, PAID, TransferOp("a", "a", 5, "k", 1), "a");
  }

  /** The key of a withdrawal, used again with an amount above the single limit. */
  lemma LargeRepeatAnswersDiffer()
    ensures var op := RequestOp("a", 11, "to", "k", 1, 1);
      !R.Agree(M.LedgerStep(M.Run(LIMITS, R.InMemory(ASKED)), LIMITS, op).1,
               P.LedgerStep(P.Run(LIMITS, R.InPostgres(ASKED)), LIMITS, op).1)
  {
    hide M.Run, P.Run, R.Agree, P.LedgerStep, P.Projected, P.CurrentBalances;
    TwoSteps(ASKED[0], ASKED[1]);
    assert ASKED == [ASKED[0], ASKED[1]];
    assert DailyRequested([], "a", DayOf(0)) == 0 by { NothingRequested(); }
    assert "k" in M.Run(LIMITS, R.InMemory(ASKED)).withdrawalByKey;
    R.RefinementVisible(LIMITS, ASKED, RequestOp("a", 11, "to", "k", 1, 1), "a");
  }

  // ---------- The balance-credit sync ----------

  const DUST := C.Row(CursorPaging.Cursor(1, 1), "a", "KORI", 0)
  const PAYABLE := C.Row(CursorPaging.Cursor(2, 2), "b", "KORI", 100)
  const EARLY := C.Row(CursorPaging.Cursor(1, 1), "a", "KORI", 70)

  lemma KoriIsSupported()
    ensures C.Supported(DUST) && C.Supported(PAYABLE) && C.Supported(EARLY)
  {
    var code := "KORI";
    assert Text.TrimStart(code) == code && Text.TrimEnd(code) == code;
    assert Text.ToUpper(code) == code;
  }

  lemma TwoRowTable(first: C.Row, second: C.Row)
    requires first.key == CursorPaging.Cursor(1, 1) && second.key == CursorPaging.Cursor(2, 2)
    ensures CursorPaging.IsTable([first, second], C.KeyOf()) && CursorPaging.IsTable([second], C.KeyOf())
  {
  }

  /** The table, then any number of failure-free cycles. */
  function Stuck(cycles: nat): (events: seq<C.Event>)
    ensures |events| == cycles + 1 && events[0] == C.SourceGrows([DUST, PAYABLE])
    ensures forall i :: 0 < i < |events| ==> events[i] == C.SyncCycle(10, C.NoFaults(), CursorPaging.Completes)
  {
    if cycles == 0 then [C.SourceGrows([DUST, PAYABLE])]
    else Stuck(cycles - 1) + [C.SyncCycle(10, C.NoFaults(), CursorPaging.Completes)]
  }

  lemma {:induction false} StuckRows(source: string, cycles: nat)
    ensures C.RunOf(source, Stuck(cycles)).rows == [DUST, PAYABLE]
  {
    hide C.CycleOf, C.Process;
    var events := Stuck(cycles);
    if cycles > 0 {
      StuckRows(source, cycles - 1);
      assert events[..cycles] == Stuck(cycles - 1);
      CycleKeepsRows(C.RunOf(source, Stuck(cycles - 1)), source);
    } else {
      assert events[..0] == [];
    }
  }

  lemma CycleKeepsRows(w: C.SyncWorld, source: string)
    ensures C.CycleOf(w, source, 10, C.NoFaults(), CursorPaging.Completes).rows == w.rows
  {
  }

  lemma StuckIsLegal(source: string, cycles: nat)
    ensures C.LegalRun(source, Stuck(cycles))
    ensures forall n :: 0 <= n <= cycles ==> C.InOrderAt(source, Stuck(cycles), n)
  {
    hide C.CycleOf, C.Supported;
    var events := Stuck(cycles);
    TwoRowTable(DUST, PAYABLE);
    assert events[..0] == [];
    forall i | 0 <= i < |events| ensures C.Legal(C.RunOf(source, events[..i]), source, events[i]) {
      assert i == 0 ==> C.RunOf(source, events[..i]) == C.START;
    }
  }

  /** A zero-unit row in front: however many cycles run, the payable row behind it is never credited. */
  lemma PayableRowStuck(source: string, cycles: nat)
    ensures var w := C.RunOf(source, Stuck(cycles));
      && C.LegalRun(source, Stuck(cycles)) && w.rows == [DUST, PAYABLE] && C.Supported(PAYABLE)
      && C.DoneOf(w) == 0 && !C.IsCredited(w.ledger.credits, source, PAYABLE)
  {
    hide C.RunOf, C.LegalRun, C.InOrderAt, C.Supported, C.IsCredited;
    KoriIsSupported();
    StuckRows(source, cycles);
    StuckIsLegal(source, cycles);
    C.BlockedForever(source, Stuck(cycles), 0);
    C.NothingBehindBlocked(source, Stuck(cycles), 0, 1);
  }

  /** Three rows of one millisecond, in a table whose times count microseconds. */
  function SameMs(): seq<C.Row> {
    [C.Row(CursorPaging.Cursor(1500, 1), "a", "KORI", 10), C.Row(CursorPaging.Cursor(1600, 2), "a", "KORI", 20),
     C.Row(CursorPaging.Cursor(1700, 3), "b", "KORI", 30)]
  }

  lemma SameMsTable()
    ensures CursorPaging.IsTable(SameMs(), C.KeyOf()) && CursorStore.NoWholeMs(SameMs(), C.KeyOf())
    ensures CursorStore.Ms(C.KeyOf()(SameMs()[0])) == CursorStore.Ms(C.KeyOf()(SameMs()[1]))
  {
  }

  lemma SameMsHolds()
    ensures CursorStore.Monotone(SameMs(), C.KeyOf()) && T.Holds(SameMs(), 2, 0)
  {
    hide CursorPaging.IsTable, CursorStore.NoWholeMs, CursorStore.Ms, CursorStore.Saved, CursorStore.Monotone;
    SameMsTable();
    CursorStore.AdvancesIsSparse(SameMs(), C.KeyOf(), 2, 0);
    CursorStore.SavedIsEarlierMs(SameMs(), C.KeyOf(), 1, 0);
  }

  /** With a limit of two and a cursor cut to milliseconds, the third row is never credited. */
  lemma ThirdRowNeverPaid(source: string, cycles: nat)
    ensures var events := [C.SourceGrows(SameMs())];
            var w := T.StoredCycles(C.RunOf(source, events), source, 2, cycles);
      C.LegalRun(source, events) && w.rows == SameMs() && !C.IsCredited(w.ledger.credits, source, SameMs()[2])
  {
    hide C.Supported, CursorStore.Monotone, T.Holds, T.StoredCycle;
    var events := [C.SourceGrows(SameMs())];
    assert events[..0] == [];
    SameMsTable();
    SameMsHolds();
    var w := C.RunOf(source, events);
    assert w == C.Next(C.RunOf(source, events[..0]), source, events[0]);
    assert w == CursorPaging.World(SameMs(), M.EMPTY, None);
    C.EveryRun(source, events);
    T.HeldNeverPaid(w, source, 2, 0, 2, cycles);
  }

  const CRASHED := [C.SourceGrows([PAYABLE]), C.SyncCycle(10, C.NoFaults(), CursorPaging.Crashes(1))]
  const LATE := CRASHED + [C.SourceGrows([EARLY, PAYABLE])]

  /** The crashed cycle has credited its row and not moved the cursor. */
  lemma CrashedCycle(source: string)
    ensures var w := C.RunOf(source, CRASHED);
      w.rows == [PAYABLE] && w.cursor == None
      && w.ledger.credits == [ExternalCredit("b", 100, C.RefOf(source, PAYABLE), 2)]
  {
    hide C.Supported, C.RefOf;
    KoriIsSupported();
    var first := [C.SourceGrows([PAYABLE])];
    assert CRASHED[..1] == first && first[..0] == [];
    assert C.RunOf(source, first) == C.Next(C.RunOf(source, first[..0]), source, first[0]);
    var w := C.RunOf(source, first);
    assert w == CursorPaging.World([PAYABLE], M.EMPTY, None);
    var reached := CursorPaging.Reached(w, C.KeyOf(), 10, CursorPaging.Crashes(1));
    assert CursorPaging.Done([PAYABLE], C.KeyOf(), None) == 0;
    assert reached == [PAYABLE];
    var step := C.StepOf(source, C.NoFaults());
    assert reached[..0] == [];
    CursorPaging.LoopNone(M.EMPTY, step);
    CursorPaging.LoopNext(M.EMPTY, reached, step, 0);
    assert reached[..1] == reached;
    assert IndexWhere(M.EMPTY.credits, CreditRefersTo(C.RefOf(source, PAYABLE))).None?;
    assert C.RunOf(source, CRASHED) == C.CycleOf(w, source, 10, C.NoFaults(), CursorPaging.Crashes(1));
  }

  /** A crash before the cursor is saved, then a row that becomes visible in front: a gap. */
  lemma LateRowBreaksPrefix(source: string)
    ensures C.LegalRun(source, LATE) && !C.PrefixAfter(source, LATE, 3) && C.PrefixAfter(source, LATE, 2)
  {
    hide C.Supported, C.CycleOf, C.RefOf;
    KoriIsSupported();
    TwoRowTable(EARLY, PAYABLE);
    CrashedCycle(source);
    var w := C.RunOf(source, CRASHED);
    assert LATE[..2] == CRASHED && LATE[..3] == LATE && LATE[..0] == [] && LATE[..1] == CRASHED[..1];
    assert C.RunOf(source, LATE).rows == [EARLY, PAYABLE];
    assert [EARLY, PAYABLE][1] == [PAYABLE][0];
    forall i | 0 <= i < |LATE| ensures C.Legal(C.RunOf(source, LATE[..i]), source, LATE[i]) {
    }
    assert C.CreditedAs(w.ledger.credits[0], source, PAYABLE);
    assert C.IsCredited(w.ledger.credits, source, PAYABLE) && !C.IsCredited(w.ledger.credits, source, EARLY);
    assert CursorPaging.PrefixAt([PAYABLE], C.Matters(), C.Credited(w.ledger.credits, source), 1);
    GapIsNoPrefix(EARLY, PAYABLE, C.Credited(w.ledger.credits, source));
  }

  lemma GapIsNoPrefix(first: C.Row, second: C.Row, has: C.Row -> bool)
    requires C.Supported(first) && C.Supported(second) && !has(first) && has(second)
    ensures !CursorPaging.IsPrefix([first, second], C.Matters(), has)
  {
    hide C.Supported;
    var rows := [first, second];
    assert C.Matters()(rows[0]) && C.Matters()(rows[1]) && !has(rows[0]) && has(rows[1]);
  }

  // ---------- The token-deposit sync ----------

  const FIRST := D.Row(CursorPaging.Cursor(1, 1), "a", "KORI", 70, "h", 0)
  const SECOND := D.Row(CursorPaging.Cursor(2, 2), "b", "KORI", 30, "h", 0)

  function Undisturbed(): D.Environment {
    D.Environment(D.NoFaults(), (r: D.Row) => 0)
  }

  const SHARED := [D.SourceGrows([FIRST, SECOND]), D.SyncCycle(10, Undisturbed(), CursorPaging.Completes)]

  lemma SharedTable()
    ensures CursorPaging.IsTable([FIRST, SECOND], D.KeyOf()) && D.Supported(FIRST) && D.Supported(SECOND)
    ensures D.OneDepositPerHash([]) && !D.HasHash([], "h")
  {
    KoriIsSupported();
    assert FIRST.currency == DUST.currency;
  }

  /** Two rows, one hash: the cycle passes both without failure, and the second user has no deposit. */
  lemma SharedHashLosesRow()
    ensures var w := D.RunOf(SHARED);
      && D.LegalRun(SHARED) && w.rows == [FIRST, SECOND] && D.DoneOf(w) == 2
      && forall k :: 0 <= k < |w.ledger.deposits| ==> w.ledger.deposits[k].userId == "a"
  {
    hide D.Supported, D.Process, CursorPaging.Done, D.OneDepositPerHash;
    SharedTable();
    var grown := [D.SourceGrows([FIRST, SECOND])];
    assert SHARED[..1] == grown && SHARED[..0] == [] && grown[..0] == [];
    assert D.RunOf(grown) == D.Next(D.RunOf(grown[..0]), grown[0]);
    var w := D.RunOf(grown);
    D.EveryRun(grown);
    D.CycleKeeps(w, 10, Undisturbed(), CursorPaging.Completes);
    assert D.RunOf(SHARED) == D.CycleOf(w, 10, Undisturbed(), CursorPaging.Completes);
    CursorPaging.DoneIs(w.rows, D.KeyOf(), None, 0);
    var reached := CursorPaging.Reached(w, D.KeyOf(), 10, CursorPaging.Completes);
    assert reached == [FIRST, SECOND];
    var step := D.StepOf(Undisturbed());
    assert reached[..0] == [] && reached[..2] == reached;
    CursorPaging.LoopNone(M.EMPTY, step);
    D.SharedHashBooksFirstRowOnly(M.EMPTY, FIRST, SECOND, 0, 0);
    D.ProcessEffect(M.EMPTY, FIRST, D.NoFault, 0);
    CursorPaging.LoopNext(M.EMPTY, reached, step, 0);
    CursorPaging.LoopNext(M.EMPTY, reached, step, 1);
  }

  // ---------- The reconciliation worker ----------

  function AuditDown(): RW.Environment {
    RW.Environment((u: UserId) => 12, (u: UserId) => 1, (u: UserId) => RW.AuditFails)
  }

  /** One user checked, counted as skipped and as failed. */
  lemma UserCountedTwice()
    ensures RW.Cycle(P.Run(LIMITS, DEPOSITED), RW.Options(0, 100), ["a"], [], 1, AuditDown()).1 == RW.Counts(1, 0, 1, 1)
  {
    hide P.Run, P.Projected;
    AfterDeposit();
    var t := P.Run(LIMITS, DEPOSITED);
    assert RW.Bootstrap(t, ["a"], [], 1) == [];
    assert RW.Chosen(t, ["a"], [], 1) == ["a"];
    var users, o, env := ["a"], RW.Options(0, 100), AuditDown();
    assert users[..|users| - 1] == [];
    assert RW.ProcessAll(t, o, [], users[..|users| - 1], env) == (t, RW.NOTHING);
    assert RW.Decide(t, o, [], "a", 12) == RW.RaiseRefused;
    assert RW.ProcessUser(t, RW.NOTHING, o, [], "a", env) == (t, RW.Counts(1, 0, 1, 1));
  }
}
