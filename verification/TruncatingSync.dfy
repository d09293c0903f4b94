/** The balance-credit sync over a cursor store that cuts saved times to milliseconds: which tables it
    still drains, and which rows it never pays. */
module TruncatingSync {
  import opened Domain
  import opened CursorPaging
  import opened CursorStore
  import opened CreditSync

  /** The sync as it finds its cursor. */
  function ReadBack(w: SyncWorld): SyncWorld {
    w.(cursor := Stored(w.cursor))
  }

  function StoredCycle(w: SyncWorld, source: string, limit: nat): SyncWorld {
    CleanCycle(ReadBack(w), source, limit)
  }

  function StoredCycles(w: SyncWorld, source: string, limit: nat, count: nat): SyncWorld {
    if count == 0 then w else StoredCycle(StoredCycles(w, source, limit, count - 1), source, limit)
  }

  /** Where the sync starts to read. */
  function ReadFrom(w: SyncWorld): (n: nat)
    ensures n <= |w.rows|
  {
    DoneOf(ReadBack(w))
  }

  /** A cycle is a slip and a failure-free cycle of the runs. */
  lemma StoredCycleIsRun(source: string, events: seq<Event>, limit: nat)
    requires LegalRun(source, events)
    ensures var w := RunOf(source, events);
            var more := events + [CursorSlips(Stored(w.cursor)), SyncCycle(limit, NoFaults(), Completes)];
            LegalRun(source, more) && RunOf(source, more) == StoredCycle(w, source, limit)
  {
    hide RunOf, CycleOf, Stored;
    var w := RunOf(source, events);
    StoredIsNotLater(w.cursor);
    ExtendRun(source, events, CursorSlips(Stored(w.cursor)));
    var slipped := events + [CursorSlips(Stored(w.cursor))];
    ExtendRun(source, slipped, SyncCycle(limit, NoFaults(), Completes));
    assert events + [CursorSlips(Stored(w.cursor)), SyncCycle(limit, NoFaults(), Completes)]
        == slipped + [SyncCycle(limit, NoFaults(), Completes)];
  }

  lemma ExtendRun(source: string, events: seq<Event>, e: Event)
    requires LegalRun(source, events) && Legal(RunOf(source, events), source, e)
    ensures LegalRun(source, events + [e])
    ensures RunOf(source, events + [e]) == Next(RunOf(source, events), source, e)
  {
    hide Next, Legal;
    var more := events + [e];
    assert more[..|events|] == events;
    assert forall i :: 0 <= i < |events| ==> more[i] == events[i] && more[..i] == events[..i];
  }

  lemma ReadBackKeeps(w: SyncWorld, source: string)
    requires Inv(w, source)
    ensures Inv(ReadBack(w), source)
  {
    hide Inv, Stored;
    StoredIsNotLater(w.cursor);
    SlipKeeps(w, source, Stored(w.cursor));
  }

  ghost predicate NoneBlocks(rows: seq<Row>) {
    forall i :: 0 <= i < |rows| ==> !Blocks(rows[i])
  }

  /** Without blocking rows a cycle reads a full page, and the next one starts where the cut cursor says. */
  lemma StoredCycleProgress(w: SyncWorld, source: string, limit: nat)
    requires Inv(w, source) && NoneBlocks(w.rows) && limit > 0
    ensures var w' := StoredCycle(w, source, limit);
      && Inv(w', source) && w'.rows == w.rows
      && DoneOf(w') == End(w.rows, limit, ReadFrom(w))
      && ReadFrom(w') == NextPosition(w.rows, KeyOf(), limit, ReadFrom(w))
  {
    hide Done, Loop, Reached, Books, IsTable, Truncated, Blocks;
    ReadBackKeeps(w, source);
    var r := ReadBack(w);
    CleanCycleProgress(r, source, limit);
    CycleMovesCursor(r, KeyOf(), limit, StepOf(source, NoFaults()), Completes);
    StoredIsNotLater(w.cursor);
  }

  lemma {:induction false} StoredPositions(w: SyncWorld, source: string, limit: nat, k: nat)
    requires Inv(w, source) && NoneBlocks(w.rows) && limit > 0
    ensures var w' := StoredCycles(w, source, limit, k);
      && Inv(w', source) && w'.rows == w.rows
      && ReadFrom(w') == Position(w.rows, KeyOf(), limit, ReadFrom(w), k)
  {
    hide Inv, NoneBlocks, ReadFrom, StoredCycle, NextPosition;
    if k > 0 {
      StoredPositions(w, source, limit, k - 1);
      StoredCycleProgress(StoredCycles(w, source, limit, k - 1), source, limit);
    }
  }

  lemma {:induction false} StoredKeeps(w: SyncWorld, source: string, limit: nat, n: nat)
    requires Inv(w, source)
    ensures Inv(StoredCycles(w, source, limit, n), source) && StoredCycles(w, source, limit, n).rows == w.rows
  {
    hide Inv, ReadBack, CleanCycle;
    if n > 0 {
      StoredKeeps(w, source, limit, n - 1);
      var before := StoredCycles(w, source, limit, n - 1);
      ReadBackKeeps(before, source);
      SameRows(before);
      CleanCycleProgress(ReadBack(before), source, limit);
    }
  }

  lemma SameRows(w: SyncWorld)
    ensures ReadBack(w).rows == w.rows
  {
  }

  /** Wherever a run left its cursor, failure-free cycles over the truncating store drain the source if
      and only if no row blocks and every full page from there on advances the cut cursor. */
  lemma StoredDrainsExactly(source: string, events: seq<Event>, limit: nat)
    requires LegalRun(source, events) && limit > 0
    requires Monotone(RunOf(source, events).rows, KeyOf())
    ensures var w := RunOf(source, events);
      (exists n: nat :: n > 0 && DoneOf(StoredCycles(w, source, limit, n)) == |w.rows|) <==>
      NoneBlocks(w.rows) && Advances(w.rows, KeyOf(), limit, ReadFrom(w))
  {
    hide RunOf, LegalRun, Inv, DoneOf, ReadFrom, Blocks, StoredCycle, Monotone, Advances;
    var w := RunOf(source, events);
    EveryRun(source, events);
    ReadsToEndExactly(w.rows, KeyOf(), limit, ReadFrom(w));
    if NoneBlocks(w.rows) {
      if k: nat :| Position(w.rows, KeyOf(), limit, ReadFrom(w), k) + limit >= |w.rows| {
        NextReaches(w, source, limit, k + 1);
      }
      if n: nat :| n > 0 && DoneOf(StoredCycles(w, source, limit, n)) == |w.rows| {
        NextReaches(w, source, limit, n);
      }
    } else if n: nat :| n > 0 && DoneOf(StoredCycles(w, source, limit, n)) == |w.rows| {
      StoredKeeps(w, source, limit, n);
      DrainedNeverBlocks(StoredCycles(w, source, limit, n), source);
    }
  }

  lemma NextReaches(w: SyncWorld, source: string, limit: nat, n: nat)
    requires Inv(w, source) && NoneBlocks(w.rows) && limit > 0 && n > 0
    ensures DoneOf(StoredCycles(w, source, limit, n)) == |w.rows| <==>
            Position(w.rows, KeyOf(), limit, ReadFrom(w), n - 1) + limit >= |w.rows|
  {
    hide Inv, NoneBlocks, DoneOf, ReadFrom, StoredCycle, NextPosition, Position;
    StoredPositions(w, source, limit, n - 1);
    StoredCycleProgress(StoredCycles(w, source, limit, n - 1), source, limit);
  }

  lemma DrainedNeverBlocks(w: SyncWorld, source: string)
    requires Inv(w, source) && DoneOf(w) == |w.rows|
    ensures NoneBlocks(w.rows)
  {
    hide Done, IsTable, FromTable, IsCredited, Supported;
    forall i | 0 <= i < |w.rows| ensures !Blocks(w.rows[i]) {
      if Blocks(w.rows[i]) {
        CreditedIsPositive(w.ledger.credits, source, w.rows[i]);
      }
    }
  }

  // ---------- The rows behind a page that holds ----------

  ghost predicate Holds(rows: seq<Row>, limit: nat, i: nat) {
    limit > 0 && i + limit < |rows| && NextPosition(rows, KeyOf(), limit, i) <= i
  }

  lemma HeldStep(w: SyncWorld, source: string, limit: nat, i: nat, j: nat)
    requires Inv(w, source) && Monotone(w.rows, KeyOf()) && Holds(w.rows, limit, i)
    requires ReadFrom(w) <= i && i + limit <= j < |w.rows|
    ensures var w' := StoredCycle(w, source, limit);
      && ReadFrom(w') <= i
      && (IsCredited(w'.ledger.credits, source, w.rows[j]) <==> IsCredited(w.ledger.credits, source, w.rows[j]))
  {
    hide Done, Loop, Books, IsTable, Truncated, Blocks, IsCredited, FirstBlocked, Min;
    ReadBackKeeps(w, source);
    var r := ReadBack(w);
    var step := StepOf(source, NoFaults());
    var page := Reached(r, KeyOf(), limit, Completes);
    ReachedIsSlice(r, KeyOf(), limit, Completes);
    LoopSpares(w.ledger, source, w.rows, ReadFrom(w), |page|, NoFaults(), j);
    CycleMovesCursor(r, KeyOf(), limit, step, Completes);
    StoredIsNotLater(w.cursor);
    var moved := Progress(r, KeyOf(), limit, step, Completes);
    if moved > 0 {
      assert ReadFrom(w) + moved <= i + limit;
      assert ReadFrom(StoredCycle(w, source, limit)) == Saved(w.rows, KeyOf(), ReadFrom(w) + moved - 1);
    }
  }

  /** A run whose cursor is before a page that holds never gets a row after that page paid, however
      many failure-free cycles follow. */
  lemma {:induction false} HeldNeverPaid(w: SyncWorld, source: string, limit: nat, i: nat, j: nat, n: nat)
    requires Inv(w, source) && Monotone(w.rows, KeyOf()) && Holds(w.rows, limit, i)
    requires ReadFrom(w) <= i && i + limit <= j < |w.rows|
    ensures var w' := StoredCycles(w, source, limit, n);
      && w'.rows == w.rows && ReadFrom(w') <= i
      && (IsCredited(w'.ledger.credits, source, w.rows[j]) <==> IsCredited(w.ledger.credits, source, w.rows[j]))
  {
    hide Inv, Monotone, Holds, ReadFrom, StoredCycle, IsCredited;
    if n > 0 {
      HeldNeverPaid(w, source, limit, i, j, n - 1);
      StoredKeeps(w, source, limit, n - 1);
      HeldStep(StoredCycles(w, source, limit, n - 1), source, limit, i, j);
      StoredKeeps(w, source, limit, n);
    }
  }
}
