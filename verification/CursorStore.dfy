/** A cursor store that keeps whole milliseconds of a time in microseconds, as a time-zone column read
    back as a date does: which tables a failure-free sync still reads to the end. */
module CursorStore {
  import opened Domain
  import opened CursorPaging

  const MICROS_PER_MS: nat := 1000

  function Ms(key: Cursor): nat {
    key.at / MICROS_PER_MS
  }

  function Truncated(c: Cursor): Cursor {
    Cursor(Ms(c) * MICROS_PER_MS, c.id)
  }

  /** The cursor as it is read back. */
  function Stored(c: Option<Cursor>): Option<Cursor> {
    if c.Some? then Some(Truncated(c.value)) else None
  }

  /** It is never later than what was saved, and saving it again changes nothing. */
  lemma StoredIsNotLater(c: Option<Cursor>)
    ensures NotLater(Stored(c), c) && Stored(Stored(c)) == Stored(c)
  {
  }

  // ---------- Positions ----------

  /** Where a failure-free cycle from position d stops reading. */
  function End<R>(rows: seq<R>, limit: nat, d: nat): nat {
    if d + limit <= |rows| then d + limit else |rows|
  }

  /** How many rows a cursor saved at row i leaves behind once it is read back. */
  function Saved<R>(rows: seq<R>, key: R -> Cursor, i: nat): (n: nat)
    requires i < |rows|
    ensures n <= |rows|
  {
    Done(rows, key, Some(Truncated(key(rows[i]))))
  }

  /** The position the next cycle starts from. */
  function NextPosition<R>(rows: seq<R>, key: R -> Cursor, limit: nat, d: nat): (n: nat)
    requires d <= |rows|
    ensures n <= |rows|
  {
    if d == |rows| || limit == 0 then d else Saved(rows, key, End(rows, limit, d) - 1)
  }

  function Position<R>(rows: seq<R>, key: R -> Cursor, limit: nat, start: nat, k: nat): (d: nat)
    requires start <= |rows|
    ensures d <= |rows|
  {
    if k == 0 then start else NextPosition(rows, key, limit, Position(rows, key, limit, start, k - 1))
  }

  /** A later saved row never leaves fewer rows behind. */
  ghost predicate Monotone<R>(rows: seq<R>, key: R -> Cursor) {
    forall i, j :: 0 <= i < j < |rows| ==> Saved(rows, key, i) <= Saved(rows, key, j)
  }

  /** Every full page short of the end takes the next cycle past its first row. */
  ghost predicate Advances<R>(rows: seq<R>, key: R -> Cursor, limit: nat, from: nat)
    requires limit > 0
  {
    forall i :: from <= i && i + limit < |rows| ==> NextPosition(rows, key, limit, i) > i
  }

  /** Then some cycle reads to the end. */
  lemma {:induction false} ReadsToEnd<R>(rows: seq<R>, key: R -> Cursor, limit: nat, start: nat)
    returns (k: nat)
    requires limit > 0 && start <= |rows| && Advances(rows, key, limit, start)
    ensures Position(rows, key, limit, start, k) + limit >= |rows|
    decreases |rows| - start
  {
    hide Saved;
    k := 0;
    if start + limit < |rows| {
      var next := NextPosition(rows, key, limit, start);
      var rest := ReadsToEnd(rows, key, limit, next);
      PositionShifts(rows, key, limit, start, rest);
      k := rest + 1;
    }
  }

  lemma {:induction false} PositionShifts<R>(rows: seq<R>, key: R -> Cursor, limit: nat, start: nat, k: nat)
    requires start <= |rows|
    ensures Position(rows, key, limit, start, k + 1) ==
            Position(rows, key, limit, NextPosition(rows, key, limit, start), k)
  {
    if k > 0 {
      PositionShifts(rows, key, limit, start, k - 1);
    }
  }

  /** A page that does not holds the sync for good: every cycle from before it ends before it. */
  lemma {:induction false} HeldByPage<R>(rows: seq<R>, key: R -> Cursor, limit: nat, start: nat, i: nat, k: nat)
    requires Monotone(rows, key) && limit > 0 && start <= i && i + limit < |rows|
    requires NextPosition(rows, key, limit, i) <= i
    ensures Position(rows, key, limit, start, k) <= i
  {
    hide Saved;
    if k > 0 {
      HeldByPage(rows, key, limit, start, i, k - 1);
      var d := Position(rows, key, limit, start, k - 1);
      assert d < i ==> Saved(rows, key, d + limit - 1) <= Saved(rows, key, i + limit - 1);
    }
  }

  /** Failure-free cycles read a table to the end if and only if every page advances. */
  lemma ReadsToEndExactly<R>(rows: seq<R>, key: R -> Cursor, limit: nat, start: nat)
    requires Monotone(rows, key) && limit > 0 && start <= |rows|
    ensures (exists k: nat :: Position(rows, key, limit, start, k) + limit >= |rows|) <==>
            Advances(rows, key, limit, start)
  {
    if Advances(rows, key, limit, start) {
      var k := ReadsToEnd(rows, key, limit, start);
    } else {
      var i :| start <= i && i + limit < |rows| && NextPosition(rows, key, limit, i) <= i;
      forall k: nat ensures Position(rows, key, limit, start, k) + limit < |rows| {
        HeldByPage(rows, key, limit, start, i, k);
      }
    }
  }

  // ---------- Which tables ----------

  /** No row falls on a whole millisecond. */
  ghost predicate NoWholeMs<R>(rows: seq<R>, key: R -> Cursor) {
    forall i :: 0 <= i < |rows| ==> key(rows[i]).at % MICROS_PER_MS != 0
  }

  /** No full page short of the end lies within one millisecond. */
  ghost predicate Sparse<R>(rows: seq<R>, key: R -> Cursor, limit: nat, from: nat)
    requires limit > 0
  {
    forall i :: from <= i && i + limit < |rows| ==> Ms(key(rows[i])) < Ms(key(rows[i + limit - 1]))
  }

  ghost predicate OrderedIds<R>(rows: seq<R>, key: R -> Cursor) {
    forall i, j :: 0 <= i < j < |rows| ==> key(rows[i]).id < key(rows[j]).id
  }

  /** How a truncated cursor compares with other keys. */
  lemma TruncatedOrder(a: Cursor, b: Cursor)
    ensures Ms(a) < Ms(b) ==> !Less(Truncated(b), a)
    ensures Ms(b) <= Ms(a) && a.at % MICROS_PER_MS != 0 ==> Less(Truncated(b), a)
    ensures Less(a, b) || a == b ==> Ms(a) <= Ms(b)
    ensures Ms(a) <= Ms(b) && a.id <= b.id ==> !Less(Truncated(b), Truncated(a))
  {
  }

  /** Without rows on whole milliseconds, the rows left behind are those of earlier milliseconds. */
  lemma SavedIsEarlierMs<R>(rows: seq<R>, key: R -> Cursor, i: nat, j: nat)
    requires IsTable(rows, key) && NoWholeMs(rows, key) && i < |rows| && j < |rows|
    ensures j < Saved(rows, key, i) <==> Ms(key(rows[j])) < Ms(key(rows[i]))
  {
    hide Ms, Truncated;
    DoneSplits(rows, key, Some(Truncated(key(rows[i]))));
    TruncatedOrder(key(rows[j]), key(rows[i]));
  }

  /** On such a table a page advances exactly when it is not within one millisecond. */
  lemma AdvancesIsSparse<R>(rows: seq<R>, key: R -> Cursor, limit: nat, from: nat)
    requires IsTable(rows, key) && NoWholeMs(rows, key) && limit > 0
    ensures Monotone(rows, key)
    ensures Advances(rows, key, limit, from) <==> Sparse(rows, key, limit, from)
  {
    hide Ms, Saved, NoWholeMs;
    forall i, j | 0 <= i < j < |rows| ensures Saved(rows, key, i) <= Saved(rows, key, j) {
      TruncatedOrder(key(rows[i]), key(rows[j]));
      if Saved(rows, key, i) > Saved(rows, key, j) {
        SavedIsEarlierMs(rows, key, i, Saved(rows, key, j));
        SavedIsEarlierMs(rows, key, j, Saved(rows, key, j));
      }
    }
    forall i: nat {:trigger NextPosition(rows, key, limit, i)} {:trigger rows[i]} | from <= i && i + limit < |rows|
      ensures NextPosition(rows, key, limit, i) > i <==> Ms(key(rows[i])) < Ms(key(rows[i + limit - 1]))
    {
      SavedIsEarlierMs(rows, key, i + limit - 1, i);
    }
  }

  /** Ids that grow with time are enough for a monotone store. */
  lemma OrderedIdsAreMonotone<R>(rows: seq<R>, key: R -> Cursor)
    requires IsTable(rows, key) && OrderedIds(rows, key)
    ensures Monotone(rows, key)
  {
    hide Ms, Truncated;
    forall i, j | 0 <= i < j < |rows| ensures Saved(rows, key, i) <= Saved(rows, key, j) {
      TruncatedOrder(key(rows[i]), key(rows[j]));
      SlipLowersDone(rows, key, Some(Truncated(key(rows[i]))), Some(Truncated(key(rows[j]))));
    }
  }
}
