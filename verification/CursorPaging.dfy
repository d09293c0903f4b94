/** The loop both Foxya sync services share: read the rows after a saved (time, id) cursor in key
    order, process them one by one, stop at the first failure, save the cursor of the last row
    that went well. The table is generic in its rows, the ledger in its state. */
module CursorPaging {
  import opened Domain
  import opened StableSort

  datatype Cursor = Cursor(at: Instant, id: nat)

  predicate Less(a: Cursor, b: Cursor) {
    a.at < b.at || (a.at == b.at && a.id < b.id)
  }

  predicate Later(key: Cursor, cursor: Option<Cursor>) {
    cursor.Some? ==> Less(cursor.value, key)
  }

  /** A cursor that lets at least as many rows through. */
  predicate NotLater(a: Option<Cursor>, b: Option<Cursor>) {
    a.Some? ==> b.Some? && !Less(b.value, a.value)
  }

  /** Rows in key order; ids are the table's primary key. */
  ghost predicate IsTable<R>(rows: seq<R>, key: R -> Cursor) {
    && (forall i, j :: 0 <= i < j < |rows| ==> Less(key(rows[i]), key(rows[j])))
    && (forall i, j :: 0 <= i < j < |rows| ==> key(rows[i]).id != key(rows[j]).id)
  }

  /** How many rows lie at or below the cursor. */
  function Done<R>(rows: seq<R>, key: R -> Cursor, cursor: Option<Cursor>): (n: nat)
    ensures n <= |rows|
  {
    if rows == [] || Later(key(rows[0]), cursor) then 0 else 1 + Done(rows[1..], key, cursor)
  }

  lemma {:induction false} DoneSplits<R>(rows: seq<R>, key: R -> Cursor, cursor: Option<Cursor>)
    requires IsTable(rows, key)
    ensures forall i :: 0 <= i < |rows| ==> (i >= Done(rows, key, cursor) <==> Later(key(rows[i]), cursor))
  {
    if rows != [] {
      if Later(key(rows[0]), cursor) {
        forall i | 0 <= i < |rows| ensures Later(key(rows[i]), cursor) {
          assert i > 0 ==> Less(key(rows[0]), key(rows[i]));
        }
      } else {
        DoneSplits(rows[1..], key, cursor);
        assert forall i :: 0 < i < |rows| ==> rows[i] == rows[1..][i - 1];
      }
    }
  }

  /** Only a split of the table decides `Done`. */
  lemma DoneIs<R>(rows: seq<R>, key: R -> Cursor, cursor: Option<Cursor>, n: nat)
    requires IsTable(rows, key) && n <= |rows|
    requires n > 0 ==> !Later(key(rows[n - 1]), cursor)
    requires n < |rows| ==> Later(key(rows[n]), cursor)
    ensures Done(rows, key, cursor) == n
  {
    DoneSplits(rows, key, cursor);
  }

  /** The query: the next rows after the cursor, in key order, at most `limit`. */
  function Candidates<R>(rows: seq<R>, key: R -> Cursor, cursor: Option<Cursor>, limit: nat): seq<R> {
    Take(limit, rows[Done(rows, key, cursor)..])
  }

  // ---------- The loop ----------

  /** The state after the rows, and how many were processed before the first failure. */
  function Loop<S, R>(s: S, rows: seq<R>, step: (S, R) -> (S, bool)): (result: (S, nat))
    ensures result.1 <= |rows|
  {
    if rows == [] then (s, 0)
    else
      var (s1, n) := Loop(s, rows[..|rows| - 1], step);
      if n < |rows| - 1 then (s1, n)
      else
        var (s2, ok) := step(s1, rows[|rows| - 1]);
        (s2, if ok then |rows| else |rows| - 1)
  }

  lemma LoopNone<S, R>(s: S, step: (S, R) -> (S, bool))
    ensures Loop(s, [], step) == (s, 0)
  {
  }

  lemma LoopNext<S, R>(s: S, rows: seq<R>, step: (S, R) -> (S, bool), i: nat)
    requires i < |rows| && Loop(s, rows[..i], step).1 == i
    ensures var (s1, ok) := step(Loop(s, rows[..i], step).0, rows[i]);
            Loop(s, rows[..i + 1], step) == (s1, if ok then i + 1 else i)
  {
    assert rows[..i + 1][..i] == rows[..i];
  }

  /** After a failure the remaining rows are not looked at. */
  lemma {:induction false} StopsThere<S, R>(s: S, rows: seq<R>, step: (S, R) -> (S, bool), i: nat)
    requires i < |rows| && Loop(s, rows[..i + 1], step).1 == i
    ensures Loop(s, rows, step) == Loop(s, rows[..i + 1], step)
  {
    if |rows| == i + 1 {
      assert rows[..i + 1] == rows;
    } else {
      assert rows[..|rows| - 1][..i + 1] == rows[..i + 1];
      StopsThere(s, rows[..|rows| - 1], step, i);
    }
  }

  /** What became of a candidate, and what a cycle reports. */
  datatype Outcome = Synced | Duplicated | Skipped | CandidateFailed

  datatype Counts = Counts(checked: nat, synced: nat, duplicated: nat, skipped: nat, failed: nat, cursorAdvanced: bool)

  // ---------- One cycle ----------

  /** How a cycle ends: it runs to the end, or the process dies before candidate `at`, at the
      latest before the cursor is saved. */
  datatype Ending = Completes | Crashes(at: nat)

  datatype World<S, R> = World(rows: seq<R>, ledger: S, cursor: Option<Cursor>)

  /** The candidates a cycle gets to. */
  function Reached<S, R>(w: World<S, R>, key: R -> Cursor, limit: nat, ending: Ending): seq<R> {
    var candidates := Candidates(w.rows, key, w.cursor, limit);
    if ending.Crashes? then Take(ending.at, candidates) else candidates
  }

  function Cycle<S, R>(w: World<S, R>, key: R -> Cursor, limit: nat, step: (S, R) -> (S, bool), ending: Ending):
    World<S, R>
  {
    var reached := Reached(w, key, limit, ending);
    var (s, n) := Loop(w.ledger, reached, step);
    w.(ledger := s, cursor := if ending.Completes? && n > 0 then Some(key(reached[n - 1])) else w.cursor)
  }

  /** How far a cycle gets: the number of rows it processed. */
  function Progress<S, R>(w: World<S, R>, key: R -> Cursor, limit: nat, step: (S, R) -> (S, bool),
                          ending: Ending): nat {
    Loop(w.ledger, Reached(w, key, limit, ending), step).1
  }

  lemma ReachedIsSlice<S, R>(w: World<S, R>, key: R -> Cursor, limit: nat, ending: Ending)
    ensures var d := Done(w.rows, key, w.cursor);
            var reached := Reached(w, key, limit, ending);
            && d + |reached| <= |w.rows|
            && reached == w.rows[d..d + |reached|]
            && (ending.Completes? ==> |reached| == if limit <= |w.rows| - d then limit else |w.rows| - d)
  {
  }

  /** A completed cycle moves the cursor over exactly the rows it processed, a crashed one not at all;
      a cursor that moves moves strictly forward. */
  lemma CycleMovesCursor<S, R>(w: World<S, R>, key: R -> Cursor, limit: nat, step: (S, R) -> (S, bool), ending: Ending)
    requires IsTable(w.rows, key)
    ensures var w' := Cycle(w, key, limit, step, ending);
            var moved := if ending.Completes? then Progress(w, key, limit, step, ending) else 0;
            && w'.rows == w.rows
            && Done(w'.rows, key, w'.cursor) == Done(w.rows, key, w.cursor) + moved
            && (w'.cursor != w.cursor <==> moved > 0)
            && (w'.cursor != w.cursor ==> w'.cursor.Some? && Later(w'.cursor.value, w.cursor))
            && (moved > 0 ==> w'.cursor == Some(key(w.rows[Done(w.rows, key, w.cursor) + moved - 1])))
  {
    hide Loop, Reached;
    var d := Done(w.rows, key, w.cursor);
    var w' := Cycle(w, key, limit, step, ending);
    var n := Progress(w, key, limit, step, ending);
    ReachedIsSlice(w, key, limit, ending);
    if ending.Completes? && n > 0 {
      var last := w.rows[d + n - 1];
      assert Reached(w, key, limit, ending)[n - 1] == last;
      DoneSplits(w.rows, key, w.cursor);
      assert Later(key(last), w.cursor);
      assert d + n < |w.rows| ==> Less(key(last), key(w.rows[d + n]));
      DoneIs(w.rows, key, Some(key(last)), d + n);
    }
  }

  lemma OneMore(count: nat, limit: nat)
    requires count > 0
    ensures count * limit == (count - 1) * limit + limit
  {
  }

  lemma AtLeast(count: nat, limit: nat)
    requires limit > 0
    ensures count * limit >= count
  {
  }

  lemma SlipLowersDone<R>(rows: seq<R>, key: R -> Cursor, back: Option<Cursor>, cursor: Option<Cursor>)
    requires IsTable(rows, key) && NotLater(back, cursor)
    ensures Done(rows, key, back) <= Done(rows, key, cursor)
  {
    DoneSplits(rows, key, back);
    DoneSplits(rows, key, cursor);
    var d := Done(rows, key, cursor);
    assert d < |rows| ==> Later(key(rows[d]), back);
  }

  /** New rows keep the old ones and lie after the cursor. */
  ghost predicate Arrival<R>(rows: seq<R>, rows': seq<R>, key: R -> Cursor, cursor: Option<Cursor>) {
    && IsTable(rows', key)
    && (forall i :: 0 <= i < |rows| ==> rows[i] in rows')
    && (forall i :: 0 <= i < |rows'| ==> rows'[i] in rows || Later(key(rows'[i]), cursor))
  }

  /** Then the finished part of the table is what it was. */
  lemma ArrivalKeepsDone<R>(rows: seq<R>, rows': seq<R>, key: R -> Cursor, cursor: Option<Cursor>)
    requires IsTable(rows, key) && Arrival(rows, rows', key, cursor)
    ensures forall i :: 0 <= i < Done(rows', key, cursor) ==> rows'[i] in rows[..Done(rows, key, cursor)]
  {
    DoneSplits(rows, key, cursor);
    DoneSplits(rows', key, cursor);
    var d := Done(rows, key, cursor);
    forall i | 0 <= i < Done(rows', key, cursor) ensures rows'[i] in rows[..d] {
      var j :| 0 <= j < |rows| && rows[j] == rows'[i];
      assert rows[..d][j] == rows'[i];
    }
  }

  /** A property that holds at first, and is kept from where it holds exactly by the good steps. */
  lemma {:induction false} KeptThroughout(holds: nat -> bool, good: nat -> bool, k: nat)
    requires holds(0) && forall n: nat :: n < k && holds(n) ==> (holds(n + 1) <==> good(n))
    ensures (forall n: nat :: n <= k ==> holds(n)) <==> (forall n: nat :: n < k ==> good(n))
  {
    if k > 0 {
      var n := k - 1;
      KeptThroughout(holds, good, n);
      assert holds(n) ==> (holds(n + 1) <==> good(n));
    }
  }

  // ---------- Prefixes ----------

  /** Among the rows that matter, those with the property are the ones before position p. */
  ghost predicate PrefixAt<R>(rows: seq<R>, matters: R -> bool, has: R -> bool, p: nat) {
    forall i :: 0 <= i < |rows| && matters(rows[i]) ==> (has(rows[i]) <==> i < p)
  }

  ghost predicate IsPrefix<R>(rows: seq<R>, matters: R -> bool, has: R -> bool) {
    exists p: nat :: PrefixAt(rows, matters, has, p)
  }

  /** The next row gains the property, or nothing changes. */
  lemma PrefixGrows<R>(rows: seq<R>, matters: R -> bool, has: R -> bool, has': R -> bool, i: nat)
    requires i < |rows| && IsPrefix(rows, matters, has)
    requires forall j :: 0 <= j < i && matters(rows[j]) ==> has(rows[j])
    requires forall j :: 0 <= j < |rows| && matters(rows[j]) ==> (has'(rows[j]) <==> has(rows[j]) || j == i)
    ensures IsPrefix(rows, matters, has')
  {
    var p: nat :| PrefixAt(rows, matters, has, p);
    assert PrefixAt(rows, matters, has', if p <= i then i + 1 else p);
  }

  /** New rows that matter come after every row with the property, not just after the cursor. */
  ghost predicate InOrder<R>(rows: seq<R>, rows': seq<R>, key: R -> Cursor, matters: R -> bool, has: R -> bool) {
    forall i, j ::
      (&& 0 <= i < |rows'| && rows'[i] !in rows && matters(rows'[i])
       && 0 <= j < |rows| && matters(rows[j]) && has(rows[j]))
      ==> Less(key(rows[j]), key(rows'[i]))
  }

  /** Growth keeps a prefix exactly when the new rows are in order: a row that becomes visible
      between the cursor and a row booked by a crashed cycle leaves a gap until the next cycle. */
  lemma GrowthKeepsPrefixExactly<R>(rows: seq<R>, rows': seq<R>, key: R -> Cursor, cursor: Option<Cursor>,
                                    matters: R -> bool, has: R -> bool)
    requires IsTable(rows, key) && Arrival(rows, rows', key, cursor) && IsPrefix(rows, matters, has)
    requires forall i :: 0 <= i < |rows'| && matters(rows'[i]) && has(rows'[i]) ==> rows'[i] in rows
    ensures IsPrefix(rows', matters, has) <==> InOrder(rows, rows', key, matters, has)
  {
    if InOrder(rows, rows', key, matters, has) {
      var q := LastWith(rows', matters, has, |rows'|);
      if q > 0 {
        forall i | 0 <= i < q && matters(rows'[i]) ensures has(rows'[i]) {
          BeforeIsIn(rows, rows', key, cursor, matters, has, i, q - 1);
        }
      }
      assert PrefixAt(rows', matters, has, q);
    } else if p: nat :| PrefixAt(rows', matters, has, p) {
      PrefixIsOrdered(rows, rows', key, cursor, matters, has, p);
    }
  }

  /** One past the last row with the property. */
  ghost function LastWith<R>(rows: seq<R>, matters: R -> bool, has: R -> bool, n: nat): (q: nat)
    requires n <= |rows|
    ensures q <= n && (q > 0 ==> matters(rows[q - 1]) && has(rows[q - 1]))
    ensures forall i :: q <= i < n && matters(rows[i]) ==> !has(rows[i])
  {
    if n == 0 || (matters(rows[n - 1]) && has(rows[n - 1])) then n else LastWith(rows, matters, has, n - 1)
  }

  lemma BeforeIsIn<R>(rows: seq<R>, rows': seq<R>, key: R -> Cursor, cursor: Option<Cursor>,
                      matters: R -> bool, has: R -> bool, i: nat, last: nat)
    requires IsTable(rows, key) && Arrival(rows, rows', key, cursor) && IsPrefix(rows, matters, has)
    requires InOrder(rows, rows', key, matters, has)
    requires i <= last < |rows'| && matters(rows'[i]) && matters(rows'[last]) && has(rows'[last]) && rows'[last] in rows
    ensures has(rows'[i])
  {
    var k :| 0 <= k < |rows| && rows[k] == rows'[last];
    assert i < last ==> Less(key(rows'[i]), key(rows'[last]));
    assert rows'[i] in rows;
    var j :| 0 <= j < |rows| && rows[j] == rows'[i];
    assert j > k ==> Less(key(rows[k]), key(rows[j]));
    var p: nat :| PrefixAt(rows, matters, has, p);
  }

  lemma PrefixIsOrdered<R>(rows: seq<R>, rows': seq<R>, key: R -> Cursor, cursor: Option<Cursor>,
                           matters: R -> bool, has: R -> bool, p: nat)
    requires IsTable(rows, key) && Arrival(rows, rows', key, cursor) && PrefixAt(rows', matters, has, p)
    requires forall i :: 0 <= i < |rows'| && matters(rows'[i]) && has(rows'[i]) ==> rows'[i] in rows
    ensures InOrder(rows, rows', key, matters, has)
  {
    forall i, j | 0 <= i < |rows'| && 0 <= j < |rows| && rows'[i] !in rows && matters(rows'[i])
      && matters(rows[j]) && has(rows[j])
      ensures Less(key(rows[j]), key(rows'[i]))
    {
      assert rows[j] in rows';
      var k :| 0 <= k < |rows'| && rows'[k] == rows[j];
      assert k < i ==> Less(key(rows'[k]), key(rows'[i]));
    }
  }
}
