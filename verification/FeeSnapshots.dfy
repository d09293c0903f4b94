/** The daily network fee snapshot: two loops, one over receipts and one over journals, whose
    results agree in every reachable state. */
module FeeSnapshots {
  import opened Domain
  import opened Sums
  import opened FeeBooks
  import Spec = MemorySpec
  import StableSort

  // ---------- The snapshot of one day, as sums ----------

  datatype Part = Part(ledgerFee: int, actualFee: int, ledgerCount: int, actualCount: int)

  datatype Snapshot = Snapshot(day: nat, total: Part, withdrawals: Part, sweeps: Part)

  function Gap(s: Snapshot): int {
    s.total.actualFee - s.total.ledgerFee
  }

  predicate Concerns(source: FeeSource, wanted: Option<FeeSource>) {
    wanted.None? || wanted.value == source
  }

  function ReceiptFee(day: nat, wanted: Option<FeeSource>): Receipt -> int {
    (r: Receipt) => if DayOf(r.confirmedAt) == day && Concerns(r.key.source, wanted) then r.feeSun else 0
  }

  function ReceiptOne(day: nat, wanted: Option<FeeSource>): Receipt -> int {
    (r: Receipt) => if DayOf(r.confirmedAt) == day && Concerns(r.key.source, wanted) then 1 else 0
  }

  function JournalFee(day: nat, wanted: Option<FeeSource>): FeeJournal -> int {
    (j: FeeJournal) => if j.day == day && Concerns(j.source, wanted) then j.feeSun else 0
  }

  function JournalOne(day: nat, wanted: Option<FeeSource>): FeeJournal -> int {
    (j: FeeJournal) => if j.day == day && Concerns(j.source, wanted) then 1 else 0
  }

  function PartOf(rs: seq<Receipt>, js: seq<FeeJournal>, day: nat, wanted: Option<FeeSource>): Part {
    Part(SumBy(js, JournalFee(day, wanted)), SumBy(rs, ReceiptFee(day, wanted)),
         SumBy(js, JournalOne(day, wanted)), SumBy(rs, ReceiptOne(day, wanted)))
  }

  function SnapshotOf(rs: seq<Receipt>, js: seq<FeeJournal>, day: nat): Snapshot {
    Snapshot(day, PartOf(rs, js, day, None), PartOf(rs, js, day, Some(ForWithdrawal)), PartOf(rs, js, day, Some(ForSweep)))
  }

  // ---------- The two loops ----------

  const NOTHING := Part(0, 0, 0, 0)

  function AddActual(p: Part, fee: nat): Part {
    p.(actualFee := p.actualFee + fee, actualCount := p.actualCount + 1)
  }

  function AddLedger(p: Part, fee: nat): Part {
    p.(ledgerFee := p.ledgerFee + fee, ledgerCount := p.ledgerCount + 1)
  }

  /** The days seen so far, each once, each with its exact sums; and no receipt or journal of
      another day. */
  ghost predicate Tallied(list: seq<Snapshot>, rs: seq<Receipt>, js: seq<FeeJournal>) {
    && (forall a, b :: 0 <= a < b < |list| ==> list[a].day != list[b].day)
    && (forall a :: 0 <= a < |list| ==> list[a] == SnapshotOf(rs, js, list[a].day))
    && (forall i :: 0 <= i < |rs| ==> HasDay(list, DayOf(rs[i].confirmedAt)))
    && (forall i :: 0 <= i < |js| ==> HasDay(list, js[i].day))
  }

  ghost predicate HasDay(list: seq<Snapshot>, day: nat) {
    exists a :: 0 <= a < |list| && list[a].day == day
  }

  /** Some receipt or journal is of that day. */
  ghost predicate HasRecord(rs: seq<Receipt>, js: seq<FeeJournal>, day: nat) {
    || (exists i :: 0 <= i < |rs| && DayOf(rs[i].confirmedAt) == day)
    || (exists i :: 0 <= i < |js| && js[i].day == day)
  }

  /** No day is listed without a record. */
  ghost predicate Recorded(list: seq<Snapshot>, rs: seq<Receipt>, js: seq<FeeJournal>) {
    forall a :: 0 <= a < |list| ==> HasRecord(rs, js, list[a].day)
  }

  lemma {:induction false} UnseenDay(list: seq<Snapshot>, rs: seq<Receipt>, js: seq<FeeJournal>, day: nat)
    requires Tallied(list, rs, js) && !HasDay(list, day)
    ensures SnapshotOf(rs, js, day) == Snapshot(day, NOTHING, NOTHING, NOTHING)
  {
    forall wanted: Option<FeeSource> ensures PartOf(rs, js, day, wanted) == NOTHING {
      SumZero(js, JournalFee(day, wanted));
      SumZero(rs, ReceiptFee(day, wanted));
      SumZero(js, JournalOne(day, wanted));
      SumZero(rs, ReceiptOne(day, wanted));
    }
  }

  lemma OneMoreReceipt(rs: seq<Receipt>, r: Receipt, js: seq<FeeJournal>, day: nat, wanted: Option<FeeSource>)
    ensures PartOf(rs + [r], js, day, wanted) ==
            if DayOf(r.confirmedAt) == day && Concerns(r.key.source, wanted)
            then AddActual(PartOf(rs, js, day, wanted), r.feeSun) else PartOf(rs, js, day, wanted)
  {
    SumAppend(rs, r, ReceiptFee(day, wanted));
    SumAppend(rs, r, ReceiptOne(day, wanted));
  }

  lemma OneMoreJournal(rs: seq<Receipt>, js: seq<FeeJournal>, j: FeeJournal, day: nat, wanted: Option<FeeSource>)
    ensures PartOf(rs, js + [j], day, wanted) ==
            if j.day == day && Concerns(j.source, wanted)
            then AddLedger(PartOf(rs, js, day, wanted), j.feeSun) else PartOf(rs, js, day, wanted)
  {
    SumAppend(js, j, JournalFee(day, wanted));
    SumAppend(js, j, JournalOne(day, wanted));
  }

  /** `ensureSnapshot` */
  method EnsureSnapshot(list: seq<Snapshot>, day: nat, ghost rs: seq<Receipt>, ghost js: seq<FeeJournal>)
    returns (list': seq<Snapshot>, at: nat)
    requires Tallied(list, rs, js) && Recorded(list, rs, js)
    ensures Tallied(list', rs, js) && at < |list'| && list'[at].day == day
    ensures forall a :: 0 <= a < |list'| && a != at ==> HasRecord(rs, js, list'[a].day)
    ensures SumBy(list', DayFee()) == SumBy(list, DayFee())
    ensures SumBy(list', DayLedgerFee()) == SumBy(list, DayLedgerFee())
  {
    hide SumBy, HasRecord, PartOf;
    for i := 0 to |list|
      invariant forall k :: 0 <= k < i ==> list[k].day != day
    {
      if list[i].day == day {
        return list, i;
      }
    }
    UnseenDay(list, rs, js, day);
    var created := Snapshot(day, NOTHING, NOTHING, NOTHING);
    list', at := list + [created], |list|;
    SumAppend(list, created, DayFee());
    SumAppend(list, created, DayLedgerFee());
    forall d | HasDay(list, d) ensures HasDay(list', d) {
      var a :| 0 <= a < |list| && list[a].day == d;
      assert list'[a].day == d;
    }
  }

  function DayFee(): Snapshot -> int {
    (s: Snapshot) => s.total.actualFee
  }

  function DayLedgerFee(): Snapshot -> int {
    (s: Snapshot) => s.total.ledgerFee
  }

  function AnyFee(): Receipt -> int {
    (r: Receipt) => r.feeSun
  }

  function AnyLedgerFee(): FeeJournal -> int {
    (j: FeeJournal) => j.feeSun
  }

  /** All the loops know of their list. */
  ghost predicate Counted(list: seq<Snapshot>, rs: seq<Receipt>, js: seq<FeeJournal>) {
    && Tallied(list, rs, js)
    && Recorded(list, rs, js)
    && SumBy(list, DayFee()) == SumBy(rs, AnyFee())
    && SumBy(list, DayLedgerFee()) == SumBy(js, AnyLedgerFee())
  }

  lemma CountedReceipt(list: seq<Snapshot>, at: nat, s: Snapshot, rs: seq<Receipt>, r: Receipt, js: seq<FeeJournal>)
    requires Tallied(list, rs, js) && at < |list| && list[at].day == DayOf(r.confirmedAt)
    requires forall a :: 0 <= a < |list| && a != at ==> HasRecord(rs, js, list[a].day)
    requires SumBy(list, DayFee()) == SumBy(rs, AnyFee())
    requires SumBy(list, DayLedgerFee()) == SumBy(js, AnyLedgerFee())
    requires s == list[at].(
               total := AddActual(list[at].total, r.feeSun),
               withdrawals := if r.key.source == ForWithdrawal
                              then AddActual(list[at].withdrawals, r.feeSun) else list[at].withdrawals,
               sweeps := if r.key.source == ForSweep
                         then AddActual(list[at].sweeps, r.feeSun) else list[at].sweeps)
    ensures Counted(list[at := s], rs + [r], js)
  {
    hide SumBy, PartOf;
    var list' := list[at := s];
    SumUpdate(list, at, s, DayFee());
    SumUpdate(list, at, s, DayLedgerFee());
    SumAppend(rs, r, AnyFee());
    forall a | 0 <= a < |list'| ensures list'[a] == SnapshotOf(rs + [r], js, list'[a].day) {
      OneMoreReceipt(rs, r, js, list[a].day, None);
      OneMoreReceipt(rs, r, js, list[a].day, Some(ForWithdrawal));
      OneMoreReceipt(rs, r, js, list[a].day, Some(ForSweep));
    }
    SameDays(list, list');
    assert list'[at].day == DayOf(r.confirmedAt);
    RecordsGrow(rs, [r], js, []);
    assert (rs + [r])[|rs|] == r && js + [] == js;
  }

  lemma CountedJournal(list: seq<Snapshot>, at: nat, s: Snapshot, rs: seq<Receipt>, js: seq<FeeJournal>, j: FeeJournal)
    requires Tallied(list, rs, js) && at < |list| && list[at].day == j.day
    requires forall a :: 0 <= a < |list| && a != at ==> HasRecord(rs, js, list[a].day)
    requires SumBy(list, DayFee()) == SumBy(rs, AnyFee())
    requires SumBy(list, DayLedgerFee()) == SumBy(js, AnyLedgerFee())
    requires s == list[at].(
               total := AddLedger(list[at].total, j.feeSun),
               withdrawals := if j.source == ForWithdrawal
                              then AddLedger(list[at].withdrawals, j.feeSun) else list[at].withdrawals,
               sweeps := if j.source == ForSweep
                         then AddLedger(list[at].sweeps, j.feeSun) else list[at].sweeps)
    ensures Counted(list[at := s], rs, js + [j])
  {
    hide SumBy, PartOf;
    var list' := list[at := s];
    SumUpdate(list, at, s, DayFee());
    SumUpdate(list, at, s, DayLedgerFee());
    SumAppend(js, j, AnyLedgerFee());
    forall a | 0 <= a < |list'| ensures list'[a] == SnapshotOf(rs, js + [j], list'[a].day) {
      OneMoreJournal(rs, js, j, list[a].day, None);
      OneMoreJournal(rs, js, j, list[a].day, Some(ForWithdrawal));
      OneMoreJournal(rs, js, j, list[a].day, Some(ForSweep));
    }
    SameDays(list, list');
    assert list'[at].day == j.day;
    RecordsGrow(rs, [], js, [j]);
    assert (js + [j])[|js|] == j && rs + [] == rs;
  }

  lemma RecordsGrow(rs: seq<Receipt>, rs': seq<Receipt>, js: seq<FeeJournal>, js': seq<FeeJournal>)
    ensures forall day :: HasRecord(rs, js, day) ==> HasRecord(rs + rs', js + js', day)
  {
    forall day | HasRecord(rs, js, day) ensures HasRecord(rs + rs', js + js', day) {
      if i :| 0 <= i < |rs| && DayOf(rs[i].confirmedAt) == day {
        assert (rs + rs')[i] == rs[i];
      } else {
        var k :| 0 <= k < |js| && js[k].day == day;
        assert (js + js')[k] == js[k];
      }
    }
  }

  lemma SameDays(list: seq<Snapshot>, list': seq<Snapshot>)
    requires |list| == |list'| && forall a :: 0 <= a < |list| ==> list[a].day == list'[a].day
    ensures forall d :: HasDay(list, d) ==> HasDay(list', d)
  {
    forall d | HasDay(list, d) ensures HasDay(list', d) {
      var a :| 0 <= a < |list| && list[a].day == d;
      assert list'[a].day == d;
    }
  }

  function NewestFirst(): Snapshot -> int {
    (s: Snapshot) => 0 - s.day
  }

  lemma CountedNothing()
    ensures Counted([], [], [])
  {
  }

  /** The newest `days` days of the books, newest first, each with its exact sums. Only days with a
      record are listed, a day left out is older than all of them, and when no day of a receipt (of a
      journal) is cut off the totals add up to all receipts (all journals). */
  ghost predicate AreNewestDays(b: Books, days: nat, result: seq<Snapshot>) {
    && |result| <= days
    && (forall a :: 0 <= a < |result| ==> result[a] == SnapshotOf(b.receipts, b.journals, result[a].day))
    && (forall a, c :: 0 <= a < c < |result| ==> result[a].day > result[c].day)
    && Recorded(result, b.receipts, b.journals)
    && (forall day :: HasRecord(b.receipts, b.journals, day) ==>
          || HasDay(result, day)
          || (|result| == days && forall a :: 0 <= a < |result| ==> result[a].day > day))
    && ((forall i :: 0 <= i < |b.receipts| ==> HasDay(result, DayOf(b.receipts[i].confirmedAt))) ==>
          SumBy(result, DayFee()) == SumBy(b.receipts, AnyFee()))
    && ((forall i :: 0 <= i < |b.journals| ==> HasDay(result, b.journals[i].day)) ==>
          SumBy(result, DayLedgerFee()) == SumBy(b.journals, AnyLedgerFee()))
  }

  /** `listNetworkFeeDailySnapshots` */
  method ListDailySnapshots(b: Books, days: nat) returns (result: seq<Snapshot>)
    ensures AreNewestDays(b, days, result)
  {
    hide Tallied, Recorded, HasRecord, SumBy, SnapshotOf, AreNewestDays;
    var list := [];
    CountedNothing();
    for i := 0 to |b.receipts|
      invariant Counted(list, b.receipts[..i], [])
    {
      var r := b.receipts[i];
      var at: nat;
      list, at := EnsureSnapshot(list, DayOf(r.confirmedAt), b.receipts[..i], []);
      var s := list[at];
      s := s.(total := AddActual(s.total, r.feeSun));
      if r.key.source == ForWithdrawal {
        s := s.(withdrawals := AddActual(s.withdrawals, r.feeSun));
      } else {
        s := s.(sweeps := AddActual(s.sweeps, r.feeSun));
      }
      CountedReceipt(list, at, s, b.receipts[..i], r, []);
      assert b.receipts[..i + 1] == b.receipts[..i] + [r];
      list := list[at := s];
    }
    assert b.receipts[..|b.receipts|] == b.receipts;
    for i := 0 to |b.journals|
      invariant Counted(list, b.receipts, b.journals[..i])
    {
      var j := b.journals[i];
      var at: nat;
      list, at := EnsureSnapshot(list, j.day, b.receipts, b.journals[..i]);
      var s := list[at];
      s := s.(total := AddLedger(s.total, j.feeSun));
      if j.source == ForWithdrawal {
        s := s.(withdrawals := AddLedger(s.withdrawals, j.feeSun));
      } else {
        s := s.(sweeps := AddLedger(s.sweeps, j.feeSun));
      }
      CountedJournal(list, at, s, b.receipts, b.journals[..i], j);
      assert b.journals[..i + 1] == b.journals[..i] + [j];
      list := list[at := s];
    }
    assert b.journals[..|b.journals|] == b.journals;
    var sorted := StableSort.Sort(list, NewestFirst());
    result := StableSort.Take(days, sorted);
    NewestDays(list, sorted, result, days, b);
  }

  lemma DistinctStrict(list: seq<Snapshot>)
    requires forall a, b :: 0 <= a < b < |list| ==> list[a].day != list[b].day
    ensures var sorted := StableSort.Sort(list, NewestFirst());
            forall a, c :: 0 <= a < c < |sorted| ==> sorted[a].day > sorted[c].day
  {
    var sorted := StableSort.Sort(list, NewestFirst());
    StableSort.SortIsSorted(list, NewestFirst());
    StableSort.SortMembers(list, NewestFirst());
    forall a, c | 0 <= a < c < |sorted| ensures sorted[a].day > sorted[c].day {
      assert NewestFirst()(sorted[a]) <= NewestFirst()(sorted[c]);
      if sorted[a].day == sorted[c].day {
        var x, y := sorted[a], sorted[c];
        assert x in list && y in list;
        assert x == y;
        assert multiset(sorted)[x] >= 2 by {
          assert sorted == sorted[..a] + [x] + sorted[a + 1..c] + [x] + sorted[c + 1..];
        }
        OnceOnly(list, x);
      }
    }
  }

  lemma {:induction false} OnceOnly(list: seq<Snapshot>, x: Snapshot)
    requires forall a, b :: 0 <= a < b < |list| ==> list[a].day != list[b].day
    ensures multiset(list)[x] <= 1
  {
    if list != [] {
      var last := |list| - 1;
      OnceOnly(list[..last], x);
      assert list == list[..last] + [list[last]];
      if list[last] == x {
        assert x !in list[..last];
      }
    }
  }

  lemma {:induction false} SumMerge<T>(a: seq<T>, b: seq<T>, key: T -> int, f: T -> int)
    ensures SumBy(StableSort.Merge(a, b, key), f) == SumBy(a, f) + SumBy(b, f)
  {
    if a != [] && b != [] {
      if key(a[0]) <= key(b[0]) {
        SumMerge(a[1..], b, key, f);
        SumConcat([a[0]], StableSort.Merge(a[1..], b, key), f);
        SumConcat([a[0]], a[1..], f);
        assert a == [a[0]] + a[1..];
      } else {
        SumMerge(a, b[1..], key, f);
        SumConcat([b[0]], StableSort.Merge(a, b[1..], key), f);
        SumConcat([b[0]], b[1..], f);
        assert b == [b[0]] + b[1..];
      }
    }
  }

  lemma {:induction false} SumSort<T>(s: seq<T>, key: T -> int, f: T -> int)
    ensures SumBy(StableSort.Sort(s, key), f) == SumBy(s, f)
  {
    if s != [] {
      SumSort(s[1..], key, f);
      SumMerge([s[0]], StableSort.Sort(s[1..], key), key, f);
      SumConcat([s[0]], s[1..], f);
      assert s == [s[0]] + s[1..];
    }
  }

  lemma NewestDays(list: seq<Snapshot>, sorted: seq<Snapshot>, result: seq<Snapshot>, days: nat, b: Books)
    requires Counted(list, b.receipts, b.journals) && sorted == StableSort.Sort(list, NewestFirst())
    requires result == StableSort.Take(days, sorted)
    ensures AreNewestDays(b, days, result)
  {
    hide SumBy, SnapshotOf, StableSort.Sort, HasRecord;
    DistinctStrict(list);
    StableSort.SortMembers(list, NewestFirst());
    SumSort(list, NewestFirst(), DayFee());
    SumSort(list, NewestFirst(), DayLedgerFee());
    forall a | 0 <= a < |sorted|
      ensures sorted[a] == SnapshotOf(b.receipts, b.journals, sorted[a].day)
      ensures HasRecord(b.receipts, b.journals, sorted[a].day)
    {
      assert sorted[a] in list;
    }
    forall day | HasRecord(b.receipts, b.journals, day)
      ensures || HasDay(result, day)
              || (|result| == days && forall a :: 0 <= a < |result| ==> result[a].day > day)
    {
      RecordIsListed(list, b.receipts, b.journals, day);
      var a :| 0 <= a < |list| && list[a].day == day;
      assert list[a] in sorted;
      var c :| 0 <= c < |sorted| && sorted[c] == list[a];
      if c < |result| {
        assert result[c].day == day;
      }
    }
    var cut := sorted[|result|..];
    assert sorted == result + cut;
    SumConcat(result, cut, DayFee());
    SumConcat(result, cut, DayLedgerFee());
    CutIsEmpty(b, result, cut);
  }

  lemma RecordIsListed(list: seq<Snapshot>, rs: seq<Receipt>, js: seq<FeeJournal>, day: nat)
    requires Tallied(list, rs, js) && HasRecord(rs, js, day)
    ensures HasDay(list, day)
  {
    hide SnapshotOf, HasDay;
  }

  /** A day cut off adds nothing when every receipt (every journal) has its day listed. */
  lemma CutIsEmpty(b: Books, result: seq<Snapshot>, cut: seq<Snapshot>)
    requires forall a :: 0 <= a < |cut| ==> cut[a] == SnapshotOf(b.receipts, b.journals, cut[a].day)
    requires forall a, c :: 0 <= a < |cut| && 0 <= c < |result| ==> cut[a].day != result[c].day
    ensures (forall i :: 0 <= i < |b.receipts| ==> HasDay(result, DayOf(b.receipts[i].confirmedAt))) ==>
              SumBy(cut, DayFee()) == 0
    ensures (forall i :: 0 <= i < |b.journals| ==> HasDay(result, b.journals[i].day)) ==>
              SumBy(cut, DayLedgerFee()) == 0
  {
    if forall i :: 0 <= i < |b.receipts| ==> HasDay(result, DayOf(b.receipts[i].confirmedAt)) {
      forall s | s in cut ensures DayFee()(s) == 0 {
        SumZero(b.receipts, ReceiptFee(s.day, None));
      }
      SumZero(cut, DayFee());
    }
    if forall i :: 0 <= i < |b.journals| ==> HasDay(result, b.journals[i].day) {
      forall s | s in cut ensures DayLedgerFee()(s) == 0 {
        SumZero(b.journals, JournalFee(s.day, None));
      }
      SumZero(cut, DayLedgerFee());
    }
  }

  /** The description leaves no choice: two lists that meet it are the same list. */
  lemma NewestDaysUnique(b: Books, days: nat, r1: seq<Snapshot>, r2: seq<Snapshot>)
    requires AreNewestDays(b, days, r1) && AreNewestDays(b, days, r2)
    ensures r1 == r2
  {
    hide SumBy, SnapshotOf, HasRecord;
    var n := if |r1| <= |r2| then |r1| else |r2|;
    SameNewest(b, days, r1, r2, n);
    assert r1[..|r1|] == r1 && r2[..|r2|] == r2;
    if |r1| < |r2| {
      NoMoreDays(b, days, r1, r2);
    } else if |r2| < |r1| {
      NoMoreDays(b, days, r2, r1);
    }
  }

  lemma {:induction false} SameNewest(b: Books, days: nat, r1: seq<Snapshot>, r2: seq<Snapshot>, n: nat)
    requires AreNewestDays(b, days, r1) && AreNewestDays(b, days, r2) && n <= |r1| && n <= |r2|
    ensures r1[..n] == r2[..n]
  {
    hide SumBy, SnapshotOf, HasRecord;
    if n > 0 {
      SameNewest(b, days, r1, r2, n - 1);
      NotOlder(b, days, r1, r2, n - 1);
      NotOlder(b, days, r2, r1, n - 1);
    }
  }

  lemma NotOlder(b: Books, days: nat, r1: seq<Snapshot>, r2: seq<Snapshot>, n: nat)
    requires AreNewestDays(b, days, r1) && AreNewestDays(b, days, r2) && n < |r1| && n < |r2| && r1[..n] == r2[..n]
    ensures r2[n].day >= r1[n].day
  {
    hide SumBy, SnapshotOf, HasRecord;
    assert HasRecord(b.receipts, b.journals, r1[n].day);
    assert forall c :: 0 <= c < n ==> r1[c] == r1[..n][c] == r2[c];
  }

  lemma NoMoreDays(b: Books, days: nat, r1: seq<Snapshot>, r2: seq<Snapshot>)
    requires AreNewestDays(b, days, r1) && AreNewestDays(b, days, r2)
    requires |r1| <= |r2| && r1 == r2[..|r1|]
    ensures |r1| == |r2|
  {
    hide SumBy, SnapshotOf, HasRecord;
    assert forall c :: 0 <= c < |r1| ==> r1[c] == r2[c];
    assert |r1| < |r2| ==> HasRecord(b.receipts, b.journals, r2[|r1|].day);
  }

  // ---------- Receipts and journals match in every reachable state ----------

  ghost predicate Matches(r: Receipt, j: FeeJournal) {
    j.key == r.key && j.day == DayOf(r.confirmedAt) && j.source == r.key.source && j.feeSun == r.feeSun
  }

  ghost predicate Matched(b: Books) {
    |b.receipts| == |b.journals| && forall i :: 0 <= i < |b.receipts| ==> Matches(b.receipts[i], b.journals[i])
  }

  lemma {:induction false} SetMatched(rs: seq<Receipt>, js: seq<FeeJournal>, r: Receipt, j: FeeJournal)
    requires |rs| == |js| && (forall i :: 0 <= i < |rs| ==> Matches(rs[i], js[i])) && Matches(r, j)
    ensures |SetReceipt(rs, r)| == |SetJournal(js, j)|
    ensures forall i :: 0 <= i < |SetReceipt(rs, r)| ==> Matches(SetReceipt(rs, r)[i], SetJournal(js, j)[i])
  {
    if rs != [] && rs[0].key != r.key {
      SetMatched(rs[1..], js[1..], r, j);
    }
  }

  lemma RecordMatched(b: Books, source: FeeSource, id: nat, txHash: string, fee: NetworkFee, now: Instant)
    requires Matched(b)
    ensures Matched(Record(b, source, id, txHash, fee, now))
  {
    var key := FeeKey(source, id, txHash);
    SetMatched(b.receipts, b.journals, Receipt(key, fee.txHash, fee.feeSun, now),
               FeeJournal(key, DayOf(now), source, fee.feeSun));
  }

  lemma SweepMatched(b: Books, op: SweepOp)
    requires Matched(b)
    ensures Matched(SweepStep(b, op))
  {
    hide Record;
    if op.ConfirmSweep? && op.id < |b.sweeps| && op.fee.Some? && b.sweeps[op.id].txHash.Some? {
      var b1 := b.(sweeps := b.sweeps[op.id := b.sweeps[op.id].(status := Confirmed)]);
      RecordMatched(b1, ForSweep, op.id, b.sweeps[op.id].txHash.value, op.fee.value, op.now);
    }
  }

  lemma ConfirmMatched(m: Spec.Memory, id: nat, fee: Option<NetworkFee>, now: Instant)
    requires Matched(m.fees)
    ensures Matched(Spec.Confirm(m, id, fee, now).0.fees)
  {
    hide Record, Matched;
    if id < |m.withdrawals| && fee.Some? && m.withdrawals[id].txHash.Some? {
      RecordMatched(m.fees, ForWithdrawal, id, m.withdrawals[id].txHash.value, fee.value, now);
    }
  }

  lemma StepMatched(m: Spec.Memory, limits: Limits, op: Spec.MemoryOp)
    requires Matched(m.fees)
    ensures Matched(Spec.Step(m, limits, op).fees)
  {
    hide Record, Matched, Spec.Confirm, SweepStep;
    if op.Sweep? {
      SweepMatched(m.fees, op.sweep);
    } else if op.Ledger? && op.op.ConfirmOp? {
      ConfirmMatched(m, op.op.id, op.op.fee, op.op.now);
    }
  }

  lemma {:induction false} EveryRunMatched(limits: Limits, ops: seq<Spec.MemoryOp>)
    ensures Matched(Spec.Run(limits, ops).fees)
  {
    hide Spec.Step;
    if ops != [] {
      EveryRunMatched(limits, ops[..|ops| - 1]);
      StepMatched(Spec.Run(limits, ops[..|ops| - 1]), limits, ops[|ops| - 1]);
    }
  }

  lemma MatchedParts(b: Books, day: nat, wanted: Option<FeeSource>)
    requires Matched(b)
    ensures var p := PartOf(b.receipts, b.journals, day, wanted);
            p.actualFee == p.ledgerFee && p.actualCount == p.ledgerCount
  {
    forall i | 0 <= i < |b.receipts|
      ensures ReceiptFee(day, wanted)(b.receipts[i]) == JournalFee(day, wanted)(b.journals[i])
      ensures ReceiptOne(day, wanted)(b.receipts[i]) == JournalOne(day, wanted)(b.journals[i])
    {
      assert Matches(b.receipts[i], b.journals[i]);
    }
    SumPointwise(b.receipts, b.journals, ReceiptFee(day, wanted), JournalFee(day, wanted));
    SumPointwise(b.receipts, b.journals, ReceiptOne(day, wanted), JournalOne(day, wanted));
  }

  lemma {:induction false} PartsAddUp(rs: seq<Receipt>, js: seq<FeeJournal>, day: nat)
    ensures var s := SnapshotOf(rs, js, day);
      && s.total.actualFee == s.withdrawals.actualFee + s.sweeps.actualFee
      && s.total.actualCount == s.withdrawals.actualCount + s.sweeps.actualCount
      && s.total.ledgerFee == s.withdrawals.ledgerFee + s.sweeps.ledgerFee
      && s.total.ledgerCount == s.withdrawals.ledgerCount + s.sweeps.ledgerCount
    decreases |rs| + |js|
  {
    if rs != [] {
      var r := rs[|rs| - 1];
      PartsAddUp(rs[..|rs| - 1], js, day);
    } else if js != [] {
      PartsAddUp(rs, js[..|js| - 1], day);
    }
  }

  /** In every reachable state every day's snapshot has no gap and equal counts, and its withdrawal
      and sweep parts add up to its totals. */
  lemma FeeBooksAgree(limits: Limits, ops: seq<Spec.MemoryOp>, day: nat)
    ensures var b := Spec.Run(limits, ops).fees;
            var s := SnapshotOf(b.receipts, b.journals, day);
      && Gap(s) == 0 && s.total.actualCount == s.total.ledgerCount
      && s.withdrawals.actualFee == s.withdrawals.ledgerFee && s.sweeps.actualFee == s.sweeps.ledgerFee
      && s.total.actualFee == s.withdrawals.actualFee + s.sweeps.actualFee
      && s.total.actualCount == s.withdrawals.actualCount + s.sweeps.actualCount
  {
    hide Spec.Run, SumBy;
    var b := Spec.Run(limits, ops).fees;
    EveryRunMatched(limits, ops);
    MatchedParts(b, day, None);
    MatchedParts(b, day, Some(ForWithdrawal));
    MatchedParts(b, day, Some(ForSweep));
    PartsAddUp(b.receipts, b.journals, day);
  }
}
