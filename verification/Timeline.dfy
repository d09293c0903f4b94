/** The wallet timeline: three bounded lists merged, against the full history sorted. */
module Timeline {
  import opened Domain
  import opened StableSort
  import Spec = MemorySpec

  datatype Entry =
    | DepositEntry(deposit: Deposit)
    | WithdrawalEntry(withdrawalId: nat, withdrawal: Withdrawal)
    | TransferEntry(txId: nat, tx: LedgerTx)

  function CreatedAt(e: Entry): Instant {
    match e
    case DepositEntry(d) => d.createdAt
    case WithdrawalEntry(_, w) => w.createdAt
    case TransferEntry(_, tx) => tx.createdAt
  }

  /** `right.createdAt.localeCompare(left.createdAt)` */
  function NewestFirst(): Entry -> int {
    (e: Entry) => 0 - CreatedAt(e)
  }

  // ---------- A user's history, in insertion order ----------

  function DepositsOf(ds: seq<Deposit>, u: UserId): seq<Entry> {
    if ds == [] then []
    else
      var last := ds[|ds| - 1];
      DepositsOf(ds[..|ds| - 1], u) + if last.userId == u then [DepositEntry(last)] else []
  }

  function WithdrawalsOf(ws: seq<Withdrawal>, u: UserId): seq<Entry> {
    if ws == [] then []
    else
      var last := |ws| - 1;
      WithdrawalsOf(ws[..last], u) + if ws[last].userId == u then [WithdrawalEntry(last, ws[last])] else []
  }

  predicate IsTransferOf(tx: LedgerTx, u: UserId) {
    tx.userId == u && (tx.txType == TransferInTx || tx.txType == TransferOutTx)
  }

  function TransfersOf(txs: seq<LedgerTx>, u: UserId): seq<Entry> {
    if txs == [] then []
    else
      var last := |txs| - 1;
      TransfersOf(txs[..last], u) + if IsTransferOf(txs[last], u) then [TransferEntry(last, txs[last])] else []
  }

  function History(m: Spec.Memory, u: UserId): seq<Entry> {
    DepositsOf(m.deposits, u) + WithdrawalsOf(m.withdrawals, u) + TransfersOf(m.transactions, u)
  }

  // ---------- getTimeline ----------

  /** `listDepositsByUser`, `listWithdrawalsByUser`, `listTransactionsByUser`: newest first, cut. */
  function Listed(entries: seq<Entry>, limit: nat): seq<Entry> {
    Take(limit, Sort(entries, NewestFirst()))
  }

  function FetchLimit(limit: nat): nat {
    if limit * 2 <= 200 then limit * 2 else 200
  }

  function GetTimeline(m: Spec.Memory, u: UserId, limit: nat): seq<Entry> {
    var fetch := FetchLimit(limit);
    Take(limit, Sort(Listed(DepositsOf(m.deposits, u), fetch) + Listed(WithdrawalsOf(m.withdrawals, u), fetch)
                     + Listed(TransfersOf(m.transactions, u), fetch), NewestFirst()))
  }

  /** What the timeline is meant to show: the newest `limit` entries of everything, ties in the order
      deposits, withdrawals, transfers. */
  function FullTimeline(m: Spec.Memory, u: UserId, limit: nat): seq<Entry> {
    Take(limit, Sort(History(m, u), NewestFirst()))
  }

  // ---------- Cutting before merging ----------

  lemma TakeSorted(k: nat, s: seq<Entry>)
    requires Sorted(s, NewestFirst())
    ensures Sorted(Take(k, s), NewestFirst())
  {
  }

  lemma SortThree(a: seq<Entry>, b: seq<Entry>, c: seq<Entry>)
    ensures var key := NewestFirst();
            Sort(a + b + c, key) == Merge(Merge(Sort(a, key), Sort(b, key), key), Sort(c, key), key)
  {
    SortConcat(a + b, c, NewestFirst());
    SortConcat(a, b, NewestFirst());
  }

  /** Three lists each cut to k >= n give the same first n as the whole lists, ties included. */
  lemma CutThree(n: nat, k: nat, a: seq<Entry>, b: seq<Entry>, c: seq<Entry>)
    requires n <= k
    ensures Take(n, Sort(Listed(a, k) + Listed(b, k) + Listed(c, k), NewestFirst()))
            == Take(n, Sort(a + b + c, NewestFirst()))
  {
    hide Sort, Merge;
    var key := NewestFirst();
    var sa, sb, sc := Sort(a, key), Sort(b, key), Sort(c, key);
    var a', b', c' := Take(k, sa), Take(k, sb), Take(k, sc);
    SortIsSorted(a, key);
    SortIsSorted(b, key);
    SortIsSorted(c, key);
    TakeSorted(k, sa);
    TakeSorted(k, sb);
    TakeSorted(k, sc);
    SortThree(a, b, c);
    SortThree(a', b', c');
    SortOfSorted(a', key);
    SortOfSorted(b', key);
    SortOfSorted(c', key);
    TakeMerge(k, k, sa, sb, key);
    TakeMerge(n, k, Merge(sa, sb, key), sc, key);
    TakeMerge(n, k, Merge(a', b', key), c', key);
    assert Take(k, c') == c';
  }

  /** Up to 200 entries the bounded timeline is exactly the newest part of the full history. */
  lemma TimelineExact(m: Spec.Memory, u: UserId, limit: nat)
    requires limit <= 200
    ensures GetTimeline(m, u, limit) == FullTimeline(m, u, limit)
  {
    hide Sort;
    CutThree(limit, FetchLimit(limit), DepositsOf(m.deposits, u), WithdrawalsOf(m.withdrawals, u),
             TransfersOf(m.transactions, u));
  }

  // ---------- Beyond 200 ----------

  /** The hash of deposit number i. */
  function Hash(i: nat): string {
    seq(i, _ => 'h')
  }

  /** A run of n deposits of one user. */
  function Deposits(u: UserId, n: nat): (ops: seq<Spec.MemoryOp>)
    ensures |ops| == n
  {
    if n == 0 then [] else Deposits(u, n - 1) + [Spec.Ledger(DepositOp(u, 0, Hash(n - 1), 0, 0))]
  }

  /** All deposits are of one user, each under its own hash, and there is nothing else. */
  ghost predicate OnlyDeposits(m: Spec.Memory, u: UserId, n: nat) {
    && |m.deposits| == n && (forall i :: 0 <= i < n ==> m.deposits[i].userId == u && |m.deposits[i].txHash| == i)
    && m.withdrawals == []
    && (forall i :: 0 <= i < |m.transactions| ==> m.transactions[i].txType == DepositTx)
  }

  lemma OneMoreDeposit(m: Spec.Memory, u: UserId, n: nat)
    requires OnlyDeposits(m, u, n)
    ensures OnlyDeposits(Spec.ApplyDeposit(m, u, 0, Hash(n), 0, 0).0, u, n + 1)
  {
    hide AccountOf, Adjust, IndexWhere;
    assert forall i :: 0 <= i < |m.deposits| ==> !HashIs(Hash(n))(m.deposits[i]);
  }

  lemma {:induction false} DepositsRun(limits: Limits, u: UserId, n: nat)
    ensures OnlyDeposits(Spec.Run(limits, Deposits(u, n)), u, n)
  {
    hide OnlyDeposits, Spec.ApplyDeposit, Hash;
    if n == 0 {
      NoDeposits(u);
    } else {
      DepositsRun(limits, u, n - 1);
      assert Deposits(u, n)[..n - 1] == Deposits(u, n - 1);
      OneMoreDeposit(Spec.Run(limits, Deposits(u, n - 1)), u, n - 1);
    }
  }

  lemma NoDeposits(u: UserId)
    ensures OnlyDeposits(Spec.EMPTY, u, 0)
  {
  }

  lemma {:induction false} DepositCount(ds: seq<Deposit>, u: UserId)
    requires forall i :: 0 <= i < |ds| ==> ds[i].userId == u
    ensures |DepositsOf(ds, u)| == |ds|
  {
    if ds != [] {
      DepositCount(ds[..|ds| - 1], u);
    }
  }

  lemma {:induction false} NoTransfers(txs: seq<LedgerTx>, u: UserId)
    requires forall i :: 0 <= i < |txs| ==> txs[i].txType == DepositTx
    ensures TransfersOf(txs, u) == []
  {
    if txs != [] {
      NoTransfers(txs[..|txs| - 1], u);
    }
  }

  /** After that many deposits a limit above 200 shows 200 entries of as many as asked for. */
  lemma LongHistoryCut(limits: Limits, u: UserId, limit: nat)
    requires limit > 200
    ensures var m := Spec.Run(limits, Deposits(u, limit));
            |GetTimeline(m, u, limit)| == 200 && |FullTimeline(m, u, limit)| == limit
  {
    hide Sort, Spec.Run;
    var m := Spec.Run(limits, Deposits(u, limit));
    DepositsRun(limits, u, limit);
    DepositCount(m.deposits, u);
    NoTransfers(m.transactions, u);
    var entries := DepositsOf(m.deposits, u);
    assert History(m, u) == entries;
    SortMembers(entries, NewestFirst());
    var cut := Listed(entries, FetchLimit(limit));
    assert Listed([], FetchLimit(limit)) == [] by { SortMembers<Entry>([], NewestFirst()); }
    assert cut + [] + [] == cut;
    SortMembers(cut, NewestFirst());
  }

  /** The timeline is exact in every reachable state exactly when the limit is at most 200. */
  lemma ExactUpTo200(u: UserId, limit: nat)
    ensures (forall limits, ops ::
               GetTimeline(Spec.Run(limits, ops), u, limit) == FullTimeline(Spec.Run(limits, ops), u, limit))
            <==> limit <= 200
  {
    hide Sort, GetTimeline, FullTimeline, Spec.Run;
    if limit <= 200 {
      forall limits, ops
        ensures GetTimeline(Spec.Run(limits, ops), u, limit) == FullTimeline(Spec.Run(limits, ops), u, limit)
      {
        TimelineExact(Spec.Run(limits, ops), u, limit);
      }
    } else {
      LongHistoryCut(Limits(0, 0), u, limit);
    }
  }
}
