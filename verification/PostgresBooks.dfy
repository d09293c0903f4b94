/** Journals, the fold and the cached account rows: what appending balanced journals and
    synchronising the touched users keeps. */
module PostgresBooks {
  import opened Domain
  import opened Sums
  import opened PostgresSpec

  // ---------- Double entry ----------

  function Signed(): Posting -> int {
    (p: Posting) => if p.side == Credit then p.amount else 0 - p.amount
  }

  /** Credits equal debits. */
  predicate Balanced(ps: seq<Posting>) {
    SumBy(ps, Signed()) == 0
  }

  function JournalSigned(currency: Currency): Journal -> int {
    (j: Journal) => if j.currency == currency then SumBy(j.postings, Signed()) else 0
  }

  /** All credits minus all debits in one currency. */
  function TrialBalance(js: seq<Journal>, currency: Currency): int {
    SumBy(js, JournalSigned(currency))
  }

  ghost predicate AllBalanced(js: seq<Journal>) {
    forall i :: 0 <= i < |js| ==> Balanced(js[i].postings)
  }

  lemma {:induction false} BalancedTrial(js: seq<Journal>, currency: Currency)
    requires AllBalanced(js)
    ensures TrialBalance(js, currency) == 0
  {
    if js != [] {
      BalancedTrial(js[..|js| - 1], currency);
    }
  }

  // ---------- The fold ----------

  lemma PairSum(p: Posting, q: Posting, f: Posting -> int)
    ensures SumBy([p, q], f) == f(p) + f(q)
  {
    assert [p, q][..1] == [p] && [p][..0] == [];
    assert SumBy([p], f) == f(p);
  }

  lemma NetAppend(js: seq<Journal>, j: Journal, a: LedgerAccount)
    ensures Net(js + [j], a) == Net(js, a) + SumBy(j.postings, EffectOn(a))
  {
    SumAppend(js, j, JournalEffect(a));
  }

  /** A move is balanced and changes its two accounts by its amount, nothing else. */
  lemma MoveEffect(debit: LedgerAccount, credit: LedgerAccount, amount: nat)
    ensures Balanced(Move(debit, credit, amount))
    ensures forall a :: SumBy(Move(debit, credit, amount), EffectOn(a))
                        == (if a == credit then amount as int else 0) - (if a == debit then amount as int else 0)
  {
    var p, q := Posting(debit, Debit, amount), Posting(credit, Credit, amount);
    PairSum(p, q, Signed());
    forall a ensures SumBy(Move(debit, credit, amount), EffectOn(a))
                     == (if a == credit then amount as int else 0) - (if a == debit then amount as int else 0)
    {
      PairSum(p, q, EffectOn(a));
    }
  }

  lemma NetMove(js: seq<Journal>, j: Journal, debit: LedgerAccount, credit: LedgerAccount, amount: nat)
    requires j.postings == Move(debit, credit, amount)
    ensures forall a :: Net(js + [j], a) == Net(js, a) + (if a == credit then amount as int else 0)
                                            - (if a == debit then amount as int else 0)
  {
    MoveEffect(debit, credit, amount);
    forall a ensures Net(js + [j], a) == Net(js, a) + (if a == credit then amount as int else 0)
                                         - (if a == debit then amount as int else 0)
    {
      NetAppend(js, j, a);
    }
  }

  /** A user without postings has a zero projection. */
  lemma NoPostingsZero(js: seq<Journal>, u: UserId)
    requires !HasPostings(js, u)
    ensures Projected(js, u) == ZERO_ACCOUNT
  {
    forall a | IsOf(a, u) ensures Net(js, a) == 0 {
      forall j | j in js ensures JournalEffect(a)(j) == 0 {
        NotPostedZero(j, u, a);
      }
      SumZero(js, JournalEffect(a));
    }
    assert IsOf(Available(u), u) && IsOf(WithdrawPending(u), u) && IsOf(OfflinePending(u), u);
  }

  lemma NotPostedZero(j: Journal, u: UserId, a: LedgerAccount)
    requires !PostsTo(j, u) && IsOf(a, u)
    ensures SumBy(j.postings, EffectOn(a)) == 0
  {
    SumZero(j.postings, EffectOn(a));
  }

  lemma UntouchedProjection(js: seq<Journal>, j: Journal, u: UserId)
    requires !PostsTo(j, u)
    ensures Projected(js + [j], u) == Projected(js, u)
    ensures HasPostings(js + [j], u) == HasPostings(js, u)
  {
    forall a | IsOf(a, u) ensures Net(js + [j], a) == Net(js, a) {
      NetAppend(js, j, a);
      NotPostedZero(j, u, a);
    }
    assert IsOf(Available(u), u) && IsOf(WithdrawPending(u), u) && IsOf(OfflinePending(u), u);
    var js' := js + [j];
    if HasPostings(js, u) {
      var i :| 0 <= i < |js| && PostsTo(js[i], u);
      assert PostsTo(js'[i], u);
    }
  }

  // ---------- Cached rows and footprints ----------

  /** The row of user u, if there is one, is the fold of u's postings; a user with postings has a row. */
  ghost predicate RowIsFold(t: Tables, u: UserId) {
    && (u in t.accounts ==> t.accounts[u] == Projected(t.journals, u))
    && (HasPostings(t.journals, u) ==> u in t.accounts)
  }

  ghost predicate Cached(t: Tables) {
    forall u :: RowIsFold(t, u)
  }

  ghost predicate Posted(js: seq<Journal>, a: LedgerAccount) {
    exists i :: 0 <= i < |js| && a in PostedAccounts(js[i].postings)
  }

  ghost predicate Footprints(t: Tables) {
    forall a :: a in t.ledgerAccounts <==> Posted(t.journals, a)
  }

  /** The footprint test is exactly "has at least one posting". */
  lemma FootprintIsPosting(t: Tables, u: UserId)
    requires Footprints(t)
    ensures HasFootprint(t, u) <==> HasPostings(t.journals, u)
  {
    if HasFootprint(t, u) {
      var a :| IsOf(a, u) && a in t.ledgerAccounts;
      var i :| 0 <= i < |t.journals| && a in PostedAccounts(t.journals[i].postings);
      var p :| p in t.journals[i].postings && p.account == a;
      var k :| 0 <= k < |t.journals[i].postings| && t.journals[i].postings[k] == p;
      assert PostsTo(t.journals[i], u);
    }
    if HasPostings(t.journals, u) {
      var i :| 0 <= i < |t.journals| && PostsTo(t.journals[i], u);
      var k :| 0 <= k < |t.journals[i].postings| && IsOf(t.journals[i].postings[k].account, u);
      var p := t.journals[i].postings[k];
      assert p in t.journals[i].postings && p.account in PostedAccounts(t.journals[i].postings);
      assert Posted(t.journals, p.account);
    }
  }

  /** Rows are folds for everybody but the users still to be synchronised, who have rows. */
  ghost predicate CachedBut(t: Tables, users: seq<UserId>) {
    && (forall u :: u !in users ==> RowIsFold(t, u))
    && (forall u :: u in users ==>
          u in t.accounts && (!HasPostings(t.journals, u) ==> t.accounts[u] == ZERO_ACCOUNT))
  }

  lemma EnsureCached(t: Tables, u: UserId)
    requires Cached(t)
    ensures Cached(Ensure(t, u))
  {
    forall v ensures RowIsFold(Ensure(t, u), v) {
      assert RowIsFold(t, v);
      if !HasPostings(t.journals, v) {
        NoPostingsZero(t.journals, v);
      }
    }
  }

  lemma StartSync(t: Tables, users: seq<UserId>)
    requires Cached(t) && forall u :: u in users ==> u in t.accounts
    ensures CachedBut(t, users)
  {
    forall u | u in users && !HasPostings(t.journals, u) ensures t.accounts[u] == ZERO_ACCOUNT {
      assert RowIsFold(t, u);
      NoPostingsZero(t.journals, u);
    }
    forall u | u !in users ensures RowIsFold(t, u) {
    }
  }

  lemma AppendCachedBut(t: Tables, users: seq<UserId>, reference: Reference, currency: Currency, ps: seq<Posting>,
                        now: Instant)
    requires CachedBut(t, users)
    requires forall u :: PostsTo(Journal(reference, currency, ps, now), u) ==> u in users
    ensures CachedBut(AppendJournal(t, reference, currency, ps, now), users)
  {
    var j := Journal(reference, currency, ps, now);
    var t' := AppendJournal(t, reference, currency, ps, now);
    forall u | !PostsTo(j, u)
      ensures RowIsFold(t, u) ==> RowIsFold(t', u)
      ensures HasPostings(t'.journals, u) == HasPostings(t.journals, u)
    {
      UntouchedProjection(t.journals, j, u);
    }
    forall u | PostsTo(j, u) ensures HasPostings(t'.journals, u) {
      assert PostsTo(t'.journals[|t.journals|], u);
    }
  }

  lemma SyncRestores(t: Tables, users: seq<UserId>)
    requires CachedBut(t, users)
    ensures Cached(Sync(t, users))
  {
    var t' := Sync(t, users);
    forall u ensures RowIsFold(t', u) {
      if u !in users {
        assert RowIsFold(t, u);
      } else if !HasPostings(t.journals, u) {
        NoPostingsZero(t.journals, u);
      }
    }
  }

  lemma AppendFootprints(t: Tables, reference: Reference, currency: Currency, ps: seq<Posting>, now: Instant)
    requires Footprints(t)
    ensures Footprints(AppendJournal(t, reference, currency, ps, now))
  {
    var t' := AppendJournal(t, reference, currency, ps, now);
    forall a ensures a in t'.ledgerAccounts <==> Posted(t'.journals, a) {
      assert a in t.ledgerAccounts <==> Posted(t.journals, a);
      if Posted(t.journals, a) {
        var i :| 0 <= i < |t.journals| && a in PostedAccounts(t.journals[i].postings);
        assert t'.journals[i] == t.journals[i];
      }
      assert t'.journals[|t.journals|].postings == ps;
    }
  }

  /** The three properties of the books that every transaction keeps. */
  ghost predicate Books(t: Tables) {
    Cached(t) && Footprints(t) && AllBalanced(t.journals)
  }

  /** Books but for the rows of the users the current transaction has yet to synchronise. */
  ghost predicate BooksBut(t: Tables, users: seq<UserId>) {
    CachedBut(t, users) && Footprints(t) && AllBalanced(t.journals)
  }

  lemma OpenBooks(t: Tables, users: seq<UserId>)
    requires Books(t) && forall u :: u in users ==> u in t.accounts
    ensures BooksBut(t, users)
  {
    StartSync(t, users);
  }

  lemma EnsureBooks(t: Tables, u: UserId)
    requires Books(t)
    ensures Books(Ensure(t, u))
  {
    EnsureCached(t, u);
  }

  lemma AppendBooks(t: Tables, users: seq<UserId>, reference: Reference, currency: Currency, ps: seq<Posting>,
                    now: Instant)
    requires BooksBut(t, users) && Balanced(ps)
    requires forall u :: PostsTo(Journal(reference, currency, ps, now), u) ==> u in users
    ensures BooksBut(AppendJournal(t, reference, currency, ps, now), users)
  {
    AppendCachedBut(t, users, reference, currency, ps, now);
    AppendFootprints(t, reference, currency, ps, now);
  }

  lemma CloseBooks(t: Tables, users: seq<UserId>)
    requires BooksBut(t, users)
    ensures Books(Sync(t, users))
  {
    SyncRestores(t, users);
  }

  lemma MovePostsTo(reference: Reference, currency: Currency, debit: LedgerAccount, credit: LedgerAccount, amount: nat,
                    now: Instant)
    ensures forall u :: PostsTo(Journal(reference, currency, Move(debit, credit, amount), now), u)
                        <==> IsOf(debit, u) || IsOf(credit, u)
  {
    var j := Journal(reference, currency, Move(debit, credit, amount), now);
    assert j.postings[0].account == debit && j.postings[1].account == credit;
  }

  /** One move between synchronised users keeps the books. */
  lemma PostMoveBooks(t: Tables, users: seq<UserId>, reference: Reference, debit: LedgerAccount, credit: LedgerAccount,
                      amount: nat, now: Instant)
    requires Books(t) && forall u :: u in users ==> u in t.accounts
    requires forall u :: IsOf(debit, u) || IsOf(credit, u) ==> u in users
    ensures Books(Post(t, reference, Move(debit, credit, amount), users, now))
  {
    OpenBooks(t, users);
    MoveEffect(debit, credit, amount);
    MovePostsTo(reference, Kori, debit, credit, amount, now);
    AppendBooks(t, users, reference, Kori, Move(debit, credit, amount), now);
    CloseBooks(AppendJournal(t, reference, Kori, Move(debit, credit, amount), now), users);
  }

  /** With the cache in order, what a transaction reads as the current balance is the fold. */
  lemma CurrentIsProjected(t: Tables, u: UserId)
    requires Cached(t)
    ensures CurrentBalances(t, u) == CurrentBalances(Ensure(t, u), u) == Projected(t.journals, u)
  {
    assert RowIsFold(t, u);
    if !HasPostings(t.journals, u) {
      NoPostingsZero(t.journals, u);
    }
  }
}
