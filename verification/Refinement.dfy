/** The double-entry ledger refines the in-memory ledger: over every run of their common operations
    they hold the same balances, withdrawals, deposits and transactions. */
module Refinement {
  import opened Domain
  import opened Sums
  import M = MemorySpec
  import MI = MemoryInvariants
  import opened PostgresSpec
  import opened PostgresBooks
  import PI = PostgresInvariants
  import OI = OfflineInvariants
  import Text

  type Memory = M.Memory

  // ---------- The simulation relation ----------

  /** Available is `balance`, withdraw-pending is `lockedBalance`, offline-pending is empty. */
  ghost predicate SameBalances(accounts: map<UserId, Account>, js: seq<Journal>) {
    forall u ::
      && AccountOf(accounts, u).balance == Net(js, Available(u))
      && AccountOf(accounts, u).lockedBalance == Net(js, WithdrawPending(u))
      && Net(js, OfflinePending(u)) == 0
  }

  ghost predicate SameRecords(m: Memory, t: Tables) {
    && m.transactions == t.transactions
    && m.deposits == t.deposits
    && |m.withdrawals| == |t.withdrawals|
    && (forall i: nat :: i < |m.withdrawals| ==> SameWithdrawal(m, t, i))
    && (forall i: nat :: M.ApprovalsOf(m, i) == ForWithdrawal(t.approvals, i))
    && (forall i: nat :: i >= |t.withdrawals| ==> ForWithdrawal(t.approvals, i) == [])
  }

  ghost predicate SameWithdrawal(m: Memory, t: Tables, i: nat)
    requires i < |m.withdrawals| && i < |t.withdrawals|
  {
    && m.withdrawals[i] == Hydrated(t, i)
    && t.withdrawals[i].userId in t.accounts
    && (t.withdrawals[i].authProvider.Some? ==> t.withdrawals[i].authConfirmedAt.Some?)
  }

  /** The transfer map points at the two legs of each known key, and unknown keys have no rows. */
  ghost predicate TransferIndexed(m: Memory) {
    forall key ::
      if key in m.transferByKey
      then && IndexWhere(m.transactions, IsTransferLeg(key, TransferOutTx)) == Some(m.transferByKey[key].0)
           && IndexWhere(m.transactions, IsTransferLeg(key, TransferInTx)) == Some(m.transferByKey[key].1)
      else NoTransferRow(m.transactions, key)
  }

  ghost predicate NoTransferRow(txs: seq<LedgerTx>, key: string) {
    forall i :: 0 <= i < |txs| ==> !IsTransferRow(key)(txs[i])
  }

  /** An external reference is credited in memory exactly when a journal carries it. */
  ghost predicate SameCredits(m: Memory, t: Tables) {
    forall reference: Reference :: reference.refType.RefOther? ==>
      (IndexWhere(m.credits, CreditRefersTo(reference)).Some? <==> FindJournal(t, reference).Some?)
  }

  ghost predicate Sim(m: Memory, t: Tables) {
    SameBalances(m.accounts, t.journals) && SameRecords(m, t) && TransferIndexed(m) && SameCredits(m, t)
  }

  // ---------- Replies ----------

  /** Equal, or both refusals; a duplicated credit is answered from the request by one ledger and
      from the record by the other. */
  predicate Agree(inMemory: Reply, postgres: Reply) {
    || inMemory == postgres
    || (inMemory.Refused? && postgres.Refused?)
    || (inMemory.CreditReply? && postgres.CreditReply? && inMemory.duplicated && postgres.duplicated
        && inMemory.credit.reference == postgres.credit.reference)
  }

  /** The repeated calls that one ledger answers as duplicates and the other refuses. */
  predicate RepliesDiffer(m: Memory, limits: Limits, op: Op) {
    || (op.TransferOp? && op.key in m.transferByKey && op.fromUser == op.toUser)
    || (op.RequestOp? && op.key in m.withdrawalByKey && op.amount > limits.singleLimit)
  }

  /** The credits both ledgers treat alike: KORI, under a reference type of the caller's own. */
  predicate Common(op: Op) {
    op.CreditOp? && op.credit > 0 ==>
      Text.NormalizeCode(op.currency) == "KORI" && op.reference.refType.RefOther?
  }

  // ---------- Positions ----------

  lemma TransferRows(m: Memory, key: string)
    requires TransferIndexed(m)
    ensures SumBy(m.transactions, CountRow(IsTransferRow(key))) >= 2 <==> key in m.transferByKey
  {
    var f := CountRow(IsTransferRow(key));
    if key in m.transferByKey {
      var (a, b) := m.transferByKey[key];
      assert IsTransferLeg(key, TransferOutTx)(m.transactions[a]) && IsTransferLeg(key, TransferInTx)(m.transactions[b]);
      TwoTerms(m.transactions, a, b, f);
    } else {
      assert NoTransferRow(m.transactions, key);
      SumZero(m.transactions, f);
    }
  }

  lemma {:induction false} TwoTerms<T>(s: seq<T>, a: nat, b: nat, f: T -> int)
    requires a < |s| && b < |s| && a != b
    requires forall x :: x in s ==> f(x) >= 0
    ensures SumBy(s, f) >= f(s[a]) + f(s[b])
  {
    var last := |s| - 1;
    assert s[last] in s;
    if a == last {
      SumAtLeast(s[..last], b, f);
    } else if b == last {
      SumAtLeast(s[..last], a, f);
    } else {
      TwoTerms(s[..last], a, b, f);
    }
  }

  lemma WithdrawalRows(m: Memory, t: Tables, key: string)
    requires MI.Indexed(m) && SameRecords(m, t)
    ensures IndexWhere(t.withdrawals, KeyIs(key)) ==
            if key in m.withdrawalByKey then Some(m.withdrawalByKey[key]) else None
  {
    var found := IndexWhere(t.withdrawals, KeyIs(key));
    if found.Some? {
      assert SameWithdrawal(m, t, found.value);
      assert MI.IsIndexed(m, m.withdrawals[found.value], found.value);
    }
    if key in m.withdrawalByKey {
      assert SameWithdrawal(m, t, m.withdrawalByKey[key]);
    }
  }

  lemma {:induction false} ApprovalRows(rows: seq<Approval>, id: nat, adminId: string)
    ensures IndexWhere(rows, IsApprovalBy(id, adminId)).Some? <==> M.HasApproved(ForWithdrawal(rows, id), adminId)
  {
    if rows != [] {
      var last := rows[|rows| - 1];
      var before := ForWithdrawal(rows[..|rows| - 1], id);
      ApprovalRows(rows[..|rows| - 1], id, adminId);
      if last.withdrawalId == id {
        var after := before + [last];
        assert M.HasApproved(after, adminId) <==> M.HasApproved(before, adminId) || last.adminId == adminId by {
          assert after[|before|] == last;
          assert forall i :: 0 <= i < |before| ==> after[i] == before[i];
        }
      } else {
        assert before + [] == before;
      }
    }
  }

  lemma DailyAgrees(m: Memory, t: Tables, u: UserId, day: nat)
    requires SameRecords(m, t)
    ensures DailyRequested(m.withdrawals, u, day) == DailyRequested(t.withdrawals, u, day)
  {
    forall i | 0 <= i < |m.withdrawals|
      ensures CountedOn(u, day)(m.withdrawals[i]) == CountedOn(u, day)(t.withdrawals[i])
    {
      assert SameWithdrawal(m, t, i);
    }
    SumPointwise(m.withdrawals, t.withdrawals, CountedOn(u, day), CountedOn(u, day));
  }

  // ---------- Keeping the parts ----------

  lemma BalancesAfterMove(accounts: map<UserId, Account>, accounts': map<UserId, Account>, js: seq<Journal>,
                          js': seq<Journal>, reference: Reference, debit: LedgerAccount, credit: LedgerAccount,
                          n: nat, now: Instant)
    requires SameBalances(accounts, js) && !debit.OfflinePending? && !credit.OfflinePending?
    requires js' == js + [Journal(reference, Kori, Move(debit, credit, n), now)]
    requires forall u ::
      && AccountOf(accounts', u).balance == AccountOf(accounts, u).balance
           + (if credit == Available(u) then n as int else 0) - (if debit == Available(u) then n as int else 0)
      && AccountOf(accounts', u).lockedBalance == AccountOf(accounts, u).lockedBalance
           + (if credit == WithdrawPending(u) then n as int else 0) - (if debit == WithdrawPending(u) then n as int else 0)
    ensures SameBalances(accounts', js')
  {
    hide Net, AccountOf;
    NetMove(js, Journal(reference, Kori, Move(debit, credit, n), now), debit, credit, n);
  }

  lemma BalancesTouched(accounts: map<UserId, Account>, accounts': map<UserId, Account>, js: seq<Journal>)
    requires SameBalances(accounts, js) && forall u :: AccountOf(accounts', u) == AccountOf(accounts, u)
    ensures SameBalances(accounts', js)
  {
    hide Net, AccountOf;
  }

  /** A journal of the ledger's own reference types is not mistaken for an external credit. */
  lemma CreditsAfterOwn(m: Memory, m': Memory, t: Tables, t': Tables, j: Journal)
    requires SameCredits(m, t) && m'.credits == m.credits && t'.journals == t.journals + [j]
    requires !j.reference.refType.RefOther?
    ensures SameCredits(m', t')
  {
    hide IndexWhere;
    forall reference: Reference | reference.refType.RefOther?
      ensures IndexWhere(m'.credits, CreditRefersTo(reference)).Some? <==> FindJournal(t', reference).Some?
    {
      IndexAppend(t.journals, j, RefersTo(reference));
    }
  }

  lemma CreditsAfterBoth(m: Memory, m': Memory, t: Tables, t': Tables, c: ExternalCredit, j: Journal)
    requires SameCredits(m, t) && m'.credits == m.credits + [c] && t'.journals == t.journals + [j]
    requires c.reference == j.reference
    ensures SameCredits(m', t')
  {
    hide IndexWhere;
    forall r: Reference | r.refType.RefOther?
      ensures IndexWhere(m'.credits, CreditRefersTo(r)).Some? <==> FindJournal(t', r).Some?
    {
      IndexAppend(t.journals, j, RefersTo(r));
      IndexAppend(m.credits, c, CreditRefersTo(r));
    }
  }

  lemma TransferIndexedAfterTx(m: Memory, m': Memory, tx: LedgerTx)
    requires TransferIndexed(m) && m'.transferByKey == m.transferByKey && m'.transactions == m.transactions + [tx]
    requires tx.txType != TransferOutTx && tx.txType != TransferInTx
    ensures TransferIndexed(m')
  {
    hide IndexWhere;
    forall key
      ensures if key in m'.transferByKey
              then && IndexWhere(m'.transactions, IsTransferLeg(key, TransferOutTx)) == Some(m'.transferByKey[key].0)
                   && IndexWhere(m'.transactions, IsTransferLeg(key, TransferInTx)) == Some(m'.transferByKey[key].1)
              else NoTransferRow(m'.transactions, key)
    {
      IndexAppend(m.transactions, tx, IsTransferLeg(key, TransferOutTx));
      IndexAppend(m.transactions, tx, IsTransferLeg(key, TransferInTx));
    }
  }

  lemma TransferIndexedAfterStatus(m: Memory, m': Memory, i: nat, tx: LedgerTx)
    requires TransferIndexed(m) && m'.transferByKey == m.transferByKey && i < |m.transactions|
    requires m'.transactions == m.transactions[i := tx]
    requires tx.txType == m.transactions[i].txType && tx.idempotencyKey == m.transactions[i].idempotencyKey
    ensures TransferIndexed(m')
  {
    hide IndexWhere;
    forall key
      ensures if key in m'.transferByKey
              then && IndexWhere(m'.transactions, IsTransferLeg(key, TransferOutTx)) == Some(m'.transferByKey[key].0)
                   && IndexWhere(m'.transactions, IsTransferLeg(key, TransferInTx)) == Some(m'.transferByKey[key].1)
              else NoTransferRow(m'.transactions, key)
    {
      IndexReplace(m.transactions, i, tx, IsTransferLeg(key, TransferOutTx));
      IndexReplace(m.transactions, i, tx, IsTransferLeg(key, TransferInTx));
    }
  }

  lemma TransferIndexedAfterTransfer(m: Memory, m': Memory, outTx: LedgerTx, inTx: LedgerTx, key: string)
    requires TransferIndexed(m) && key !in m.transferByKey
    requires m'.transferByKey == m.transferByKey[key := (|m.transactions|, |m.transactions| + 1)]
    requires m'.transactions == m.transactions + [outTx, inTx]
    requires outTx.txType == TransferOutTx && inTx.txType == TransferInTx
    requires outTx.idempotencyKey == inTx.idempotencyKey == Some(key)
    ensures TransferIndexed(m')
  {
    hide IndexWhere;
    forall k
      ensures if k in m'.transferByKey
              then && IndexWhere(m'.transactions, IsTransferLeg(k, TransferOutTx)) == Some(m'.transferByKey[k].0)
                   && IndexWhere(m'.transactions, IsTransferLeg(k, TransferInTx)) == Some(m'.transferByKey[k].1)
              else NoTransferRow(m'.transactions, k)
    {
      LegsAppend(m.transactions, outTx, inTx, k, TransferOutTx);
      LegsAppend(m.transactions, outTx, inTx, k, TransferInTx);
      if k == key {
        assert NoTransferRow(m.transactions, key);
        NoLegs(m.transactions, key);
      }
    }
  }

  lemma LegsAppend(txs: seq<LedgerTx>, a: LedgerTx, b: LedgerTx, key: string, leg: TxType)
    ensures IndexWhere(txs + [a, b], IsTransferLeg(key, leg)) ==
            if IndexWhere(txs, IsTransferLeg(key, leg)).Some? then IndexWhere(txs, IsTransferLeg(key, leg))
            else if IsTransferLeg(key, leg)(a) then Some(|txs|)
            else if IsTransferLeg(key, leg)(b) then Some(|txs| + 1)
            else None
  {
    hide IndexWhere;
    assert txs + [a, b] == txs + [a] + [b];
    IndexAppend(txs, a, IsTransferLeg(key, leg));
    IndexAppend(txs + [a], b, IsTransferLeg(key, leg));
  }

  lemma NoLegs(txs: seq<LedgerTx>, key: string)
    requires NoTransferRow(txs, key)
    ensures IndexWhere(txs, IsTransferLeg(key, TransferOutTx)).None?
    ensures IndexWhere(txs, IsTransferLeg(key, TransferInTx)).None?
  {
    hide IndexWhere;
    forall leg | leg == TransferOutTx || leg == TransferInTx ensures IndexWhere(txs, IsTransferLeg(key, leg)).None? {
      assert forall i :: 0 <= i < |txs| ==> !IsTransferRow(key)(txs[i]) && !IsTransferLeg(key, leg)(txs[i]);
    }
  }

  // ---------- One lemma per operation ----------

  /** What the step lemmas start from. */
  ghost predicate Related(m: Memory, t: Tables, limits: Limits) {
    MI.Inv(m, limits) && PI.Inv(t) && Sim(m, t)
  }

  lemma DepositSim(m: Memory, t: Tables, limits: Limits, u: UserId, amount: nat, txHash: string, block: nat,
                   now: Instant)
    requires Related(m, t, limits)
    ensures var (m', rm) := M.ApplyDeposit(m, u, amount, txHash, block, now);
            var (t', rt) := ApplyDeposit(t, u, amount, txHash, block, now);
            Sim(m', t') && rm == rt
  {
    hide Net, SumMap, SumBy, IndexWhere, MI.Inv, PI.Inv, Projected, HasPostings, Hydrated;
    var m' := M.ApplyDeposit(m, u, amount, txHash, block, now).0;
    var t' := ApplyDeposit(t, u, amount, txHash, block, now).0;
    if IndexWhere(m.deposits, HashIs(txHash)).None? {
      MI.AdjustEffect(m.accounts, u, amount, 0);
      var reference := Reference(RefDeposit, Uuid(|t.deposits|));
      BalancesAfterMove(m.accounts, m'.accounts, t.journals, t'.journals, reference, System(DepositClearing),
                        Available(u), amount, now);
      CreditsAfterOwn(m, m', t, t', t'.journals[|t.journals|]);
      TransferIndexedAfterTx(m, m', m'.transactions[|m.transactions|]);
      RecordsKept(m, t, m', t');
    }
  }

  /** Withdrawals and approvals untouched, rows only added. */
  lemma RecordsKept(m: Memory, t: Tables, m': Memory, t': Tables)
    requires SameRecords(m, t)
    requires m'.withdrawals == m.withdrawals && t'.withdrawals == t.withdrawals
    requires m'.approvals == m.approvals && t'.approvals == t.approvals
    requires m'.transactions == t'.transactions && m'.deposits == t'.deposits
    requires t.accounts.Keys <= t'.accounts.Keys
    ensures SameRecords(m', t')
  {
    hide ForWithdrawal;
    forall i: nat | i < |m'.withdrawals| ensures SameWithdrawal(m', t', i) {
      assert SameWithdrawal(m, t, i);
    }
    forall i: nat ensures M.ApprovalsOf(m', i) == ForWithdrawal(t'.approvals, i) {
      assert M.ApprovalsOf(m, i) == ForWithdrawal(t.approvals, i);
    }
  }

  lemma CreditSim(m: Memory, t: Tables, limits: Limits, u: UserId, amount: int, currency: string, reference: Reference,
                  now: Instant)
    requires Related(m, t, limits)
    requires amount > 0 ==> Text.NormalizeCode(currency) == "KORI" && reference.refType.RefOther?
    ensures var (m', rm) := M.ApplyCredit(m, u, amount, reference, now);
            var (t', rt) := ApplyCredit(t, u, amount, currency, reference, now);
            Sim(m', t') && Agree(rm, rt)
  {
    hide Net, SumMap, SumBy, IndexWhere, MI.Inv, PI.Inv, Projected, HasPostings, Hydrated, SameBalances,
         PostedAccounts;
    var m' := M.ApplyCredit(m, u, amount, reference, now).0;
    var t' := ApplyCredit(t, u, amount, currency, reference, now).0;
    if amount > 0 && FindJournal(t, reference).None? {
      MI.AdjustEffect(m.accounts, u, amount, 0);
      BalancesAfterMove(m.accounts, m'.accounts, t.journals, t'.journals, reference, System(FoxyaCreditSync),
                        Available(u), amount, now);
      RecordsKept(m, t, m', t');
      CreditsAfterBoth(m, m', t, t', m'.credits[|m.credits|], t'.journals[|t.journals|]);
    }
  }

  lemma TransferSim(m: Memory, t: Tables, limits: Limits, f: UserId, to: UserId, amount: nat, key: string, now: Instant)
    requires Related(m, t, limits)
    ensures var (m', rm) := M.Transfer(m, f, to, amount, key, now);
            var (t', rt) := Transfer(t, f, to, amount, key, now);
            Sim(m', t') && (Agree(rm, rt) <==> !(key in m.transferByKey && f == to))
  {
    hide Net, SumMap, SumBy, IndexWhere, MI.Inv, PI.Inv, HasPostings, Hydrated, AccountOf, Adjust, Touch,
         CurrentBalances, SameBalances;
    TransferRows(m, key);
    SpendableAgrees(m, t, limits, f, to);
    var touched := Touch(Touch(m.accounts, f), to);
    MI.TouchEffect(m.accounts, f);
    MI.TouchEffect(Touch(m.accounts, f), to);
    if key !in m.transferByKey && f != to {
      if AccountOf(m.accounts, f).balance < amount {
        BalancesTouched(m.accounts, touched, t.journals);
        RecordsKept(m, t, m.(accounts := touched), t);
      } else {
        TransferBooked(m, t, limits, f, to, amount, key, now);
      }
    }
  }

  lemma TransferBooked(m: Memory, t: Tables, limits: Limits, f: UserId, to: UserId, amount: nat, key: string,
                       now: Instant)
    requires Related(m, t, limits) && key !in m.transferByKey && f != to
    requires AccountOf(m.accounts, f).balance >= amount
    ensures var (m', rm) := M.Transfer(m, f, to, amount, key, now);
            var (t', rt) := Transfer(t, f, to, amount, key, now);
            Sim(m', t') && rm == rt
  {
    hide Net, SumMap, SumBy, IndexWhere, MI.Inv, PI.Inv, HasPostings, Hydrated, AccountOf, Adjust, Touch,
         CurrentBalances;
    var m' := M.Transfer(m, f, to, amount, key, now).0;
    var t' := Transfer(t, f, to, amount, key, now).0;
    TransferRows(m, key);
    SpendableAgrees(m, t, limits, f, to);
    var touched := Touch(Touch(m.accounts, f), to);
    MI.TouchEffect(m.accounts, f);
    MI.TouchEffect(Touch(m.accounts, f), to);
    MI.AdjustEffect(touched, f, 0 - amount, 0);
    MI.AdjustEffect(Adjust(touched, f, 0 - amount, 0), to, amount, 0);
    BalancesAfterMove(m.accounts, m'.accounts, t.journals, t'.journals, Reference(RefTransfer, Text(key)),
                      Available(f), Available(to), amount, now);
    CreditsAfterOwn(m, m', t, t', t'.journals[|t.journals|]);
    TransferIndexedAfterTransfer(m, m', m'.transactions[|m.transactions|], m'.transactions[|m.transactions| + 1], key);
    TouchKeys(t.accounts, f, to);
    RecordsKept(m, t, m', t');
  }

  lemma TouchKeys(accounts: map<UserId, Account>, f: UserId, to: UserId)
    ensures accounts.Keys <= Touch(accounts, f).Keys <= Touch(Touch(accounts, f), to).Keys
  {
  }

  /** What the double-entry ledger reads as spendable is the in-memory balance. */
  lemma SpendableAgrees(m: Memory, t: Tables, limits: Limits, f: UserId, to: UserId)
    requires Related(m, t, limits)
    ensures CurrentBalances(Ensure(Ensure(t, f), to), f).balance == AccountOf(m.accounts, f).balance
    ensures CurrentBalances(Ensure(t, f), f).balance == AccountOf(m.accounts, f).balance
    ensures CurrentBalances(t, f).lockedBalance == AccountOf(m.accounts, f).lockedBalance
  {
    hide Net, SumMap, SumBy, HasPostings, AccountOf, MI.Inv;
    EnsureBooks(t, f);
    EnsureBooks(Ensure(t, f), to);
    CurrentIsProjected(t, f);
    CurrentIsProjected(Ensure(Ensure(t, f), to), f);
  }

  /** A known key: neither ledger changes, and only Postgres looks at the single limit first. */
  lemma RequestRepeated(m: Memory, t: Tables, limits: Limits, u: UserId, amount: nat, toAddress: string, key: string,
                        required: Positive, now: Instant)
    requires Related(m, t, limits) && key in m.withdrawalByKey
    ensures var (m', rm) := M.RequestWithdrawal(m, limits, u, amount, toAddress, key, required, now);
            var (t', rt) := RequestWithdrawal(t, limits, u, amount, toAddress, key, required, now);
            m' == m && t' == t && (Agree(rm, rt) <==> amount <= limits.singleLimit)
  {
    hide Net, SumBy, IndexWhere, PI.Inv, HasPostings, Hydrated, AccountOf, Adjust, Touch, CurrentBalances,
         SameBalances, DailyRequested, NewWithdrawal, WithdrawalPayload, ForWithdrawal, SameCredits, TransferIndexed;
    WithdrawalRows(m, t, key);
    assert SameWithdrawal(m, t, m.withdrawalByKey[key]);
  }

  /** A refused request leaves Postgres alone and at most opens an empty account in memory. */
  lemma RequestRefused(m: Memory, t: Tables, limits: Limits, u: UserId, amount: nat, toAddress: string, key: string,
                       required: Positive, now: Instant)
    requires Related(m, t, limits) && key !in m.withdrawalByKey
    requires || amount > limits.singleLimit
             || DailyRequested(m.withdrawals, u, DayOf(now)) + amount > limits.dailyLimit
             || AccountOf(m.accounts, u).balance < amount
    ensures var (m', rm) := M.RequestWithdrawal(m, limits, u, amount, toAddress, key, required, now);
            var (t', rt) := RequestWithdrawal(t, limits, u, amount, toAddress, key, required, now);
            && rm.Refused? && rt.Refused? && t' == t
            && (m' == m || m' == m.(accounts := Touch(m.accounts, u)))
  {
    hide Net, SumBy, IndexWhere, MI.Inv, PI.Inv, HasPostings, Hydrated, Adjust, AccountOf, Touch, CurrentBalances,
         SameBalances, SameRecords, DailyRequested, NewWithdrawal, WithdrawalPayload, ForWithdrawal, SameCredits,
         TransferIndexed;
    RelatedRows(m, t, limits, key);
    DailyAgrees(m, t, u, DayOf(now));
    SpendableAgrees(m, t, limits, u, u);
    MI.TouchEffect(m.accounts, u);
  }

  lemma RelatedRows(m: Memory, t: Tables, limits: Limits, key: string)
    requires Related(m, t, limits)
    ensures key !in m.withdrawalByKey ==> IndexWhere(t.withdrawals, KeyIs(key)).None?
    ensures SameRecords(m, t)
  {
    WithdrawalRows(m, t, key);
  }

  lemma RequestSim(m: Memory, t: Tables, limits: Limits, u: UserId, amount: nat, toAddress: string, key: string,
                   required: Positive, now: Instant)
    requires Related(m, t, limits)
    ensures var (m', rm) := M.RequestWithdrawal(m, limits, u, amount, toAddress, key, required, now);
            var (t', rt) := RequestWithdrawal(t, limits, u, amount, toAddress, key, required, now);
            Sim(m', t') && (Agree(rm, rt) <==> !(key in m.withdrawalByKey && amount > limits.singleLimit))
  {
    hide M.RequestWithdrawal, RequestWithdrawal, MI.Inv, PI.Inv, DailyRequested, AccountOf, SameBalances, SameRecords,
         SameCredits, TransferIndexed;
    if key in m.withdrawalByKey {
      RequestRepeated(m, t, limits, u, amount, toAddress, key, required, now);
    } else if || amount > limits.singleLimit
              || DailyRequested(m.withdrawals, u, DayOf(now)) + amount > limits.dailyLimit
              || AccountOf(m.accounts, u).balance < amount {
      RequestRefused(m, t, limits, u, amount, toAddress, key, required, now);
      TouchedSim(m, t, u);
    } else {
      RequestBooked(m, t, limits, u, amount, toAddress, key, required, now);
    }
  }

  lemma TouchedSim(m: Memory, t: Tables, u: UserId)
    requires Sim(m, t)
    ensures Sim(m.(accounts := Touch(m.accounts, u)), t)
  {
    hide Net, SumBy, SumMap, AccountOf, Touch, IndexWhere, Hydrated, ForWithdrawal;
    MI.TouchEffect(m.accounts, u);
    BalancesTouched(m.accounts, Touch(m.accounts, u), t.journals);
    RecordsKept(m, t, m.(accounts := Touch(m.accounts, u)), t);
  }

  lemma RequestBooked(m: Memory, t: Tables, limits: Limits, u: UserId, amount: nat, toAddress: string, key: string,
                      required: Positive, now: Instant)
    requires Related(m, t, limits) && key !in m.withdrawalByKey && amount <= limits.singleLimit
    requires DailyRequested(m.withdrawals, u, DayOf(now)) + amount <= limits.dailyLimit
    requires AccountOf(m.accounts, u).balance >= amount
    ensures var (m', rm) := M.RequestWithdrawal(m, limits, u, amount, toAddress, key, required, now);
            var (t', rt) := RequestWithdrawal(t, limits, u, amount, toAddress, key, required, now);
            Sim(m', t') && rm == rt
  {
    hide Net, SumMap, SumBy, IndexWhere, PI.Inv, HasPostings, AccountOf, Adjust, CurrentBalances, DailyRequested,
         ForWithdrawal, Projected, TransferIndexed;
    var m' := M.RequestWithdrawal(m, limits, u, amount, toAddress, key, required, now).0;
    var t' := RequestWithdrawal(t, limits, u, amount, toAddress, key, required, now).0;
    WithdrawalRows(m, t, key);
    DailyAgrees(m, t, u, DayOf(now));
    SpendableAgrees(m, t, limits, u, u);
    MI.TouchEffect(m.accounts, u);
    MI.AdjustEffect(Touch(m.accounts, u), u, 0 - amount, amount);
    var id := |m.withdrawals|;
    var reference := Reference(RefWithdrawal, Uuid(id));
    BalancesAfterMove(m.accounts, m'.accounts, t.journals, t'.journals, reference, Available(u), WithdrawPending(u),
                      amount, now);
    CreditsAfterOwn(m, m', t, t', t'.journals[|t.journals|]);
    TransferIndexedAfterTx(m, m', m'.transactions[|m.transactions|]);
    RequestRecords(m, t, m', t', m'.withdrawals[id]);
  }

  /** A new withdrawal has the next id, for which nobody has approved anything. */
  lemma RequestRecords(m: Memory, t: Tables, m': Memory, t': Tables, w: Withdrawal)
    requires SameRecords(m, t)
    requires m'.withdrawals == m.withdrawals + [w] && t'.withdrawals == t.withdrawals + [w]
    requires w.approvalCount == 0 && w.authProvider.None? && w.userId in t'.accounts
    requires m'.approvals == m.approvals[|m.withdrawals| := []] && t'.approvals == t.approvals
    requires m'.transactions == t'.transactions && m'.deposits == t'.deposits
    requires t.accounts.Keys <= t'.accounts.Keys
    ensures SameRecords(m', t')
  {
    hide ForWithdrawal;
    forall i: nat | i < |m'.withdrawals| ensures SameWithdrawal(m', t', i) {
      if i < |m.withdrawals| {
        assert SameWithdrawal(m, t, i);
      }
    }
    forall i: nat ensures M.ApprovalsOf(m', i) == ForWithdrawal(t'.approvals, i) {
      assert M.ApprovalsOf(m, i) == ForWithdrawal(t.approvals, i);
    }
  }

  /** One withdrawal row changed the same way in both ledgers. */
  lemma RowRecords(m: Memory, t: Tables, m': Memory, t': Tables, id: nat)
    requires SameRecords(m, t) && id < |m.withdrawals|
    requires |m'.withdrawals| == |m.withdrawals| && |t'.withdrawals| == |t.withdrawals|
    requires forall i: nat :: i < |m.withdrawals| && i != id ==>
               m'.withdrawals[i] == m.withdrawals[i] && t'.withdrawals[i] == t.withdrawals[i]
    requires m'.withdrawals[id] == t'.withdrawals[id].(approvalCount := |ForWithdrawal(t'.approvals, id)|)
    requires t'.withdrawals[id].userId in t'.accounts
    requires t'.withdrawals[id].authProvider.Some? ==> t'.withdrawals[id].authConfirmedAt.Some?
    requires forall i: nat :: ForWithdrawal(t'.approvals, i) == M.ApprovalsOf(m', i)
    requires forall i: nat :: i != id ==> M.ApprovalsOf(m', i) == M.ApprovalsOf(m, i)
    requires m'.transactions == t'.transactions && m'.deposits == t'.deposits
    requires t.accounts.Keys <= t'.accounts.Keys
    ensures SameRecords(m', t')
  {
    hide ForWithdrawal;
    forall i: nat | i < |m'.withdrawals| ensures SameWithdrawal(m', t', i) {
      assert SameWithdrawal(m, t, i);
      assert M.ApprovalsOf(m, i) == ForWithdrawal(t.approvals, i);
    }
    forall i: nat | i >= |t'.withdrawals| ensures ForWithdrawal(t'.approvals, i) == [] {
      assert M.ApprovalsOf(m, i) == ForWithdrawal(t.approvals, i);
    }
  }

  lemma AuthSim(m: Memory, t: Tables, limits: Limits, id: nat, provider: string, requestId: string, now: Instant)
    requires Related(m, t, limits)
    ensures var (m', rm) := M.ConfirmAuth(m, id, provider, requestId, now);
            var (t', rt) := ConfirmAuth(t, id, provider, requestId, now);
            Sim(m', t') && Agree(rm, rt)
  {
    hide SameBalances, SumMap, SumBy, IndexWhere, PI.Inv, MI.Inv, ForWithdrawal;
    if id < |m.withdrawals| {
      assert SameWithdrawal(m, t, id);
      if m.withdrawals[id].status == LedgerReserved {
        RowRecords(m, t, M.ConfirmAuth(m, id, provider, requestId, now).0,
                   ConfirmAuth(t, id, provider, requestId, now).0, id);
      }
    }
  }

  lemma ReviewSim(m: Memory, t: Tables, limits: Limits, id: nat, now: Instant)
    requires Related(m, t, limits)
    ensures var (m', rm) := M.MarkReview(m, id, now);
            var (t', rt) := MarkReview(t, id, now);
            Sim(m', t') && Agree(rm, rt)
  {
    hide SameBalances, SumMap, SumBy, IndexWhere, PI.Inv, MI.Inv, ForWithdrawal;
    if id < |m.withdrawals| {
      assert SameWithdrawal(m, t, id);
      if m.withdrawals[id].status == PendingAdmin {
        RowRecords(m, t, M.MarkReview(m, id, now).0, MarkReview(t, id, now).0, id);
      }
    }
  }

  lemma BroadcastSim(m: Memory, t: Tables, limits: Limits, id: nat, txHash: string, now: Instant)
    requires Related(m, t, limits)
    ensures var (m', rm) := M.Broadcast(m, id, txHash, now);
            var (t', rt) := Broadcast(t, id, txHash, now);
            Sim(m', t') && Agree(rm, rt)
  {
    hide SameBalances, SumMap, SumBy, IndexWhere, PI.Inv, MI.Inv, ForWithdrawal;
    if id < |m.withdrawals| {
      assert SameWithdrawal(m, t, id);
      if m.withdrawals[id].status == AdminApproved {
        RowRecords(m, t, M.Broadcast(m, id, txHash, now).0, Broadcast(t, id, txHash, now).0, id);
      }
    }
  }

  lemma ApprovalsAppend(rows: seq<Approval>, a: Approval)
    ensures forall i: nat :: ForWithdrawal(rows + [a], i) == ForWithdrawal(rows,
                                                                           i) + if a.withdrawalId == i then [a] else []
  {
    assert (rows + [a])[..|rows|] == rows;
  }

  lemma ApproveSim(m: Memory, t: Tables, limits: Limits, id: nat, adminId: string, now: Instant)
    requires Related(m, t, limits)
    ensures var (m', rm) := M.Approve(m, id, adminId, now);
            var (t', rt) := Approve(t, id, adminId, now);
            Sim(m', t') && Agree(rm, rt)
  {
    hide SameBalances, SumMap, SumBy, IndexWhere, PI.Inv, MI.Inv, ForWithdrawal, M.HasApproved;
    ApprovalRows(t.approvals, id, adminId);
    assert M.ApprovalsOf(m, id) == ForWithdrawal(t.approvals, id);
    if id < |m.withdrawals| {
      assert SameWithdrawal(m, t, id);
      if m.withdrawals[id].status == PendingAdmin && !M.HasApproved(M.ApprovalsOf(m, id), adminId) {
        ApprovalsAppend(t.approvals, Approval(id, adminId, now));
        var m', t' := M.Approve(m, id, adminId, now).0, Approve(t, id, adminId, now).0;
        assert |ForWithdrawal(t'.approvals, id)| == |M.ApprovalsOf(m, id)| + 1;
        RowRecords(m, t, m', t', id);
      }
    }
  }

  lemma FailSim(m: Memory, t: Tables, limits: Limits, id: nat, reason: string, now: Instant)
    requires Related(m, t, limits)
    ensures var (m', rm) := M.Fail(m, id, reason, now);
            var (t', rt) := Fail(t, id, reason, now);
            Sim(m', t') && Agree(rm, rt)
  {
    hide SameBalances, SameCredits, TransferIndexed, PI.Inv, MI.Inv, CurrentBalances, AccountOf, Adjust, SumBy,
         ForWithdrawal;
    if id < |m.withdrawals| {
      assert SameWithdrawal(m, t, id);
      if IsActive(m.withdrawals[id].status) {
        FailBalances(m, t, limits, id, reason, now);
        FailRecords(m, t, limits, id, reason, now);
      }
    }
  }

  lemma FailBalances(m: Memory, t: Tables, limits: Limits, id: nat, reason: string, now: Instant)
    requires Related(m, t, limits) && id < |m.withdrawals| && IsActive(m.withdrawals[id].status)
    ensures var m', t' := M.Fail(m, id, reason, now).0, Fail(t, id, reason, now).0;
            SameBalances(m'.accounts, t'.journals) && SameCredits(m', t')
  {
    hide Net, SumMap, SumBy, IndexWhere, PI.Inv, MI.Inv, HasPostings, AccountOf, Adjust, CurrentBalances,
         ForWithdrawal, Projected;
    var w := m.withdrawals[id];
    var m', t' := M.Fail(m, id, reason, now).0, Fail(t, id, reason, now).0;
    assert SameWithdrawal(m, t, id);
    ActiveWithdrawal(m, t, limits, id);
    MI.AdjustEffect(m.accounts, w.userId, w.amount, 0 - w.amount);
    BalancesAfterMove(m.accounts, m'.accounts, t.journals, t'.journals, Reference(RefWithdrawal, Uuid(id)),
                      WithdrawPending(w.userId), Available(w.userId), w.amount, now);
    CreditsAfterOwn(m, m', t, t', t'.journals[|t.journals|]);
  }

  lemma FailRecords(m: Memory, t: Tables, limits: Limits, id: nat, reason: string, now: Instant)
    requires Related(m, t, limits) && id < |m.withdrawals| && IsActive(m.withdrawals[id].status)
    ensures var (m', rm) := M.Fail(m, id, reason, now);
            var (t', rt) := Fail(t, id, reason, now);
            SameRecords(m', t') && TransferIndexed(m') && rm == rt
  {
    hide SameBalances, SameCredits, PI.Inv, MI.Inv, HasPostings, AccountOf, Adjust, CurrentBalances, ForWithdrawal,
         Projected, TransferIndexed;
    var w := m.withdrawals[id];
    var m', t' := M.Fail(m, id, reason, now).0, Fail(t, id, reason, now).0;
    assert SameWithdrawal(m, t, id);
    ActiveWithdrawal(m, t, limits, id);
    TransferIndexedAfterStatus(m, m', w.ledgerTx, m'.transactions[w.ledgerTx]);
    RowRecords(m, t, m', t', id);
  }

  /** Closing an active withdrawal finds its transaction and enough locked funds in both ledgers. */
  lemma ActiveWithdrawal(m: Memory, t: Tables, limits: Limits, id: nat)
    requires Related(m, t, limits) && id < |m.withdrawals| && IsActive(m.withdrawals[id].status)
    ensures var w := m.withdrawals[id];
      && w.ledgerTx < |m.transactions|
      && w.amount <= AccountOf(m.accounts, w.userId).lockedBalance
      && w.amount <= CurrentBalances(t, w.userId).lockedBalance
  {
    hide Net, SumMap, SumBy, IndexWhere, PI.Inv, HasPostings, AccountOf, MI.LogLegal, MI.Conserved, MI.WithinLimits;
    var w := m.withdrawals[id];
    assert MI.IsIndexed(m, w, id);
    MI.ActiveCovers(m.withdrawals, id);
    assert MI.LockedOf(m, w.userId) == ActiveSum(m.withdrawals, w.userId);
    SpendableAgrees(m, t, limits, w.userId, w.userId);
  }

  lemma ConfirmSim(m: Memory, t: Tables, limits: Limits, id: nat, fee: Option<NetworkFee>, now: Instant)
    requires Related(m, t, limits)
    ensures var (m', rm) := M.Confirm(m, id, fee, now);
            var (t', rt) := Confirm(t, id, fee, now);
            Sim(m', t') && Agree(rm, rt)
  {
    hide SameBalances, SameCredits, TransferIndexed, PI.Inv, MI.Inv, CurrentBalances, AccountOf, Adjust, SumBy,
         ForWithdrawal;
    if id < |m.withdrawals| {
      assert SameWithdrawal(m, t, id);
      if m.withdrawals[id].status == TxBroadcasted {
        ConfirmBalances(m, t, limits, id, fee, now);
        ConfirmRecords(m, t, limits, id, fee, now);
      }
    }
  }

  /** What a confirmation writes, in memory ... */
  lemma ConfirmMemory(m: Memory, id: nat, fee: Option<NetworkFee>, now: Instant)
    requires id < |m.withdrawals|
    requires var w := m.withdrawals[id];
      && w.status == TxBroadcasted && w.ledgerTx < |m.transactions|
      && w.amount <= AccountOf(m.accounts, w.userId).lockedBalance
    ensures var w := m.withdrawals[id];
            var (m', rm) := M.Confirm(m, id, fee, now);
            var tx := m.transactions[w.ledgerTx].(status := TxConfirmed, blockTx := w.txHash);
      && rm == WithdrawalReply(WithConfirmation(w, now))
      && m'.accounts == Adjust(m.accounts, w.userId, 0, 0 - w.amount)
      && m'.transactions == m.transactions[w.ledgerTx := tx]
      && m'.withdrawals == m.withdrawals[id := WithConfirmation(w, now)]
      && (m'.deposits, m'.credits) == (m.deposits, m.credits)
      && (m'.approvals, m'.transferByKey) == (m.approvals, m.transferByKey)
  {
    hide AccountOf, Adjust, WithConfirmation, WithdrawalPayload;
  }

  /** ... and in the database. */
  lemma ConfirmPostgres(t: Tables, id: nat, fee: Option<NetworkFee>, now: Instant)
    requires id < |t.withdrawals|
    requires var w := t.withdrawals[id];
      && w.status == TxBroadcasted && w.ledgerTx < |t.transactions| && w.userId in t.accounts
      && w.amount <= CurrentBalances(t, w.userId).lockedBalance
    ensures var w := t.withdrawals[id];
            var (t', rt) := Confirm(t, id, fee, now);
            var tx := t.transactions[w.ledgerTx].(status := TxConfirmed, blockTx := w.txHash);
      && rt == WithdrawalReply(Hydrated(t', id))
      && t'.journals == t.journals + PI.PayoutJournals(w, id, fee, now)
      && t'.transactions == t.transactions[w.ledgerTx := tx]
      && t'.withdrawals == t.withdrawals[id := WithConfirmation(w, now)]
      && (t'.deposits, t'.approvals) == (t.deposits, t.approvals)
      && t.accounts.Keys <= t'.accounts.Keys
  {
    hide HasPostings, Projected, CurrentBalances, ForWithdrawal, PostedAccounts, WithConfirmation, WithdrawalPayload,
         Move, IndexWhere;
  }

  lemma ConfirmBalances(m: Memory, t: Tables, limits: Limits, id: nat, fee: Option<NetworkFee>, now: Instant)
    requires Related(m, t, limits) && id < |m.withdrawals| && m.withdrawals[id].status == TxBroadcasted
    ensures var m', t' := M.Confirm(m, id, fee, now).0, Confirm(t, id, fee, now).0;
            SameBalances(m'.accounts, t'.journals) && SameCredits(m', t')
  {
    hide Net, IndexWhere, PI.Inv, MI.Inv, AccountOf, Adjust, CurrentBalances, ForWithdrawal, WithConfirmation,
         M.Confirm, Confirm, TransferIndexed, SameCredits;
    var w := m.withdrawals[id];
    var m', t' := M.Confirm(m, id, fee, now).0, Confirm(t, id, fee, now).0;
    assert SameWithdrawal(m, t, id);
    ActiveWithdrawal(m, t, limits, id);
    ConfirmMemory(m, id, fee, now);
    ConfirmPostgres(t, id, fee, now);
    MI.AdjustEffect(m.accounts, w.userId, 0, 0 - w.amount);
    PI.PayoutEffect(t.journals, t.withdrawals[id], id, fee, now);
    CreditsAfterPayout(m, m', t, t', t.withdrawals[id], id, fee, now);
  }

  lemma CreditsAfterPayout(m: Memory, m': Memory, t: Tables, t': Tables, w: Withdrawal, id: nat,
                           fee: Option<NetworkFee>, now: Instant)
    requires SameCredits(m, t) && m'.credits == m.credits
    requires t'.journals == t.journals + PI.PayoutJournals(w, id, fee, now)
    ensures SameCredits(m', t')
  {
    hide SameCredits;
    var written := PI.PayoutJournals(w, id, fee, now);
    var between := t.(journals := t.journals + [written[0]]);
    CreditsAfterOwn(m, m', t, between, written[0]);
    if |written| == 2 {
      CreditsAfterOwn(m', m', between, t', written[1]);
    } else {
      CreditsAfterOwn(m, m', t, t', written[0]);
    }
  }

  lemma ConfirmRecords(m: Memory, t: Tables, limits: Limits, id: nat, fee: Option<NetworkFee>, now: Instant)
    requires Related(m, t, limits) && id < |m.withdrawals| && m.withdrawals[id].status == TxBroadcasted
    ensures var (m', rm) := M.Confirm(m, id, fee, now);
            var (t', rt) := Confirm(t, id, fee, now);
            SameRecords(m', t') && TransferIndexed(m') && rm == rt
  {
    hide SameBalances, SameCredits, PI.Inv, MI.Inv, AccountOf, Adjust, CurrentBalances, ForWithdrawal, TransferIndexed,
         M.Confirm, Confirm, PI.PayoutJournals;
    var w := m.withdrawals[id];
    var m', t' := M.Confirm(m, id, fee, now).0, Confirm(t, id, fee, now).0;
    assert SameWithdrawal(m, t, id);
    ActiveWithdrawal(m, t, limits, id);
    ConfirmMemory(m, id, fee, now);
    ConfirmPostgres(t, id, fee, now);
    TransferIndexedAfterStatus(m, m', w.ledgerTx, m'.transactions[w.ledgerTx]);
    RowRecords(m, t, m', t', id);
  }

  // ---------- Every run ----------

  /** One common operation: the simulation stays, and the replies agree but for the repeated calls
      the two ledgers treat differently. */
  lemma StepSim(m: Memory, t: Tables, limits: Limits, op: Op)
    requires Related(m, t, limits) && Common(op)
    ensures var (m', rm) := M.LedgerStep(m, limits, op);
            var (t', rt) := LedgerStep(t, limits, op);
            Related(m', t', limits) && (Agree(rm, rt) <==> !RepliesDiffer(m, limits, op))
  {
    hide Sim, MI.Inv, PI.Inv, M.ApplyDeposit, M.ApplyCredit, M.Transfer, M.RequestWithdrawal, M.ConfirmAuth,
         M.MarkReview, M.Approve, M.Broadcast, M.Confirm, M.Fail, ApplyDeposit, ApplyCredit, Transfer,
         RequestWithdrawal, ConfirmAuth, MarkReview, Approve, Broadcast, Confirm, Fail, M.CompleteDeposit,
         CompleteDeposit;
    MI.InvKept(m, limits, M.Ledger(op));
    OI.StepKept(t, limits, Ledger(op));
    match op
    case DepositOp(u, amount, txHash, block, now) => DepositSim(m, t, limits, u, amount, txHash, block, now);
    case CompleteOp(depositId) => CompleteSim(m, t, limits, depositId);
    case CreditOp(u, amount, currency, reference, now) => CreditSim(m, t, limits, u, amount, currency, reference, now);
    case TransferOp(f, to, amount, key, now) => TransferSim(m, t, limits, f, to, amount, key, now);
    case RequestOp(u, amount, toAddress, key, required, now) =>
      RequestSim(m, t, limits, u, amount, toAddress, key, required, now);
    case AuthOp(id, provider, requestId, now) => AuthSim(m, t, limits, id, provider, requestId, now);
    case ReviewOp(id, now) => ReviewSim(m, t, limits, id, now);
    case ApproveOp(id, adminId, now) => ApproveSim(m, t, limits, id, adminId, now);
    case BroadcastOp(id, txHash, now) => BroadcastSim(m, t, limits, id, txHash, now);
    case ConfirmOp(id, fee, now) => ConfirmSim(m, t, limits, id, fee, now);
    case FailOp(id, reason, now) => FailSim(m, t, limits, id, reason, now);
  }

  lemma CompleteSim(m: Memory, t: Tables, limits: Limits, depositId: nat)
    requires Related(m, t, limits)
    ensures var (m', rm) := M.CompleteDeposit(m, depositId);
            var (t', rt) := CompleteDeposit(t, depositId);
            Sim(m', t') && rm == rt
  {
    hide SameBalances, SameCredits, TransferIndexed, SumBy, IndexWhere, PI.Inv, MI.Inv, ForWithdrawal, FindJournal;
    SameTransfersAndCredits(m, M.CompleteDeposit(m, depositId).0, t, CompleteDeposit(t, depositId).0);
    RecordsKept(m, t, M.CompleteDeposit(m, depositId).0, CompleteDeposit(t, depositId).0);
  }

  lemma SameTransfersAndCredits(m: Memory, m': Memory, t: Tables, t': Tables)
    requires TransferIndexed(m) && SameCredits(m, t)
    requires m'.transferByKey == m.transferByKey && m'.transactions == m.transactions
    requires m'.credits == m.credits && t'.journals == t.journals
    ensures TransferIndexed(m') && SameCredits(m', t')
  {
    hide IndexWhere;
  }

  function InMemory(ops: seq<Op>): seq<M.MemoryOp> {
    seq(|ops|, i requires 0 <= i < |ops| => M.Ledger(ops[i]))
  }

  function InPostgres(ops: seq<Op>): seq<PostgresOp> {
    seq(|ops|, i requires 0 <= i < |ops| => Ledger(ops[i]))
  }

  /** Over every run of common operations the two ledgers stay in simulation. */
  lemma {:induction false} EveryRunSimulates(limits: Limits, ops: seq<Op>)
    requires forall i :: 0 <= i < |ops| ==> Common(ops[i])
    ensures Related(M.Run(limits, InMemory(ops)), Run(limits, InPostgres(ops)), limits)
  {
    hide M.Step, Step, Sim, MI.Inv, PI.Inv, M.LedgerStep, LedgerStep;
    if ops == [] {
      EmptySim(limits);
    } else {
      var before, op := ops[..|ops| - 1], ops[|ops| - 1];
      EveryRunSimulates(limits, before);
      assert InMemory(ops)[..|ops| - 1] == InMemory(before) && InPostgres(ops)[..|ops| - 1] == InPostgres(before);
      OneStep(M.Run(limits, InMemory(before)), Run(limits, InPostgres(before)), limits, op);
    }
  }

  lemma OneStep(m: Memory, t: Tables, limits: Limits, op: Op)
    requires Related(m, t, limits) && Common(op)
    ensures Related(M.Step(m, limits, M.Ledger(op)), Step(t, limits, Ledger(op)), limits)
  {
    hide Related, M.LedgerStep, LedgerStep;
    StepSim(m, t, limits, op);
  }

  lemma EmptySim(limits: Limits)
    ensures Related(M.EMPTY, EMPTY, limits)
  {
    MI.EveryRun(limits, []);
    OI.EveryRun(limits, []);
  }

  /** What a user can see after any such run: equal balances, equal withdrawals, equal answers. */
  lemma RefinementVisible(limits: Limits, ops: seq<Op>, op: Op, u: UserId)
    requires Common(op) && forall i :: 0 <= i < |ops| ==> Common(ops[i])
    ensures var m, t := M.Run(limits, InMemory(ops)), Run(limits, InPostgres(ops));
      && Projected(t.journals, u) == CurrentBalances(t, u) == AccountOf(m.accounts, u)
      && |t.withdrawals| == |m.withdrawals|
      && (forall i: nat :: i < |m.withdrawals| ==> Hydrated(t, i) == m.withdrawals[i])
      && m.deposits == t.deposits && m.transactions == t.transactions
      && (Agree(M.LedgerStep(m, limits, op).1, LedgerStep(t, limits, op).1) <==> !RepliesDiffer(m, limits, op))
  {
    hide M.Run, Run, M.LedgerStep, LedgerStep, MI.Inv, Agree, RepliesDiffer, Net, HasPostings;
    var m, t := M.Run(limits, InMemory(ops)), Run(limits, InPostgres(ops));
    EveryRunSimulates(limits, ops);
    StepSim(m, t, limits, op);
    CurrentIsProjected(t, u);
    forall i: nat | i < |m.withdrawals| ensures Hydrated(t, i) == m.withdrawals[i] {
      assert SameWithdrawal(m, t, i);
    }
  }

  // ---------- Where the two ledgers part ----------

  /** A positive external credit keeps the simulation exactly when memory has seen the reference, or
      the currency is KORI and no journal of any kind carries the reference. */
  lemma CreditKeepsSimExactly(m: Memory, t: Tables, limits: Limits, u: UserId, amount: int, currency: string,
                              reference: Reference, now: Instant)
    requires Related(m, t, limits) && amount > 0
    ensures var m' := M.ApplyCredit(m, u, amount, reference, now).0;
            var t' := ApplyCredit(t, u, amount, currency, reference, now).0;
      SameBalances(m'.accounts, t'.journals) <==>
        (Text.NormalizeCode(currency) == "KORI" && FindJournal(t, reference).None?)
          == IndexWhere(m.credits, CreditRefersTo(reference)).None?
  {
    hide Net, SumMap, SumBy, IndexWhere, MI.Inv, PI.Inv, Projected, HasPostings, AccountOf, Adjust;
    var m', t' := M.ApplyCredit(m, u, amount, reference, now).0, ApplyCredit(t, u, amount, currency, reference, now).0;
    MI.AdjustEffect(m.accounts, u, amount, 0);
    if Text.NormalizeCode(currency) == "KORI" && FindJournal(t, reference).None? {
      NetMove(t.journals, t'.journals[|t.journals|], System(FoxyaCreditSync), Available(u), amount);
    }
    assert AccountOf(m.accounts, u).balance == Net(t.journals, Available(u));
    assert SameBalances(m'.accounts, t'.journals) ==> AccountOf(m'.accounts, u).balance == Net(t'.journals, Available(u));
  }

  /** In another currency the in-memory ledger books the credit and the double-entry ledger refuses it. */
  lemma ForeignCurrencyParts(limits: Limits)
    ensures var op := CreditOp("a", 5, "USD", Reference(RefOther("x"), Text("1")), 0);
      !SameBalances(M.LedgerStep(M.EMPTY, limits, op).0.accounts, LedgerStep(EMPTY, limits, op).0.journals)
  {
    hide Net, SumMap, SumBy;
    EmptySim(limits);
    assert Text.NormalizeCode("USD")[0] == 'U';
    CreditKeepsSimExactly(M.EMPTY, EMPTY, limits, "a", 5, "USD", Reference(RefOther("x"), Text("1")), 0);
  }

  /** A credit under a reference one of the ledger's own journals carries is lost in Postgres only. */
  lemma OwnReferenceParts(limits: Limits)
    ensures var first := DepositOp("a", 1, "h", 0, 0);
            var op := CreditOp("a", 5, "KORI", Reference(RefDeposit, Uuid(0)), 0);
            var m, t := M.LedgerStep(M.EMPTY, limits, first).0, LedgerStep(EMPTY, limits, first).0;
      !SameBalances(M.LedgerStep(m, limits, op).0.accounts, LedgerStep(t, limits, op).0.journals)
  {
    hide Net, SumMap, SumBy;
    var m, t := M.ApplyDeposit(M.EMPTY, "a", 1, "h", 0, 0).0, ApplyDeposit(EMPTY, "a", 1, "h", 0, 0).0;
    EmptySim(limits);
    StepSim(M.EMPTY, EMPTY, limits, DepositOp("a", 1, "h", 0, 0));
    assert t.journals[0].reference == Reference(RefDeposit, Uuid(0));
    CreditKeepsSimExactly(m, t, limits, "a", 5, "KORI", Reference(RefDeposit, Uuid(0)), 0);
  }
}
