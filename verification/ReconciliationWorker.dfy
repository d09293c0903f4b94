/** The worker that pulls ledger liabilities towards the canonical wallets: it looks for newcomers
    first, then decides user by user with a tolerance, a sign rule and a cap. */
module ReconciliationWorker {
  import opened Domain
  import opened PostgresSpec
  import opened PostgresInvariants
  import opened OfflineInvariants
  import opened StableSort
  import Sums
  import RS = ReconciliationSafety
  import PostgresLedger

  datatype Options = Options(tolerance: nat, maxAdjustment: nat)

  /** Where an exception hits a user: reading the wallet, in the operations service after the ledger
      call, or in the worker's own audit write after it has counted the user. */
  datatype Fault = NoFault | WalletFails | OperationFails | AuditFails

  /** What a cycle meets from outside. */
  datatype Environment = Environment(
    target: UserId -> int,
    clock: UserId -> Instant,
    faults: UserId -> Fault)

  datatype Counts = Counts(checked: nat, adjusted: nat, skipped: nat, failed: nat)

  // ---------- Selection ----------

  predicate IsNewcomer(t: Tables, existing: seq<UserId>, u: UserId) {
    u !in existing && !HasFootprint(t, u)
  }

  function Newcomers(t: Tables, existing: seq<UserId>, candidates: seq<UserId>): seq<UserId> {
    if candidates == [] then []
    else
      var last := candidates[|candidates| - 1];
      Newcomers(t, existing, candidates[..|candidates| - 1]) + if IsNewcomer(t, existing, last) then [last] else []
  }

  /** The loop stops once it has `limit` users, which it checks after it has added one. */
  function Bootstrap(t: Tables, existing: seq<UserId>, candidates: seq<UserId>, limit: nat): seq<UserId> {
    Take(if limit == 0 then 1 else limit, Newcomers(t, existing, candidates))
  }

  function Chosen(t: Tables, existing: seq<UserId>, candidates: seq<UserId>, limit: nat): seq<UserId> {
    Take(limit, Bootstrap(t, existing, candidates, limit) + existing)
  }

  // ---------- One user ----------

  datatype Decision = WithinTolerance | RaiseRefused | TooLarge | Reconcile

  function Abs(n: int): nat {
    if n < 0 then 0 - n else n
  }

  function Decide(t: Tables, options: Options, bootstrap: seq<UserId>, u: UserId, target: int): Decision {
    var delta := target - LiabilityOf(t.journals, u);
    if Abs(delta) <= options.tolerance then WithinTolerance
    else if delta > 0 && u !in bootstrap then RaiseRefused
    else if Abs(delta) > options.maxAdjustment then TooLarge
    else Reconcile
  }

  /** The tables and the counters after one user. A fault in the worker's own audit write counts the
      user a second time. */
  function ProcessUser(t: Tables, counts: Counts, options: Options, bootstrap: seq<UserId>, u: UserId,
                       env: Environment):
    (Tables, Counts)
  {
    var c := counts.(checked := counts.checked + 1);
    var fault := env.faults(u);
    var again := if fault == AuditFails then 1 else 0;
    if fault == WalletFails then (t, c.(failed := c.failed + 1))
    else
      match Decide(t, options, bootstrap, u, env.target(u))
      case WithinTolerance => (t, c.(skipped := c.skipped + 1))
      case RaiseRefused => (t, c.(skipped := c.skipped + 1, failed := c.failed + again))
      case TooLarge => (t, c.(failed := c.failed + 1 + again))
      case Reconcile =>
        var (t', reply) := ReconcileBalance(t, u, env.target(u), env.clock(u));
        if fault == OperationFails then (t', c.(failed := c.failed + 1))
        else if reply.adjusted then (t', c.(adjusted := c.adjusted + 1, failed := c.failed + again))
        else (t', c.(skipped := c.skipped + 1))
  }

  const NOTHING := Counts(0, 0, 0, 0)

  function ProcessAll(t: Tables, options: Options, bootstrap: seq<UserId>, users: seq<UserId>, env: Environment):
    (Tables, Counts)
  {
    if users == [] then (t, NOTHING)
    else
      var (t1, c1) := ProcessAll(t, options, bootstrap, users[..|users| - 1], env);
      ProcessUser(t1, c1, options, bootstrap, users[|users| - 1], env)
  }

  function Cycle(t: Tables, options: Options, existing: seq<UserId>, candidates: seq<UserId>, limit: nat,
                 env: Environment):
    (Tables, Counts)
  {
    ProcessAll(t, options, Bootstrap(t, existing, candidates, limit), Chosen(t, existing, candidates, limit), env)
  }

  // ---------- The cycle as it runs ----------

  class Worker {
    const ledger: PostgresLedger.Repository
    const options: Options

    constructor (ledger: PostgresLedger.Repository, options: Options)
      ensures this.ledger == ledger && this.options == options
    {
      this.ledger, this.options := ledger, options;
    }

    /** The first newcomers among the candidates. */
    method SelectBootstrapUsers(existing: seq<UserId>, candidates: seq<UserId>, limit: nat)
      returns (bootstrapUserIds: seq<UserId>)
      ensures bootstrapUserIds == Bootstrap(ledger.Db(), existing, candidates, limit)
    {
      hide HasFootprint;
      bootstrapUserIds := [];
      ghost var t := ledger.Db();
      for i := 0 to |candidates|
        invariant bootstrapUserIds == Newcomers(t, existing, candidates[..i])
        invariant limit == 0 ==> bootstrapUserIds == []
        invariant limit > 0 ==> |bootstrapUserIds| < limit
      {
        assert candidates[..i + 1][..i] == candidates[..i];
        NewcomersPrefix(t, existing, candidates, i + 1);
        var userId := candidates[i];
        if userId in existing {
          continue;
        }
        var hasFootprint := HasLedgerFootprint(userId);
        if hasFootprint {
          continue;
        }
        bootstrapUserIds := bootstrapUserIds + [userId];
        if |bootstrapUserIds| >= limit {
          return;
        }
      }
      assert candidates[..|candidates|] == candidates;
    }

    method HasLedgerFootprint(userId: UserId) returns (found: bool)
      ensures found == HasFootprint(ledger.Db(), userId)
    {
      found := Available(userId) in ledger.ledgerAccounts || OfflinePending(userId) in ledger.ledgerAccounts
               || WithdrawPending(userId) in ledger.ledgerAccounts;
    }

    method ReconcileUser(userId: UserId, bootstrap: seq<UserId>, env: Environment,
                         counts: Counts) returns (after: Counts)
      modifies ledger
      ensures (ledger.Db(), after) == ProcessUser(old(ledger.Db()), counts, options, bootstrap, userId, env)
    {
      hide PostgresSpec.ReconcileBalance, Projected;
      after := counts.(checked := counts.checked + 1);
      var fault := env.faults(userId);
      if fault == WalletFails {
        return after.(failed := after.failed + 1);
      }
      var target := env.target(userId);
      var current := Projected(ledger.journals, userId);
      var delta := target - (current.balance + current.lockedBalance);
      var absoluteDelta := if delta < 0 then 0 - delta else delta;
      if absoluteDelta <= options.tolerance {
        return after.(skipped := after.skipped + 1);
      }
      if delta > 0 && userId !in bootstrap {
        after := after.(skipped := after.skipped + 1);
      } else if absoluteDelta > options.maxAdjustment {
        after := after.(failed := after.failed + 1);
      } else {
        ReplyKind(ledger.Db(), userId, target, env.clock(userId));
        var result := ledger.ReconcileOfflinePayUserBalance(userId, target, env.clock(userId));
        if fault == OperationFails {
          return after.(failed := after.failed + 1);
        }
        if !result.adjusted {
          return after.(skipped := after.skipped + 1);
        }
        after := after.(adjusted := after.adjusted + 1);
      }
      if fault == AuditFails {
        after := after.(failed := after.failed + 1);
      }
    }

    method RunCycle(existing: seq<UserId>, candidates: seq<UserId>, limit: nat,
                    env: Environment) returns (counts: Counts)
      modifies ledger
      ensures (ledger.Db(), counts) == Cycle(old(ledger.Db()), options, existing, candidates, limit, env)
    {
      hide ProcessUser, Bootstrap;
      var bootstrap := SelectBootstrapUsers(existing, candidates, limit);
      var userIds := Take(limit, bootstrap + existing);
      counts := Counts(0, 0, 0, 0);
      for i := 0 to |userIds|
        invariant (ledger.Db(), counts) == ProcessAll(old(ledger.Db()), options, bootstrap, userIds[..i], env)
      {
        assert userIds[..i + 1][..i] == userIds[..i];
        counts := ReconcileUser(userIds[i], bootstrap, env, counts);
      }
      assert userIds[..|userIds|] == userIds;
    }
  }

  lemma ReplyKind(t: Tables, u: UserId, target: int, now: Instant)
    ensures PostgresSpec.ReconcileBalance(t, u, target, now).1.ReconcileReply?
  {
  }

  lemma {:induction false} NewcomersPrefix(t: Tables, existing: seq<UserId>, candidates: seq<UserId>, i: nat)
    requires i <= |candidates|
    ensures Newcomers(t, existing, candidates[..i]) <= Newcomers(t, existing, candidates)
  {
    hide HasFootprint;
    if i == |candidates| {
      assert candidates[..i] == candidates;
    } else {
      var before := candidates[..|candidates| - 1];
      NewcomersPrefix(t, existing, before, i);
      assert before[..i] == candidates[..i];
    }
  }

  // ---------- What a cycle can do to a user ----------

  /** Nothing, or a pull to the target: further away than the tolerance, no further than the cap,
      and upwards only for a newcomer. */
  ghost predicate PulledAtMostOnce(t: Tables, t': Tables, options: Options, u: UserId, target: int) {
    var before := LiabilityOf(t.journals, u);
    var after := LiabilityOf(t'.journals, u);
    || after == before
    || (&& after == target
        && options.tolerance < Abs(after - before) <= options.maxAdjustment
        && (after > before ==> !HasPostings(t.journals, u)))
  }

  ghost predicate OthersKept(t: Tables, t': Tables, u: UserId) {
    forall v :: v != u ==> Projected(t'.journals, v) == Projected(t.journals, v)
                           && HasPostings(t'.journals, v) == HasPostings(t.journals, v)
  }

  lemma PullKeepsOthers(t: Tables, u: UserId, target: int, now: Instant)
    requires Inv(t)
    ensures OthersKept(t, PostgresSpec.ReconcileBalance(t, u, target, now).0, u)
  {
    hide Inv, PostgresSpec.ReconcileBalance, Projected, Net, Sums.SumBy;
    var (t', reply) := PostgresSpec.ReconcileBalance(t, u, target, now);
    ReconcileBalanceStep(t, u, target, now);
    RS.ReconcileMeetsTarget(t, u, target, now);
    if reply.adjusted {
      var j := t'.journals[|t.journals|];
      assert t'.journals == t.journals + [j];
      assert forall k :: 0 <= k < |j.postings| ==>
        j.postings[k].account == Available(u) || j.postings[k].account == System(OfflinePayReconciliation);
      forall v | v != u ensures HasPostings(t'.journals, v) == HasPostings(t.journals, v) {
        if HasPostings(t.journals, v) {
          var i :| 0 <= i < |t.journals| && PostsTo(t.journals[i], v);
          assert PostsTo(t'.journals[i], v);
        }
      }
    }
  }

  ghost predicate PostingsKept(t: Tables, t': Tables) {
    forall u :: HasPostings(t.journals, u) ==> HasPostings(t'.journals, u)
  }

  lemma PostingsOnlyGrow(t: Tables, u: UserId, target: int, now: Instant)
    requires Inv(t)
    ensures PostingsKept(t, PostgresSpec.ReconcileBalance(t, u, target, now).0)
  {
    hide Inv, PostgresSpec.ReconcileBalance, Projected, Net, Sums.SumBy, PostsTo;
    var t' := PostgresSpec.ReconcileBalance(t, u, target, now).0;
    ReconcileBalanceStep(t, u, target, now);
    assert t.journals <= t'.journals;
    forall v | HasPostings(t.journals, v) ensures HasPostings(t'.journals, v) {
      var i :| 0 <= i < |t.journals| && PostsTo(t.journals[i], v);
      assert PostsTo(t'.journals[i], v);
    }
  }

  lemma UserStep(t: Tables, counts: Counts, options: Options, bootstrap: seq<UserId>, u: UserId, env: Environment)
    requires Inv(t)
    ensures var t' := ProcessUser(t, counts, options, bootstrap, u, env).0;
      && Inv(t')
      && OthersKept(t, t', u) && PostingsKept(t, t')
      && PulledAtMostOnce(t, t', options, u, env.target(u))
  {
    hide Inv, PostgresSpec.ReconcileBalance, HasPostings, Projected;
    var target := env.target(u);
    ReconcileBalanceStep(t, u, target, env.clock(u));
    RS.ReconcileMeetsTarget(t, u, target, env.clock(u));
    PullKeepsOthers(t, u, target, env.clock(u));
    PostingsOnlyGrow(t, u, target, env.clock(u));
  }

  ghost predicate AllPulled(t: Tables, t': Tables, options: Options, env: Environment) {
    forall u :: PulledAtMostOnce(t, t', options, u, env.target(u))
  }

  lemma {:induction false} ProcessAllSafe(t: Tables, options: Options, bootstrap: seq<UserId>, users: seq<UserId>,
                                          env: Environment)
    requires Inv(t)
    ensures var t' := ProcessAll(t, options, bootstrap, users, env).0;
      && Inv(t') && PostingsKept(t, t') && AllPulled(t, t', options, env)
      && (forall u :: u !in users ==> LiabilityOf(t'.journals, u) == LiabilityOf(t.journals, u))
  {
    hide Inv, ProcessUser, HasPostings, Projected, PulledAtMostOnce;
    if users == [] {
      StillPulled(t, options, env);
    } else {
      var before := users[..|users| - 1];
      var u := users[|users| - 1];
      ProcessAllSafe(t, options, bootstrap, before, env);
      var (t1, c1) := ProcessAll(t, options, bootstrap, before, env);
      UserStep(t1, c1, options, bootstrap, u, env);
      FirstPullWins(t, t1, ProcessUser(t1, c1, options, bootstrap, u, env).0, options, u, env);
      assert forall v :: v !in users ==> v !in before && v != u;
    }
  }

  lemma StillPulled(t: Tables, options: Options, env: Environment)
    ensures AllPulled(t, t, options, env)
  {
  }

  /** A user listed twice is pulled once: after the first pull it is at the target. */
  lemma FirstPullWins(t: Tables, t1: Tables, t2: Tables, options: Options, u: UserId, env: Environment)
    requires AllPulled(t, t1, options, env) && PostingsKept(t, t1)
    requires OthersKept(t1, t2, u) && PulledAtMostOnce(t1, t2, options, u, env.target(u))
    ensures AllPulled(t, t2, options, env)
  {
    hide HasPostings, Projected;
    forall v ensures PulledAtMostOnce(t, t2, options, v, env.target(v)) {
      assert PulledAtMostOnce(t, t1, options, v, env.target(v));
    }
  }

  /** Over any run of the ledger, a worker cycle leaves every user where it was or takes it exactly to
      its canonical balance; the move is larger than the tolerance, within the cap, and upwards only
      for a user without a single posting. Users it did not choose keep their liability. */
  lemma EveryCycleSafe(limits: Limits, ops: seq<PostgresOp>, options: Options, existing: seq<UserId>,
                       candidates: seq<UserId>, limit: nat, env: Environment)
    ensures var t := Run(limits, ops);
            var t' := Cycle(t, options, existing, candidates, limit, env).0;
      && Inv(t') && AllPulled(t, t', options, env)
      && (forall u :: u !in Chosen(t, existing, candidates, limit) ==>
            LiabilityOf(t'.journals, u) == LiabilityOf(t.journals, u))
      && (forall u :: HasPostings(t.journals, u) ==> LiabilityOf(t'.journals, u) <= LiabilityOf(t.journals, u))
  {
    hide Run, Inv, ProcessAll, Projected, HasPostings, Bootstrap, Chosen;
    var t := Run(limits, ops);
    EveryRun(limits, ops);
    ProcessAllSafe(t, options, Bootstrap(t, existing, candidates, limit), Chosen(t, existing, candidates, limit), env);
    var t' := Cycle(t, options, existing, candidates, limit, env).0;
    forall u | HasPostings(t.journals, u) ensures LiabilityOf(t'.journals, u) <= LiabilityOf(t.journals, u) {
      assert PulledAtMostOnce(t, t', options, u, env.target(u));
    }
  }

  // ---------- A cycle is a run ----------

  /** The ledger calls a cycle makes, in order. */
  function Calls(t: Tables, options: Options, bootstrap: seq<UserId>, users: seq<UserId>, env: Environment):
    seq<PostgresOp>
  {
    if users == [] then []
    else
      var before, u := users[..|users| - 1], users[|users| - 1];
      var t1 := ProcessAll(t, options, bootstrap, before, env).0;
      Calls(t, options, bootstrap, before, env)
      + if env.faults(u) != WalletFails && Decide(t1, options, bootstrap, u, env.target(u)) == Reconcile
        then [Offline(ReconcileBalanceOp(u, env.target(u), env.clock(u)))] else []
  }

  lemma UserCall(t: Tables, c: Counts, options: Options, bootstrap: seq<UserId>, u: UserId, env: Environment)
    ensures ProcessUser(t, c, options, bootstrap, u, env).0 ==
            if env.faults(u) != WalletFails && Decide(t, options, bootstrap, u, env.target(u)) == Reconcile
            then PostgresSpec.ReconcileBalance(t, u, env.target(u), env.clock(u)).0 else t
  {
    hide PostgresSpec.ReconcileBalance, Decide;
  }

  lemma OneMoreCall(limits: Limits, ops: seq<PostgresOp>, u: UserId, env: Environment)
    ensures Run(limits, ops + [Offline(ReconcileBalanceOp(u, env.target(u), env.clock(u)))]) ==
            PostgresSpec.ReconcileBalance(Run(limits, ops), u, env.target(u), env.clock(u)).0
  {
    hide PostgresSpec.ReconcileBalance;
    var call := Offline(ReconcileBalanceOp(u, env.target(u), env.clock(u)));
    assert (ops + [call])[..|ops|] == ops;
  }

  /** A cycle after a run is a longer run, so whatever every run keeps, every number of cycles keeps. */
  lemma {:induction false} CycleIsRun(limits: Limits, ops: seq<PostgresOp>, options: Options, bootstrap: seq<UserId>,
                                      users: seq<UserId>, env: Environment)
    ensures var t := Run(limits, ops);
            ProcessAll(t, options, bootstrap, users, env).0 ==
            Run(limits, ops + Calls(t, options, bootstrap, users, env))
  {
    hide PostgresSpec.ReconcileBalance, Decide, ProcessUser, Run;
    var t := Run(limits, ops);
    if users == [] {
      assert ops + [] == ops;
    } else {
      var before, u := users[..|users| - 1], users[|users| - 1];
      CycleIsRun(limits, ops, options, bootstrap, before, env);
      var made := ops + Calls(t, options, bootstrap, before, env);
      var call := Offline(ReconcileBalanceOp(u, env.target(u), env.clock(u)));
      var (t1, c1) := ProcessAll(t, options, bootstrap, before, env);
      UserCall(t1, c1, options, bootstrap, u, env);
      OneMoreCall(limits, made, u, env);
      assert ops + (Calls(t, options, bootstrap, before, env) + [call]) == made + [call];
      assert ops + (Calls(t, options, bootstrap, before, env) + []) == made;
    }
  }

  /** After any run and a cycle after it, every upward reconciliation was its user's first posting: no
      number of cycles raises a user twice, or one that had a posting. */
  lemma CyclesNeverRaiseAgain(limits: Limits, ops: seq<PostgresOp>, options: Options, existing: seq<UserId>,
                              candidates: seq<UserId>, limit: nat, env: Environment)
    ensures var t := Run(limits, ops);
            RS.RaisesComeFirst(Cycle(t, options, existing, candidates, limit, env).0.journals)
  {
    hide Run, ProcessAll, Calls, Bootstrap, Chosen, RS.RaisesComeFirst;
    var t := Run(limits, ops);
    var bootstrap, users := Bootstrap(t, existing, candidates, limit), Chosen(t, existing, candidates, limit);
    CycleIsRun(limits, ops, options, bootstrap, users, env);
    RS.EveryRunRaisesFirst(limits, ops + Calls(t, options, bootstrap, users, env));
  }

  // ---------- What a fault-free cycle achieves ----------

  /** Without faults, a chosen user ends within the tolerance unless the cap or the sign rule
      stopped it. */
  lemma UserReachesTarget(t: Tables, counts: Counts, options: Options, bootstrap: seq<UserId>, u: UserId,
                          env: Environment)
    requires Inv(t) && env.faults(u) != WalletFails
    ensures var t' := ProcessUser(t, counts, options, bootstrap, u, env).0;
            var delta := env.target(u) - LiabilityOf(t.journals, u);
      Abs(env.target(u) - LiabilityOf(t'.journals, u)) <= options.tolerance <==>
        || Abs(delta) <= options.tolerance
        || (Abs(delta) <= options.maxAdjustment && (delta > 0 ==> u in bootstrap && !HasPostings(t.journals, u)))
  {
    hide Inv, PostgresSpec.ReconcileBalance, HasPostings, Projected;
    ReconcileBalanceStep(t, u, env.target(u), env.clock(u));
    RS.ReconcileMeetsTarget(t, u, env.target(u), env.clock(u));
  }

  // ---------- Counters ----------

  /** The worker's audit write after counting a user fails: the user is counted as failed as well. */
  predicate CountedTwice(t: Tables, options: Options, bootstrap: seq<UserId>, u: UserId, env: Environment) {
    && env.faults(u) == AuditFails
    && match Decide(t, options, bootstrap, u, env.target(u))
       case WithinTolerance => false
       case RaiseRefused => true
       case TooLarge => true
       case Reconcile => PostgresSpec.ReconcileBalance(t, u, env.target(u), env.clock(u)).1.adjusted
  }

  function Excess(c: Counts): int {
    c.adjusted + c.skipped + c.failed - c.checked
  }

  /** Every user is checked, and the three outcomes add up to the users checked if and only if no
      audit write failed after its user was counted. */
  lemma {:induction false} CountsAddUpExactly(t: Tables, options: Options, bootstrap: seq<UserId>, users: seq<UserId>,
                                              env: Environment)
    ensures var c := ProcessAll(t, options, bootstrap, users, env).1;
      && c.checked == |users|
      && Excess(c) >= 0
      && (Excess(c) == 0 <==>
            forall i :: 0 <= i < |users| ==>
              !CountedTwice(ProcessAll(t, options, bootstrap, users[..i], env).0, options, bootstrap, users[i], env))
  {
    hide PostgresSpec.ReconcileBalance, ProcessUser, CountedTwice;
    if users != [] {
      var before := users[..|users| - 1];
      CountsAddUpExactly(t, options, bootstrap, before, env);
      var (t1, c1) := ProcessAll(t, options, bootstrap, before, env);
      CountOne(t1, c1, options, bootstrap, users[|users| - 1], env);
      assert forall i :: 0 <= i < |before| ==> before[..i] == users[..i] && before[i] == users[i];
    }
  }

  lemma CountOne(t: Tables, c: Counts, options: Options, bootstrap: seq<UserId>, u: UserId, env: Environment)
    ensures var c' := ProcessUser(t, c, options, bootstrap, u, env).1;
      && c'.checked == c.checked + 1
      && Excess(c') == Excess(c) + if CountedTwice(t, options, bootstrap, u, env) then 1 else 0
  {
    hide Projected, HasFootprint, PostgresSpec.Post, Net;
  }
}
