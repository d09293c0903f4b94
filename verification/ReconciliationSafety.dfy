/** Balance reconciliation never raises a user who already has postings, over any run. */
module ReconciliationSafety {
  import opened Domain
  import opened Sums
  import opened PostgresSpec
  import opened PostgresBooks
  import opened PostgresInvariants
  import opened OfflineInvariants

  /** An upward balance reconciliation of user u. */
  ghost predicate IsRaise(j: Journal, u: UserId) {
    exists n: nat :: j.postings == Move(System(OfflinePayReconciliation), Available(u), n)
  }

  ghost predicate NoPostingsBefore(js: seq<Journal>, i: nat, u: UserId) {
    forall k :: 0 <= k < i && k < |js| ==> !PostsTo(js[k], u)
  }

  /** Every raise is its user's first posting. */
  ghost predicate RaisesComeFirst(js: seq<Journal>) {
    forall i: nat, u :: i < |js| && IsRaise(js[i], u) ==> NoPostingsBefore(js, i, u)
  }

  lemma RaisePosts(j: Journal, u: UserId)
    requires IsRaise(j, u)
    ensures PostsTo(j, u)
  {
    assert j.postings[1].account == Available(u);
  }

  /** ... so no user is raised twice. */
  lemma RaisedOnce(js: seq<Journal>, i: nat, k: nat, u: UserId)
    requires RaisesComeFirst(js) && i < |js| && k < |js| && IsRaise(js[i], u) && IsRaise(js[k], u)
    ensures i == k
  {
    RaisePosts(js[i], u);
    RaisePosts(js[k], u);
    assert NoPostingsBefore(js, i, u) && NoPostingsBefore(js, k, u);
  }

  // ---------- One call ----------

  /** `adjusted` means the liability is now the target; otherwise nothing was posted. An existing
      user is only ever brought down. */
  lemma ReconcileMeetsTarget(t: Tables, u: UserId, target: int, now: Instant)
    requires Inv(t)
    ensures var (t', reply) := ReconcileBalance(t, u, target, now);
      && (reply.adjusted ==> LiabilityOf(t'.journals, u) == target)
      && (!reply.adjusted ==> t'.journals == t.journals)
      && (reply.adjusted && HasPostings(t.journals, u) ==> target < LiabilityOf(t.journals, u))
      && (!reply.adjusted ==> target == LiabilityOf(t.journals, u)
                              || (target > LiabilityOf(t.journals, u) && HasPostings(t.journals, u)))
      && forall v :: v != u ==> Projected(t'.journals, v) == Projected(t.journals, v)
  {
    hide Inv, SumBy, Net, ReconcileBalance, HasPostings;
    var (t', reply) := ReconcileBalance(t, u, target, now);
    var delta := target - LiabilityOf(t.journals, u);
    ReconcileBalanceStep(t, u, target, now);
    ReplyEchoes(t, u, target, now);
    if reply.adjusted {
      var j := t'.journals[|t.journals|];
      if delta > 0 {
        NetMove(t.journals, j, System(OfflinePayReconciliation), Available(u), delta);
      } else {
        NetMove(t.journals, j, Available(u), System(OfflinePayReconciliation), 0 - delta);
      }
    }
  }

  lemma ReplyEchoes(t: Tables, u: UserId, target: int, now: Instant)
    ensures var reply := ReconcileBalance(t, u, target, now).1;
            reply.previous == LiabilityOf(t.journals,
                                          u) && reply.delta == target - reply.previous && reply.target == target
  {
  }

  // ---------- Every run ----------

  /** Journals of `after` beyond `before` that raise somebody raise a newcomer. */
  ghost predicate OnlyNewcomersRaised(before: seq<Journal>, after: seq<Journal>) {
    && before <= after
    && forall i: nat, u :: |before| <= i < |after| && IsRaise(after[i], u) ==> NoPostingsBefore(after, i, u)
  }

  /** Only an upward balance reconciliation writes a raise, and only of its own user. */
  lemma RaiseIsBalancePull(t: Tables, op: PostgresOp, k: nat, u: UserId)
    requires k < |StepJournals(t, op)| && IsRaise(StepJournals(t, op)[k], u)
    ensures op.Offline? && op.offlineOp.ReconcileBalanceOp? && op.offlineOp.userId == u
    ensures |StepJournals(t, op)| == 1 && op.offlineOp.target > LiabilityOf(t.journals, u)
  {
    hide Net, Accepts, WritesReceiver, ReceiverCredit, SweepCall, LiabilityOf, IsRaise, ResolveReceiver, FeeOf;
    var j := StepJournals(t, op)[k];
    RaiseShape(j, u);
  }

  lemma RaiseShape(j: Journal, u: UserId)
    requires IsRaise(j, u)
    ensures |j.postings| == 2 && j.postings[0].account == System(OfflinePayReconciliation)
    ensures j.postings[1].account == Available(u)
  {
  }

  lemma StepRaises(t: Tables, limits: Limits, op: PostgresOp)
    requires Inv(t)
    ensures OnlyNewcomersRaised(t.journals, Step(t, limits, op).journals)
  {
    hide Inv, Step, StepJournals, Net, IsRaise, LiabilityOf;
    var js' := Step(t, limits, op).journals;
    StepWrites(t, limits, op);
    forall i: nat, u | |t.journals| <= i < |js'| && IsRaise(js'[i], u) ensures NoPostingsBefore(js', i, u) {
      RaiseIsBalancePull(t, op, i - |t.journals|, u);
      RaisesNewcomer(t, limits, op.offlineOp.userId, op.offlineOp.target, op.offlineOp.now);
    }
  }

  lemma RaisesNewcomer(t: Tables, limits: Limits, u: UserId, target: int, now: Instant)
    requires Inv(t) && target > LiabilityOf(t.journals, u)
    ensures var js' := Step(t, limits, Offline(ReconcileBalanceOp(u, target, now))).journals;
      js' == t.journals || !HasPostings(t.journals, u)
  {
    hide Inv, Net, ReconcileBalance, LiabilityOf;
    ReconcileBalanceStep(t, u, target, now);
  }

  lemma RaisesKept(before: seq<Journal>, after: seq<Journal>)
    requires RaisesComeFirst(before) && OnlyNewcomersRaised(before, after)
    ensures RaisesComeFirst(after)
  {
    forall i: nat, u | i < |after| && IsRaise(after[i], u) ensures NoPostingsBefore(after, i, u) {
      if i < |before| {
        assert before[i] == after[i];
        assert NoPostingsBefore(before, i, u);
      }
    }
  }

  /** Over any run each user is raised at most once, and only before every other posting to that user. */
  lemma {:induction false} EveryRunRaisesFirst(limits: Limits, ops: seq<PostgresOp>)
    ensures RaisesComeFirst(Run(limits, ops).journals)
  {
    hide Inv, Step;
    if ops != [] {
      var t := Run(limits, ops[..|ops| - 1]);
      EveryRunRaisesFirst(limits, ops[..|ops| - 1]);
      EveryRun(limits, ops[..|ops| - 1]);
      StepRaises(t, limits, ops[|ops| - 1]);
      RaisesKept(t.journals, Run(limits, ops).journals);
    }
  }
}
