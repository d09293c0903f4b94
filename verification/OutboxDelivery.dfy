/** How often an event can be attempted, whatever is interleaved with the worker: operators replaying
    and acknowledging, new events arriving, the worker crashing between two events. */
module OutboxDelivery {
  import opened Domain
  import opened OutboxStore
  import W = OutboxWorker

  /** An event the worker holds: its id and the attempt count it saw when claiming it. */
  datatype Held = Held(id: nat, attempts: nat)

  /** The store, what the worker holds, and two counts per event kept for the statement. */
  datatype World = World(events: seq<OutboxEvent>, held: seq<Held>, replays: seq<nat>, recoveries: seq<nat>)

  const EMPTY := World([], [], [], [])

  datatype WorldOp =
    | Arrive(payload: Payload, now: Instant)
    | WorkerRecover(now: Instant)
    | WorkerClaim(now: Instant)
    | WorkerSettle(publication: W.Publication, now: Instant)
    | WorkerCrash
    | OperatorReplay(ids: Option<set<nat>>, only: Option<EventStatus>, max: Option<nat>, now: Instant)
    | OperatorAcknowledge(ids: Option<set<nat>>, max: Option<nat>, acknowledgement: Acknowledgement)

  function Bump(counts: seq<nat>, ids: seq<nat>): seq<nat> {
    seq(|counts|, i requires 0 <= i < |counts| => if i in ids then counts[i] + 1 else counts[i])
  }

  function Holding(es: seq<OutboxEvent>, ids: seq<nat>): seq<Held> {
    seq(|ids|, k requires 0 <= k < |ids| => Held(ids[k], if ids[k] < |es| then es[ids[k]].attempts else 0))
  }

  /** A step of the one worker or of somebody else. The worker recovers and claims only between cycles. */
  function Next(w: World, o: W.Options, op: WorldOp): World {
    match op
    case Arrive(payload, now) =>
      World(w.events + [NewEvent(payload, now)], w.held, w.replays + [0], w.recoveries + [0])
    case WorkerRecover(now) =>
      if w.held != [] then w
      else w.(events := Step(w.events, RecoverStale(o.staleTimeoutSec, now)),
              recoveries := Bump(w.recoveries, Select(w.events, Stale(o.staleTimeoutSec, now), None)))
    case WorkerClaim(now) =>
      if w.held != [] then w
      else
        var claimed := Step(w.events, Claim(o.batchSize, now));
        w.(events := claimed, held := Holding(claimed, ClaimedIds(w.events, o.batchSize, now)))
    case WorkerSettle(publication, now) =>
      if w.held == [] then w
      else w.(events := W.Settled(w.events, w.held[0].id, w.held[0].attempts, publication, o, now), held := w.held[1..])
    case WorkerCrash => w.(held := [])
    case OperatorReplay(ids, only, max, now) =>
      w.(events := Step(w.events, Replay(ids, only, max, now)),
         replays := Bump(w.replays, Oldest(w.events, HasStatus(only), ids, PageSize(ids, max))))
    case OperatorAcknowledge(ids, max, acknowledgement) =>
      w.(events := Step(w.events, Acknowledge(ids, max, acknowledgement)))
  }

  function Run(o: W.Options, ops: seq<WorldOp>): World {
    if ops == [] then EMPTY else Next(Run(o, ops[..|ops| - 1]), o, ops[|ops| - 1])
  }

  /** An event's allowance of attempts. */
  function Allowance(w: World, o: W.Options, i: nat): nat
    requires i < |w.replays| && i < |w.recoveries|
  {
    o.maxAttempts + w.replays[i] + w.recoveries[i]
  }

  ghost predicate WithinAllowance(w: World, o: W.Options, i: nat)
    requires i < |w.events| && i < |w.replays| && i < |w.recoveries|
  {
    var e := w.events[i];
    && e.attempts <= Allowance(w, o, i)
    && (e.status == Pending ==> e.attempts < Allowance(w, o, i))
    && (e.status == DeadLettered ==> e.attempts >= o.maxAttempts)
  }

  ghost predicate Inv(w: World, o: W.Options) {
    && |w.replays| == |w.events| == |w.recoveries|
    && (forall i: nat :: i < |w.events| ==> WithinAllowance(w, o, i))
    && (forall k :: 0 <= k < |w.held| ==>
          w.held[k].id < |w.events| && w.held[k].attempts == w.events[w.held[k].id].attempts)
  }

  lemma SelectedInRange(es: seq<OutboxEvent>, p: OutboxEvent -> bool, chosen: Option<set<nat>>, limit: nat)
    ensures forall i: nat :: i in Oldest(es, p, chosen, limit) ==> i < |es| && p(es[i])
  {
    OldestIsQueuePrefix(es, p, chosen, limit);
  }

  lemma InvKept(w: World, o: W.Options, op: WorldOp)
    requires Inv(w, o) && o.maxAttempts >= 1
    ensures Inv(Next(w, o, op), o)
  {
    hide Oldest, Select, Stale, HasStatus, W.Backoff;
    var w' := Next(w, o, op);
    match op
    case WorkerClaim(now) =>
      SelectedInRange(w.events, Claimable(now), None, o.batchSize);
      ClaimKept(w, o, now);
    case OperatorReplay(ids, only, max, now) =>
      forall i: nat | i < |w'.events| ensures WithinAllowance(w', o, i) {
        assert WithinAllowance(w, o, i);
      }
    case WorkerRecover(now) =>
      forall i: nat | i < |w'.events| ensures WithinAllowance(w', o, i) {
        assert WithinAllowance(w, o, i);
      }
    case OperatorAcknowledge(_, _, _) =>
      forall i: nat | i < |w'.events| ensures WithinAllowance(w', o, i) {
        assert WithinAllowance(w, o, i);
      }
    case WorkerSettle(publication, now) =>
      forall i: nat | i < |w'.events| ensures WithinAllowance(w', o, i) {
        assert WithinAllowance(w, o, i);
      }
    case Arrive(_, _) =>
      forall i: nat | i < |w'.events| ensures WithinAllowance(w', o, i) {
        assert i < |w.events| ==> WithinAllowance(w, o, i);
      }
    case WorkerCrash =>
      forall i: nat | i < |w'.events| ensures WithinAllowance(w', o, i) {
        assert WithinAllowance(w, o, i);
      }
  }

  lemma ClaimKept(w: World, o: W.Options, now: Instant)
    requires Inv(w, o) && o.maxAttempts >= 1
    requires forall i: nat ::
               i in ClaimedIds(w.events, o.batchSize, now) ==> i < |w.events| && w.events[i].status == Pending
    ensures Inv(Next(w, o, WorkerClaim(now)), o)
  {
    hide ClaimedIds;
    var w' := Next(w, o, WorkerClaim(now));
    var ids := ClaimedIds(w.events, o.batchSize, now);
    forall i: nat | i < |w'.events| ensures WithinAllowance(w', o, i) {
      assert WithinAllowance(w, o, i);
    }
    forall k | 0 <= k < |w'.held|
      ensures w'.held[k].id < |w'.events| && w'.held[k].attempts == w'.events[w'.held[k].id].attempts
    {
      if w.held == [] {
        assert ids[k] in ids;
      }
    }
  }

  /** In every reachable state an event has been attempted at most `maxAttempts` times plus once per
      replay and once per stale recovery. */
  lemma {:induction false} AttemptsBounded(o: W.Options, ops: seq<WorldOp>)
    requires o.maxAttempts >= 1
    ensures Inv(Run(o, ops), o)
  {
    hide Next;
    if ops != [] {
      AttemptsBounded(o, ops[..|ops| - 1]);
      InvKept(Run(o, ops[..|ops| - 1]), o, ops[|ops| - 1]);
    }
  }

  /** An event never replayed nor recovered is dead-lettered after exactly `maxAttempts` claims, and
      until then is pending with fewer. */
  lemma DeadLetteredAfterMax(o: W.Options, ops: seq<WorldOp>, i: nat)
    requires o.maxAttempts >= 1
    requires var w := Run(o, ops); i < |w.events| && i < |w.replays| && i < |w.recoveries|
                                   && w.replays[i] == 0 && w.recoveries[i] == 0
    ensures var e := Run(o, ops).events[i];
      && (e.status == DeadLettered ==> e.attempts == o.maxAttempts)
      && (e.status == Pending ==> e.attempts < o.maxAttempts)
  {
    hide Run;
    AttemptsBounded(o, ops);
    assert WithinAllowance(Run(o, ops), o, i);
  }

  /** When publishing fails, an event never replayed nor recovered goes to the dead letters exactly on
      its attempt number `maxAttempts`; before that it is put back with the backoff delay. */
  lemma FailureDeadLettersAtMax(o: W.Options, ops: seq<WorldOp>, error: string, now: Instant)
    requires o.maxAttempts >= 1
    requires var w := Run(o, ops); w.held != []
    requires var w := Run(o, ops); var i := w.held[0].id;
             i < |w.replays| && i < |w.recoveries| ==> w.replays[i] == 0 && w.recoveries[i] == 0
    ensures var w := Run(o, ops);
            var w' := Next(w, o, WorkerSettle(W.Undelivered(error), now));
            var i := w.held[0].id;
      && i < |w.events| == |w'.events| && w'.events[i].attempts == w.events[i].attempts <= o.maxAttempts
      && if w.events[i].attempts == o.maxAttempts
         then w'.events[i].status == DeadLettered && w'.events[i].lastError == Some(error)
         else w'.events[i].status == Pending && w'.events[i].lastError == Some(error)
              && w'.events[i].availableAt == now + W.Backoff(o, w.events[i].attempts)
  {
    hide Run, W.Backoff;
    AttemptsBounded(o, ops);
    var w := Run(o, ops);
    assert WithinAllowance(w, o, w.held[0].id);
  }

  /** A limit of zero still lets every event be attempted once: the bound needs `maxAttempts >= 1`. */
  lemma ZeroLimitStillAttempts(payload: Payload)
    ensures var o := W.Options(1, 0, 0, 0, 0);
            var w := Run(o, [Arrive(payload, 0), WorkerClaim(0)]);
            |w.events| == |w.replays| == |w.recoveries| == 1 && w.events[0].attempts == 1 > Allowance(w, o, 0)
  {
    var o := W.Options(1, 0, 0, 0, 0);
    var ops := [Arrive(payload, 0), WorkerClaim(0)];
    assert ops[..1] == [Arrive(payload, 0)] && ops[..1][..0] == [];
    var es := [NewEvent(payload, 0)];
    assert Run(o, ops[..1]).events == es;
    var none: seq<OutboxEvent> := es[..0];
    assert Select(none, Claimable(0), None) == [];
    assert Select(es, Claimable(0), None) == [0];
    OldestIsQueuePrefix(es, Claimable(0), None, 1);
    assert ClaimedIds(es, 1, 0)[0] in ClaimedIds(es, 1, 0);
  }

  // ---------- The worker's cycle is a run of these steps ----------

  function Steps(w: World, o: W.Options, ops: seq<WorldOp>): World {
    if ops == [] then w else Next(Steps(w, o, ops[..|ops| - 1]), o, ops[|ops| - 1])
  }

  function Settlements(ids: seq<nat>, env: W.Environment): seq<WorldOp> {
    seq(|ids|, k requires 0 <= k < |ids| => WorkerSettle(env.publication(ids[k]), env.settleAt(ids[k])))
  }

  /** Recover, claim, and settle what was claimed. */
  function CycleSteps(es: seq<OutboxEvent>, o: W.Options, env: W.Environment): seq<WorldOp> {
    [WorkerRecover(env.recoverAt), WorkerClaim(env.claimAt)]
    + Settlements(ClaimedIds(W.Recovered(es, o, env), o.batchSize, env.claimAt), env)
  }

  lemma {:induction false} StepsConcat(w: World, o: W.Options, ops: seq<WorldOp>, more: seq<WorldOp>)
    ensures Steps(w, o, ops + more) == Steps(Steps(w, o, ops), o, more)
  {
    hide Next;
    if more == [] {
      assert ops + more == ops;
    } else {
      var last := |more| - 1;
      StepsConcat(w, o, ops, more[..last]);
      assert (ops + more)[..|ops + more| - 1] == ops + more[..last];
    }
  }

  lemma {:induction false} RunIsSteps(o: W.Options, ops: seq<WorldOp>)
    ensures Run(o, ops) == Steps(EMPTY, o, ops)
  {
    hide Next;
    if ops != [] {
      RunIsSteps(o, ops[..|ops| - 1]);
    }
  }

  lemma {:induction false} SettlesAll(w: World, o: W.Options, claimed: seq<OutboxEvent>, ids: seq<nat>,
                                      env: W.Environment, k: nat)
    requires k <= |ids| && w.events == claimed && w.held == Holding(claimed, ids)
    ensures var w' := Steps(w, o, Settlements(ids, env)[..k]);
      w'.events == W.SettleAll(claimed, ids[..k], o, env) && w'.held == Holding(claimed, ids)[k..]
  {
    hide W.Settled;
    if k > 0 {
      SettlesAll(w, o, claimed, ids, env, k - 1);
      var done := Settlements(ids, env)[..k];
      assert done[..k - 1] == Settlements(ids, env)[..k - 1] && ids[..k][..k - 1] == ids[..k - 1];
      assert done[k - 1] == WorkerSettle(env.publication(ids[k - 1]), env.settleAt(ids[k - 1]));
    }
  }

  lemma OpeningSteps(w: World, o: W.Options, env: W.Environment)
    requires w.held == []
    ensures var w2 := Steps(w, o, [WorkerRecover(env.recoverAt), WorkerClaim(env.claimAt)]);
            var recovered := W.Recovered(w.events, o, env);
            var claimed := Step(recovered, Claim(o.batchSize, env.claimAt));
      w2.events == claimed && w2.held == Holding(claimed, ClaimedIds(recovered, o.batchSize, env.claimAt))
  {
    hide Step, ClaimedIds, Select;
    var ops := [WorkerRecover(env.recoverAt), WorkerClaim(env.claimAt)];
    assert ops[..1] == [WorkerRecover(env.recoverAt)] && ops[..1][..0] == [];
    assert Steps(w, o, ops[..1]) == Next(Steps(w, o, ops[..1][..0]), o, ops[0]);
  }

  /** What `RunCycle` computes is what these steps do to the store, so the attempt bound holds for the
      worker's cycles, whatever the operators did in between. */
  lemma CycleIsSteps(o: W.Options, ops: seq<WorldOp>, env: W.Environment)
    requires Run(o, ops).held == []
    ensures var w := Run(o, ops);
            var w' := Run(o, ops + CycleSteps(w.events, o, env));
      w'.events == W.Cycle(w.events, o, env) && w'.held == []
  {
    hide Step, ClaimedIds, Next, W.SettleAll;
    var w := Run(o, ops);
    var opening := [WorkerRecover(env.recoverAt), WorkerClaim(env.claimAt)];
    var recovered := W.Recovered(w.events, o, env);
    var claimed := Step(recovered, Claim(o.batchSize, env.claimAt));
    var ids := ClaimedIds(recovered, o.batchSize, env.claimAt);
    RunIsSteps(o, ops);
    RunIsSteps(o, ops + CycleSteps(w.events, o, env));
    StepsConcat(EMPTY, o, ops, CycleSteps(w.events, o, env));
    StepsConcat(w, o, opening, Settlements(ids, env));
    OpeningSteps(w, o, env);
    SettlesAll(Steps(w, o, opening), o, claimed, ids, env, |ids|);
    assert Settlements(ids, env)[..|ids|] == Settlements(ids, env) && ids[..|ids|] == ids;
  }
}
