/** The publisher worker: recover, claim, publish, back off or dead-letter. */
module OutboxWorker {
  import opened Domain
  import opened OutboxStore
  import opened StableSort
  import InMemoryLedger

  datatype Options = Options(
    batchSize: nat, retryBaseDelayMs: nat, retryMaxDelayMs: nat, maxAttempts: nat, staleTimeoutSec: nat)

  function Pow2(n: nat): nat {
    if n == 0 then 1 else 2 * Pow2(n - 1)
  }

  /** `Math.min(max, base * 2 ** Math.max(attempts - 1, 0))` */
  function Backoff(o: Options, attempts: nat): nat {
    var delay := o.retryBaseDelayMs * Pow2(if attempts >= 1 then attempts - 1 else 0);
    if delay <= o.retryMaxDelayMs then delay else o.retryMaxDelayMs
  }

  /** How publishing one event ends; the text is the exception's message. */
  datatype Publication = Delivered | Undelivered(error: string)

  /** What a cycle meets from outside: the clock at each of its calls, and how publishing ends. */
  datatype Environment = Environment(
    recoverAt: Instant, claimAt: Instant, settleAt: nat -> Instant, publication: nat -> Publication)

  /** What becomes of an event the worker claimed with this attempt count. */
  function Settled(es: seq<OutboxEvent>, id: nat, attempts: nat, p: Publication, o: Options, now: Instant):
    seq<OutboxEvent>
  {
    match p
    case Delivered => Step(es, MarkPublished(id, now))
    case Undelivered(error) =>
      if attempts >= o.maxAttempts then Step(es, DeadLetter(id, error, now))
      else Step(es, Reschedule(id, error, now + Backoff(o, attempts)))
  }

  /** The claimed events settled one after the other; attempt counts are those of the claim. */
  function SettleAll(claimed: seq<OutboxEvent>, ids: seq<nat>, o: Options, env: Environment): (es: seq<OutboxEvent>)
    ensures |es| == |claimed|
  {
    if ids == [] then claimed
    else
      var id := ids[|ids| - 1];
      var before := SettleAll(claimed, ids[..|ids| - 1], o, env);
      Settled(before, id, if id < |claimed| then claimed[id].attempts else 0, env.publication(id), o, env.settleAt(id))
  }

  function Recovered(es: seq<OutboxEvent>, o: Options, env: Environment): seq<OutboxEvent> {
    Step(es, RecoverStale(o.staleTimeoutSec, env.recoverAt))
  }

  function Cycle(es: seq<OutboxEvent>, o: Options, env: Environment): seq<OutboxEvent> {
    var recovered := Recovered(es, o, env);
    SettleAll(Step(recovered, Claim(o.batchSize, env.claimAt)), ClaimedIds(recovered, o.batchSize, env.claimAt), o, env)
  }

  class Worker {
    const ledger: InMemoryLedger.Ledger
    const options: Options
    var running: bool

    constructor (ledger: InMemoryLedger.Ledger, options: Options)
      ensures this.ledger == ledger && this.options == options && !running
    {
      this.ledger, this.options, running := ledger, options, false;
    }

    /** One cycle, unless one is running. */
    method RunCycle(env: Environment)
      modifies this`running, ledger`outbox
      ensures running == old(running)
      ensures ledger.outbox == if old(running) then old(ledger.outbox) else Cycle(old(ledger.outbox), options, env)
    {
      hide Step, ClaimedIds, Backoff;
      if running {
        return;
      }
      running := true;
      ghost var start := Recovered(ledger.outbox, options, env);
      StepKeepsPayloads(start, Claim(options.batchSize, env.claimAt));
      ClaimedInRange(start, options.batchSize, env.claimAt);
      var recovered := ledger.RecoverStaleProcessingOutboxEvents(options.staleTimeoutSec, env.recoverAt);
      var ids := ledger.ClaimPendingOutboxEvents(options.batchSize, env.claimAt);
      var claimed := ledger.outbox;
      for k := 0 to |ids|
        invariant ledger.outbox == SettleAll(claimed, ids[..k], options, env)
      {
        var id := ids[k];
        assert ids[..k + 1][..k] == ids[..k] && id in ids;
        var attempts := claimed[id].attempts;
        match env.publication(id) {
          case Delivered => ledger.MarkOutboxEventPublished(id, env.settleAt(id));
          case Undelivered(message) =>
            if attempts >= options.maxAttempts {
              ledger.DeadLetterOutboxEvent(id, message, env.settleAt(id));
              continue;
            }
            ledger.RescheduleOutboxEvent(id, message, env.settleAt(id) + Backoff(options, attempts));
        }
      }
      assert ids[..|ids|] == ids;
      running := false;
    }
  }

  lemma ClaimedInRange(es: seq<OutboxEvent>, limit: nat, now: Instant)
    ensures forall i: nat :: i in ClaimedIds(es, limit, now) ==> i < |es|
  {
    OldestIsQueuePrefix(es, Claimable(now), None, limit);
  }

  // ---------- A completed cycle ----------

  lemma {:induction false} UnclaimedUntouched(claimed: seq<OutboxEvent>, ids: seq<nat>, o: Options,
                                              env: Environment, id: nat)
    requires id !in ids && id < |claimed|
    ensures SettleAll(claimed, ids, o, env)[id] == claimed[id]
  {
    if ids != [] {
      assert ids[|ids| - 1] in ids;
      UnclaimedUntouched(claimed, ids[..|ids| - 1], o, env, id);
    }
  }

  /** A claimed event is settled once, from the record it was claimed with. */
  lemma {:induction false} SettledOnce(claimed: seq<OutboxEvent>, ids: seq<nat>, o: Options, env: Environment, id: nat)
    requires forall a, b :: 0 <= a < b < |ids| ==> ids[a] != ids[b]
    requires id in ids && id < |claimed|
    ensures SettleAll(claimed, ids, o, env)[id] ==
            Settled(claimed, id, claimed[id].attempts, env.publication(id), o, env.settleAt(id))[id]
  {
    hide Backoff;
    var last := ids[|ids| - 1];
    if last != id {
      SettledOnce(claimed, ids[..|ids| - 1], o, env, id);
    } else {
      UnclaimedUntouched(claimed, ids[..|ids| - 1], o, env, id);
    }
  }

  /** A completed cycle claims the oldest available pending events, once each, and settles each of them
      by how its publication ends: published, dead-lettered at the last attempt, or pending again
      after the backoff; no other event is touched but by the recovery. */
  lemma CycleCompletes(es: seq<OutboxEvent>, o: Options, env: Environment)
    ensures var recovered := Recovered(es, o, env);
            var ids, after := ClaimedIds(recovered, o.batchSize, env.claimAt), Cycle(es, o, env);
      && |after| == |es| && InQueueOrder(recovered, ids) && |ids| <= o.batchSize
      && (forall i: nat :: i in ids ==>
            && i < |es| && Claimable(env.claimAt)(recovered[i])
            && after[i].attempts == recovered[i].attempts + 1
            && match env.publication(i)
               case Delivered => after[i].status == Published
               case Undelivered(error) =>
                 && after[i].lastError == Some(error)
                 && if after[i].attempts >= o.maxAttempts then after[i].status == DeadLettered
                    else after[i].status == Pending
                         && after[i].availableAt == env.settleAt(i) + Backoff(o, after[i].attempts))
      && (forall i: nat :: i < |es| && i !in ids ==> after[i] == recovered[i])
      && (forall i: nat, j: nat ::
            (i in ids && j < |es| && j !in ids && Claimable(env.claimAt)(recovered[j]))
            ==> Before(recovered, i, j) && |ids| == o.batchSize)
  {
    hide Select, Sort, Backoff, InQueueOrder, SettleAll;
    var recovered := Recovered(es, o, env);
    var ids := ClaimedIds(recovered, o.batchSize, env.claimAt);
    var claimed := Step(recovered, Claim(o.batchSize, env.claimAt));
    OldestIsQueuePrefix(recovered, Claimable(env.claimAt), None, o.batchSize);
    QueueOrderDistinct(recovered, ids);
    forall i: nat | i in ids
      ensures i < |es|
      ensures SettleAll(claimed, ids, o, env)[i] ==
              Settled(claimed, i, claimed[i].attempts, env.publication(i), o, env.settleAt(i))[i]
    {
      SettledOnce(claimed, ids, o, env, i);
    }
    forall i: nat | i < |es| && i !in ids ensures SettleAll(claimed, ids, o, env)[i] == recovered[i] {
      UnclaimedUntouched(claimed, ids, o, env, i);
    }
    var all := Select(recovered, Claimable(env.claimAt), None);
    if j: nat :| j in all && j !in ids && |ids| < o.batchSize {
      AllTaken(recovered, env.claimAt, o.batchSize);
    }
  }

  /** When the batch is not full, every matching event was claimed. */
  lemma AllTaken(es: seq<OutboxEvent>, now: Instant, limit: nat)
    ensures |ClaimedIds(es, limit, now)| < limit ==>
              forall i: nat :: i in Select(es, Claimable(now), None) ==> i in ClaimedIds(es, limit, now)
  {
    SortMembers<nat>(Select(es, Claimable(now), None), CreatedKey(es));
  }
}
