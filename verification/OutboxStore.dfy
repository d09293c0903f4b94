/** The outbox table: what each store call makes of the sequence of events. An event's id is
    its position; events are never removed. */
module OutboxStore {
  import opened Domain
  import opened StableSort

  datatype OutboxOp =
    | Claim(limit: nat, now: Instant)
    | MarkPublished(id: nat, now: Instant)
    | Reschedule(id: nat, error: string, availableAt: Instant)
    | DeadLetter(id: nat, error: string, at: Instant)
    | Replay(ids: Option<set<nat>>, only: Option<EventStatus>, max: Option<nat>, now: Instant)
    | RecoverStale(timeoutSec: nat, now: Instant)
    | Acknowledge(ids: Option<set<nat>>, max: Option<nat>, acknowledgement: Acknowledgement)

  // ---------- Selection ----------

  /** The positions below |es| whose event satisfies p, ascending. */
  function Select(es: seq<OutboxEvent>, p: OutboxEvent -> bool, chosen: Option<set<nat>>): (ids: seq<nat>)
    ensures forall i: nat :: i in ids <==> i < |es| && p(es[i]) && (chosen.Some? ==> i in chosen.value)
    ensures forall a, b :: 0 <= a < b < |ids| ==> ids[a] < ids[b]
  {
    if es == [] then []
    else
      var last := |es| - 1;
      var before := Select(es[..last], p, chosen);
      assert forall a :: 0 <= a < |before| ==> before[a] in before;
      assert forall i: nat :: i < last ==> es[..last][i] == es[i];
      if p(es[last]) && (chosen.Some? ==> last in chosen.value) then before + [last] else before
  }

  function CreatedKey(es: seq<OutboxEvent>): nat -> int {
    (i: nat) => if i < |es| then es[i].createdAt else 0
  }

  /** The oldest `limit` of the selected events. */
  function Oldest(es: seq<OutboxEvent>, p: OutboxEvent -> bool, chosen: Option<set<nat>>, limit: nat): seq<nat> {
    Take(limit, Sort(Select(es, p, chosen), CreatedKey(es)))
  }

  function Claimable(now: Instant): OutboxEvent -> bool {
    (e: OutboxEvent) => e.status == Pending && e.availableAt <= now
  }

  function HasStatus(only: Option<EventStatus>): OutboxEvent -> bool {
    (e: OutboxEvent) => only.Some? ==> e.status == only.value
  }

  function Unacknowledged(): OutboxEvent -> bool {
    (e: OutboxEvent) => e.status == DeadLettered && e.acknowledgement.None?
  }

  function Stale(timeoutSec: nat, now: Instant): OutboxEvent -> bool {
    (e: OutboxEvent) => e.status == Processing && e.processingStartedAt.Some?
                        && e.processingStartedAt.value <= now - timeoutSec * 1000
  }

  function PageSize(ids: Option<set<nat>>, max: Option<nat>): nat {
    if max.Some? then max.value else if ids.Some? then |ids.value| else 100
  }

  function ClaimedIds(es: seq<OutboxEvent>, limit: nat, now: Instant): seq<nat> {
    Oldest(es, Claimable(now), None, limit)
  }

  // ---------- Updates ----------

  function UpdateIds(es: seq<OutboxEvent>, ids: seq<nat>, g: OutboxEvent -> OutboxEvent): seq<OutboxEvent> {
    seq(|es|, i requires 0 <= i < |es| => if i in ids then g(es[i]) else es[i])
  }

  function UpdateOne(es: seq<OutboxEvent>, id: nat, g: OutboxEvent -> OutboxEvent): seq<OutboxEvent> {
    if id < |es| then es[id := g(es[id])] else es
  }

  function AsClaimed(now: Instant): OutboxEvent -> OutboxEvent {
    (e: OutboxEvent) => e.(status := Processing, attempts := e.attempts + 1, processingStartedAt := Some(now))
  }

  function AsPublished(now: Instant): OutboxEvent -> OutboxEvent {
    (e: OutboxEvent) => e.(status := Published, processingStartedAt := None, publishedAt := Some(now),
                           deadLetteredAt := None, lastError := None)
  }

  function AsRescheduled(error: string, availableAt: Instant): OutboxEvent -> OutboxEvent {
    (e: OutboxEvent) => e.(status := Pending, availableAt := availableAt, processingStartedAt := None,
                           lastError := Some(error))
  }

  function AsDeadLettered(error: string, at: Instant): OutboxEvent -> OutboxEvent {
    (e: OutboxEvent) => e.(status := DeadLettered, processingStartedAt := None, deadLetteredAt := Some(at),
                           acknowledgement := None, lastError := Some(error))
  }

  function AsReplayed(now: Instant): OutboxEvent -> OutboxEvent {
    (e: OutboxEvent) => e.(status := Pending, availableAt := now, processingStartedAt := None,
                           deadLetteredAt := None, acknowledgement := None)
  }

  function AsRecovered(now: Instant): OutboxEvent -> OutboxEvent {
    (e: OutboxEvent) => e.(status := Pending, availableAt := now, processingStartedAt := None,
                           lastError := if e.lastError.Some? then e.lastError
                                        else Some("processing timeout recovered"))
  }

  function AsAcknowledged(acknowledgement: Acknowledgement): OutboxEvent -> OutboxEvent {
    (e: OutboxEvent) => e.(acknowledgement := Some(acknowledgement))
  }

  function Step(es: seq<OutboxEvent>, op: OutboxOp): seq<OutboxEvent> {
    match op
    case Claim(limit, now) => UpdateIds(es, ClaimedIds(es, limit, now), AsClaimed(now))
    case MarkPublished(id, now) => UpdateOne(es, id, AsPublished(now))
    case Reschedule(id, error, at) => UpdateOne(es, id, AsRescheduled(error, at))
    case DeadLetter(id, error, at) => UpdateOne(es, id, AsDeadLettered(error, at))
    case Replay(ids, only, max, now) =>
      UpdateIds(es, Oldest(es, HasStatus(only), ids, PageSize(ids, max)), AsReplayed(now))
    case RecoverStale(timeoutSec, now) => UpdateIds(es, Select(es, Stale(timeoutSec, now), None), AsRecovered(now))
    case Acknowledge(ids, max, acknowledgement) =>
      UpdateIds(es, Oldest(es, Unacknowledged(), ids, PageSize(ids, max)), AsAcknowledged(acknowledgement))
  }

  // ---------- Facts ----------

  /** What no store call may touch: the events there are, their payloads and creation times. */
  ghost predicate SamePayloads(before: seq<OutboxEvent>, after: seq<OutboxEvent>) {
    && |before| == |after|
    && forall i :: 0 <= i < |before| ==>
         after[i].payload == before[i].payload && after[i].createdAt == before[i].createdAt
  }

  lemma StepKeepsPayloads(es: seq<OutboxEvent>, op: OutboxOp)
    ensures SamePayloads(es, Step(es, op))
  {
  }

  /** Position i comes before position j in the queue: older, or as old and inserted first. */
  predicate Before(es: seq<OutboxEvent>, i: nat, j: nat)
    requires i < |es| && j < |es|
  {
    es[i].createdAt < es[j].createdAt || (es[i].createdAt == es[j].createdAt && i < j)
  }

  ghost predicate InQueueOrder(es: seq<OutboxEvent>, ids: seq<nat>) {
    && (forall a :: 0 <= a < |ids| ==> ids[a] < |es|)
    && forall a, b :: 0 <= a < b < |ids| ==> Before(es, ids[a], ids[b])
  }

  lemma {:induction false} SortedIdsInQueueOrder(es: seq<OutboxEvent>, ids: seq<nat>)
    requires forall a :: 0 <= a < |ids| ==> ids[a] < |es|
    requires forall a, b :: 0 <= a < b < |ids| ==> ids[a] < ids[b]
    ensures InQueueOrder(es, Sort(ids, CreatedKey(es)))
  {
    if ids != [] {
      var key := CreatedKey(es);
      SortedIdsInQueueOrder(es, ids[1..]);
      SortMembers(ids[1..], key);
      assert forall x: nat :: x in ids[1..] ==> ids[0] < x;
      InsertInQueueOrder(es, ids[0], Sort(ids[1..], key));
    }
  }

  /** Merging a position smaller than all others into a queue puts it where it belongs. */
  lemma {:induction false} InsertInQueueOrder(es: seq<OutboxEvent>, x: nat, q: seq<nat>)
    requires x < |es| && InQueueOrder(es, q)
    requires forall i: nat :: i in q ==> x < i
    ensures InQueueOrder(es, Merge([x], q, CreatedKey(es)))
    ensures forall i: nat :: i in Merge([x], q, CreatedKey(es)) <==> i == x || i in q
  {
    var key := CreatedKey(es);
    var m := Merge([x], q, key);
    if q != [] && key(x) > key(q[0]) {
      var rest := Merge([x], q[1..], key);
      forall i: nat | i in q[1..] ensures x < i {
        assert i in q;
      }
      InsertInQueueOrder(es, x, q[1..]);
      assert m == [q[0]] + rest;
      assert q == [q[0]] + q[1..];
      forall b | 0 < b < |m| ensures Before(es, m[0], m[b]) {
        assert m[b] == rest[b - 1] && rest[b - 1] in rest;
        assert m[b] == x || exists c :: 0 < c < |q| && q[c] == m[b];
      }
    } else {
      assert [x][1..] == [];
      assert m == [x] + q;
      forall b | 0 < b < |m| ensures Before(es, m[0], m[b]) {
        assert m[b] == q[b - 1] && q[b - 1] in q;
        assert b - 1 > 0 ==> Before(es, q[0], q[b - 1]);
      }
    }
  }

  /** A bounded selection takes exactly the first `limit` of the matching events in queue order:
      nothing left behind comes before anything taken. */
  lemma OldestIsQueuePrefix(es: seq<OutboxEvent>, p: OutboxEvent -> bool, chosen: Option<set<nat>>, limit: nat)
    ensures var ids, all := Oldest(es, p, chosen, limit), Select(es, p, chosen);
      && InQueueOrder(es, ids)
      && |ids| == (if limit <= |all| then limit else |all|)
      && (forall i: nat :: i in ids ==> i in all)
      && (forall i: nat, j: nat :: i in ids && j in all && j !in ids ==> Before(es, i, j))
  {
    var all := Select(es, p, chosen);
    forall a | 0 <= a < |all| ensures all[a] < |es| {
      assert all[a] in all;
    }
    var sorted: seq<nat> := Sort<nat>(all, CreatedKey(es));
    SortedIdsInQueueOrder(es, all);
    SortMembers<nat>(all, CreatedKey(es));
    var ids := Oldest(es, p, chosen, limit);
    forall i: nat, j: nat | i in ids && j in all && j !in ids ensures Before(es, i, j) {
      var a :| 0 <= a < |ids| && ids[a] == i;
      assert j in sorted;
      var b :| 0 <= b < |sorted| && sorted[b] == j;
      assert b >= |ids| by {
        assert forall c :: 0 <= c < |ids| ==> ids[c] == sorted[c] && ids[c] in ids;
      }
    }
  }

  /** Queue order never repeats a position, so a loop over a selection updates each event once. */
  lemma QueueOrderDistinct(es: seq<OutboxEvent>, ids: seq<nat>)
    requires InQueueOrder(es, ids)
    ensures forall a, b :: 0 <= a < b < |ids| ==> ids[a] != ids[b]
  {
  }
}
