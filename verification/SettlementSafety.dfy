/** One settlement over a whole run: what its journals are, however often it is finalized and
    whatever else happens in between. */
module SettlementSafety {
  import opened Domain
  import opened Sums
  import opened PostgresSpec
  import opened PostgresBooks
  import opened PostgresInvariants
  import opened OfflineInvariants
  import RoundTrips

  predicate IsSettlementOf(j: Journal, id: string) {
    j.reference == SettlementRef(id) || j.reference == ReceiverRef(id)
  }

  /** The journals of settlement `id`, in order. */
  function SettlementLog(js: seq<Journal>, id: string): seq<Journal> {
    if js == [] then []
    else SettlementLog(js[..|js| - 1], id) + if IsSettlementOf(js[|js| - 1], id) then [js[|js| - 1]] else []
  }

  /** The finalize calls of a run for settlement `id`. */
  function FinalizeCalls(ops: seq<PostgresOp>, id: string): (calls: seq<Settlement>)
    ensures forall c :: c in calls ==> c.id == id
  {
    if ops == [] then []
    else
      var last := ops[|ops| - 1];
      FinalizeCalls(ops[..|ops| - 1], id)
      + if last.Offline? && last.offlineOp.FinalizeOp? && last.offlineOp.settlement.id == id
        then [last.offlineOp.settlement] else []
  }

  /** External credits do not carry this settlement's references. */
  predicate NoForgery(op: PostgresOp, id: string) {
    op.Ledger? && op.op.CreditOp? ==>
      op.op.reference != SettlementRef(id) && op.op.reference != ReceiverRef(id)
  }

  /** At most one sender journal, by one of the calls; then at most one receiver journal, by one of the calls. */
  ghost predicate LogShape(log: seq<Journal>, calls: seq<Settlement>) {
    || log == []
    || (exists first :: first in calls && log == [SenderJournal(first)])
    || (exists first, payer, receiver ::
          first in calls && payer in calls && log == [SenderJournal(first), ReceiverJournal(payer, receiver)])
  }

  // ---------- The log over one step ----------

  lemma LogAppend(js: seq<Journal>, j: Journal, id: string)
    ensures SettlementLog(js + [j], id) == SettlementLog(js, id) + if IsSettlementOf(j, id) then [j] else []
  {
    assert (js + [j])[..|js|] == js;
  }

  lemma {:induction false} LogFinds(js: seq<Journal>, id: string, reference: Reference)
    requires reference == SettlementRef(id) || reference == ReceiverRef(id)
    ensures IndexWhere(js, RefersTo(reference)).Some? <==>
            exists j :: j in SettlementLog(js, id) && j.reference == reference
  {
    if js != [] {
      var last := |js| - 1;
      LogFinds(js[..last], id, reference);
      var before := SettlementLog(js[..last], id);
      var after := SettlementLog(js, id);
      assert forall j :: j in before ==> j in after;
      if js[last].reference == reference {
        assert js[last] in after;
      }
    }
  }

  lemma {:induction false} LogConcat(js: seq<Journal>, written: seq<Journal>, id: string)
    ensures SettlementLog(js + written, id) == SettlementLog(js, id) + SettlementLog(written, id)
  {
    hide IsSettlementOf;
    if written == [] {
      assert js + written == js;
    } else {
      var last := |written| - 1;
      LogConcat(js, written[..last], id);
      assert (js + written)[..|js + written| - 1] == js + written[..last];
    }
  }

  predicate IsFinalizeOf(op: PostgresOp, id: string) {
    op.Offline? && op.offlineOp.FinalizeOp? && op.offlineOp.settlement.id == id
  }

  /** Nothing but a finalize call for this settlement, or a forged credit, writes its journals. */
  lemma ForeignJournals(t: Tables, op: PostgresOp, id: string)
    requires NoForgery(op, id) && !IsFinalizeOf(op, id)
    ensures forall k :: 0 <= k < |StepJournals(t, op)| ==> !IsSettlementOf(StepJournals(t, op)[k], id)
  {
    hide Net, Accepts, WritesReceiver, SenderPostings, ReceiverCredit, SweepCall, LiabilityOf;
  }

  lemma ForeignStep(t: Tables, limits: Limits, op: PostgresOp, id: string)
    requires Inv(t) && NoForgery(op, id) && !IsFinalizeOf(op, id)
    ensures SettlementLog(Step(t, limits, op).journals, id) == SettlementLog(t.journals, id)
  {
    hide Inv, Step, StepJournals, NoForgery, SettlementLog;
    var written := StepJournals(t, op);
    StepWrites(t, limits, op);
    ForeignJournals(t, op, id);
    NoneInLog(written, id);
    LogConcat(t.journals, written, id);
  }

  lemma FinalizeLog(t: Tables, s: Settlement, id: string)
    ensures SettlementLog(t.journals + FinalizeJournals(t, s), id)
            == SettlementLog(t.journals, id) + if s.id == id then FinalizeJournals(t, s) else []
  {
    hide Accepts, WritesReceiver, SenderPostings, ResolveReceiver, ReceiverCredit, SettlementLog;
    var written := FinalizeJournals(t, s);
    LogConcat(t.journals, written, id);
    if s.id == id {
      AllInLog(written, id);
    } else {
      NoneInLog(written, id);
    }
  }

  lemma {:induction false} AllInLog(js: seq<Journal>, id: string)
    requires forall i :: 0 <= i < |js| ==> IsSettlementOf(js[i], id)
    ensures SettlementLog(js, id) == js
  {
    if js != [] {
      AllInLog(js[..|js| - 1], id);
    }
  }

  // ---------- The log over a run ----------

  lemma FinalizeShape(t: Tables, s: Settlement, calls: seq<Settlement>)
    requires LogShape(SettlementLog(t.journals, s.id), calls) && forall c :: c in calls ==> c.id == s.id
    ensures LogShape(SettlementLog(t.journals, s.id) + FinalizeJournals(t, s), calls + [s])
  {
    hide SettlementLog, Net, SenderPostings, ResolveReceiver, IndexWhere, ReceiverCredit, SettlementFee;
    var log := SettlementLog(t.journals, s.id);
    var written := FinalizeJournals(t, s);
    LogFinds(t.journals, s.id, SettlementRef(s.id));
    LogFinds(t.journals, s.id, ReceiverRef(s.id));
    assert forall c :: c in calls ==> c in calls + [s];
    if log == [] {
      assert log + written == written;
      if WritesReceiver(t, s) {
        assert written == [SenderJournal(s), ReceiverJournal(s, ResolveReceiver(t, s).value)];
      }
    } else {
      assert log[0] in log && log[0].reference == SettlementRef(s.id);
      assert !Accepts(t, s);
      if |log| == 2 {
        assert log[1] in log && log[1].reference == ReceiverRef(s.id);
        assert written == [];
        assert log + written == log;
      } else if WritesReceiver(t, s) {
        var first :| first in calls && log == [SenderJournal(first)];
        assert log + written == [SenderJournal(first), ReceiverJournal(s, ResolveReceiver(t, s).value)];
      } else {
        assert log + written == log;
      }
    }
  }

  /** However finalize calls for one settlement are replayed and interleaved, it debits a sender at
      most once and pays a receiver at most once, after that, each as one of the calls asked. */
  lemma {:induction false} SettlementEveryRun(limits: Limits, ops: seq<PostgresOp>, id: string)
    requires forall i :: 0 <= i < |ops| ==> NoForgery(ops[i], id)
    ensures LogShape(SettlementLog(Run(limits, ops).journals, id), FinalizeCalls(ops, id))
  {
    hide Inv, Step, NoForgery, SenderJournal, ReceiverJournal;
    if ops != [] {
      var before, op := ops[..|ops| - 1], ops[|ops| - 1];
      var t := Run(limits, before);
      SettlementEveryRun(limits, before, id);
      EveryRun(limits, before);
      SettlementStep(t, limits, op, id, FinalizeCalls(before, id));
    }
  }

  lemma SettlementStep(t: Tables, limits: Limits, op: PostgresOp, id: string, calls: seq<Settlement>)
    requires Inv(t) && NoForgery(op, id) && LogShape(SettlementLog(t.journals, id), calls)
    requires forall c :: c in calls ==> c.id == id
    ensures LogShape(SettlementLog(Step(t, limits, op).journals, id),
                     calls + if op.Offline? && op.offlineOp.FinalizeOp? && op.offlineOp.settlement.id == id
                             then [op.offlineOp.settlement] else [])
  {
    hide Inv, Step, Finalize, SettlementLog, SenderJournal, ReceiverJournal, FinalizeJournals, NoForgery;
    if IsFinalizeOf(op, id) {
      var s := op.offlineOp.settlement;
      FinalizeStep(t, s);
      FinalizeLog(t, s, id);
      FinalizeShape(t, s, calls);
      FinalizeIs(t, limits, s);
    } else {
      ForeignStep(t, limits, op, id);
      assert calls + [] == calls;
    }
  }

  lemma FinalizeIs(t: Tables, limits: Limits, s: Settlement)
    ensures Step(t, limits, Offline(FinalizeOp(s))) == Finalize(t, s).0
  {
  }

  /** A finalize call is answered without refusal exactly when its settlement is then in the books,
      and the receiver is in them exactly when it was before or this call found it payable. */
  lemma AnsweredIsBooked(limits: Limits, ops: seq<PostgresOp>, s: Settlement)
    requires forall i :: 0 <= i < |ops| ==> NoForgery(ops[i], s.id)
    ensures var t := Run(limits, ops);
            var (t', reply) := Finalize(t, s);
            var log, log' := SettlementLog(t.journals, s.id), SettlementLog(t'.journals, s.id);
      && (reply.SettleReply? <==> log' != [])
      && (|log'| == 2 <==> |log| == 2 || (log' != [] && s.receiverRequested && PaysReceiver(t, s)))
  {
    hide Run, Finalize, SettlementLog, FinalizeCalls, PaysReceiver, Accepts, SenderPostings, ResolveReceiver, Inv;
    var t := Run(limits, ops);
    var calls := FinalizeCalls(ops, s.id);
    var log := SettlementLog(t.journals, s.id);
    EveryRun(limits, ops);
    SettlementEveryRun(limits, ops, s.id);
    FinalizeStep(t, s);
    FinalizeLog(t, s, s.id);
    FinalizeShape(t, s, calls);
    AnsweredOrRefused(t, s);
    LogFinds(t.journals, s.id, SettlementRef(s.id));
    assert log != [] ==> log[0] in log && log[0].reference == SettlementRef(s.id);
    assert log == [] ==> FindJournal(t, SettlementRef(s.id)).None?;
    if |log| == 2 {
      LogFinds(t.journals, s.id, ReceiverRef(s.id));
      assert log[1] in log && log[1].reference == ReceiverRef(s.id);
      PaidAlready(t, s);
    }
  }

  lemma AnsweredOrRefused(t: Tables, s: Settlement)
    ensures Finalize(t, s).1.SettleReply? <==> Accepts(t, s) || FindJournal(t, SettlementRef(s.id)).Some?
    ensures Accepts(t, s) ==> FindJournal(t, SettlementRef(s.id)).None?
  {
    hide Net, Sync, PayReceiver, SettlementFee, EnsureAffected, AffectedUsers, IndexWhere, Projected;
  }

  lemma PaidAlready(t: Tables, s: Settlement)
    requires FindJournal(t, ReceiverRef(s.id)).Some?
    ensures !PaysReceiver(t, s)
  {
  }

  // ---------- What the shape means in money ----------

  /** What the sender's journal leaves on the clearing account for a receiver. */
  function Outstanding(first: Settlement): nat {
    if first.action == Release then ReceiverCredit(first) else 0
  }

  lemma SenderNets(first: Settlement)
    ensures var log := [SenderJournal(first)];
      && Net(log, OfflinePending(first.userId)) == 0 - first.amount
      && Net(log, System(OfflinePayClearing)) == Outstanding(first)
      && Net(log, System(OfflinePayFee)) == FeeOf(first)
  {
    var log := [SenderJournal(first)];
    SenderEffect(first);
    if first.action == AdjustBack {
      MoveEffect(OfflinePending(first.userId), Available(first.userId), first.amount);
    }
    forall a ensures Net(log, a) == SumBy(SenderPostings(first), EffectOn(a)) {
      NetAppend([], SenderJournal(first), a);
      assert [] + [SenderJournal(first)] == log;
    }
  }

  /** The receiver gets exactly the payer's amount minus fee, once; the settlement's clearing balance
      comes back to zero exactly when that is what the first call left there. */
  lemma PaidNets(first: Settlement, payer: Settlement, receiver: UserId)
    ensures var log := [SenderJournal(first), ReceiverJournal(payer, receiver)];
      && Net(log, System(OfflinePayFee)) == FeeOf(first)
      && Net(log, OfflinePending(first.userId)) == 0 - first.amount
      && Net(log, Available(receiver)) - Net([SenderJournal(first)], Available(receiver)) == ReceiverCredit(payer)
      && (Net(log, System(OfflinePayClearing)) == 0 <==> ReceiverCredit(payer) == Outstanding(first))
  {
    hide SumBy, Net;
    var sender := [SenderJournal(first)];
    SenderNets(first);
    NetMove(sender, ReceiverJournal(payer, receiver), System(OfflinePayClearing), Available(receiver),
            ReceiverCredit(payer));
    assert sender + [ReceiverJournal(payer, receiver)] == [SenderJournal(first), ReceiverJournal(payer, receiver)];
  }

  ghost predicate Agreed(calls: seq<Settlement>, assetCode: string, amount: nat) {
    forall s :: s in calls ==> s.assetCode == assetCode && s.amount == amount && s.action == Release
  }

  /** Settlement conservation under replay: when all calls agree on asset, amount and RELEASE, the
      sender is debited the amount once, the fee is booked once, and the clearing account holds
      amount - fee until one receiver gets exactly that, and nothing afterwards. */
  lemma SettlementConserved(limits: Limits, ops: seq<PostgresOp>, id: string, assetCode: string, amount: nat)
    requires forall i :: 0 <= i < |ops| ==> NoForgery(ops[i], id)
    requires Agreed(FinalizeCalls(ops, id), assetCode, amount)
    ensures var log := SettlementLog(Run(limits, ops).journals, id);
            var fee := SettlementFee(assetCode, amount);
      || log == []
      || (exists sender ::
            && |log| == 1 && Net(log, OfflinePending(sender)) == 0 - amount
            && Net(log, System(OfflinePayFee)) == fee && Net(log, System(OfflinePayClearing)) == amount - fee)
      || (exists sender, receiver ::
            && |log| == 2 && Net(log, OfflinePending(sender)) == 0 - amount
            && Net(log, System(OfflinePayFee)) == fee && Net(log, System(OfflinePayClearing)) == 0
            && Net(log, Available(receiver)) == amount - fee)
  {
    hide SettlementLog, FinalizeCalls, Run, SumBy, Net, SenderJournal, ReceiverJournal;
    var calls := FinalizeCalls(ops, id);
    var log := SettlementLog(Run(limits, ops).journals, id);
    SettlementEveryRun(limits, ops, id);
    FeeBound(assetCode, amount);
    if first :| first in calls && log == [SenderJournal(first)] {
      SenderNets(first);
    } else if first, payer, receiver :|
      first in calls && payer in calls && log == [SenderJournal(first), ReceiverJournal(payer, receiver)]
    {
      PaidNets(first, payer, receiver);
      SenderSparesAvailable(first, receiver);
    }
  }

  lemma SenderSparesAvailable(first: Settlement, u: UserId)
    requires first.action == Release
    ensures Net([SenderJournal(first)], Available(u)) == 0
  {
    SenderEffect(first);
    NetAppend([], SenderJournal(first), Available(u));
    assert [] + [SenderJournal(first)] == [SenderJournal(first)];
  }

  // ---------- Without the agreement ----------

  /** A lock given back (ADJUST) and then finalized again with RELEASE. */
  const GIVEN_BACK := Settlement("s", "a", None, None, false, "KORI", 1000, None, true, AdjustBack, false, false, 1)
  const REPLAYED := Settlement("s", "a", Some("b"), None, true, "KORI", 1000, None, true, Release, false, false, 2)
  const DISAGREEING_RUN := [Offline(ReconcilePendingOp("a", 1000, 0)), Offline(FinalizeOp(GIVEN_BACK)),
                            Offline(FinalizeOp(REPLAYED))]

  lemma DisagreeingFirst(limits: Limits)
    ensures var t := Run(limits, DISAGREEING_RUN[..1]);
      && Inv(t) && Net(t.journals, OfflinePending("a")) == 1000
      && FindJournal(t, SettlementRef("s")).None? && FindJournal(t, ReceiverRef("s")).None?
      && FindJournal(t, Reference(RefCompensation, Text("s"))).None? && Net(t.journals, System(OfflinePayClearing)) == 0
  {
    hide Net, SumBy;
    var t := Run(limits, DISAGREEING_RUN[..1]);
    EveryRun(limits, []);
    assert DISAGREEING_RUN[..1][..0] == [];
    assert t == ReconcilePending(EMPTY, "a", 1000, 0).0;
    NoPostingsZero(EMPTY.journals, "a");
    EmptyNet(OfflinePending("a"));
    ReconcilePendingStep(EMPTY, "a", 1000, 0);
    var j := t.journals[0];
    NetMove([], j, System(OfflinePayReconciliation), OfflinePending("a"), 1000);
    FindAppend([], j, SettlementRef("s"));
    FindAppend([], j, ReceiverRef("s"));
    FindAppend([], j, Reference(RefCompensation, Text("s")));
    EmptyNet(System(OfflinePayClearing));
  }

  lemma EmptyNet(a: LedgerAccount)
    ensures Net([], a) == 0
  {
  }

  /** Conservation fails without the agreement: after a lock was given back, a RELEASE replay still
      pays the receiver, out of a clearing account that goes negative. */
  lemma AdjustedReplayOverpays(t: Tables, first: Settlement, replay: Settlement)
    requires Inv(t) && Accepts(t, first) && FindJournal(t, ReceiverRef(first.id)).None?
    requires first.action == AdjustBack && !first.receiverRequested
    requires replay.id == first.id && replay.action == Release && replay.amount > 0 && replay.receiverRequested
    requires (replay.settled || replay.honored) && !replay.conflict && ResolveReceiver(t, replay).Some?
    ensures var t2 := Finalize(t, first).0;
            var log := SettlementLog(Finalize(t2, replay).0.journals, first.id);
      && log == [SenderJournal(first), ReceiverJournal(replay, ResolveReceiver(t, replay).value)]
      && Net(log, System(OfflinePayClearing)) == 0 - ReceiverCredit(replay) < 0
  {
    hide Net, SumBy, SettlementLog, Inv, Finalize, SenderPostings, SettlementFee, IndexWhere;
    var t2 := Finalize(t, first).0;
    var r := ResolveReceiver(t, replay).value;
    FinalizeStep(t, first);
    RoundTrips.FinalizeKeepsDevices(t, first);
    FindAppend(t.journals, SenderJournal(first), SettlementRef(first.id));
    FindAppend(t.journals, SenderJournal(first), ReceiverRef(first.id));
    assert FinalizeJournals(t, first) == [SenderJournal(first)];
    FinalizeStep(t2, replay);
    assert FinalizeJournals(t2, replay) == [ReceiverJournal(replay, r)];
    FinalizeLog(t, first, first.id);
    FinalizeLog(t2, replay, first.id);
    NoSettlementYet(t, first.id);
    var sender := [SenderJournal(first)];
    assert [] + sender == sender;
    SenderNets(first);
    FeeBound(replay.assetCode, replay.amount);
    NetMove(sender, ReceiverJournal(replay, r), System(OfflinePayClearing), Available(r), ReceiverCredit(replay));
  }

  /** Such a run exists. */
  lemma ReplayMayOverpay(limits: Limits)
    ensures Net(SettlementLog(Run(limits, DISAGREEING_RUN).journals, "s"), System(OfflinePayClearing)) < 0
  {
    hide Net, SettlementLog, Inv, Finalize, ReconcilePending;
    var t1 := Run(limits, DISAGREEING_RUN[..1]);
    DisagreeingFirst(limits);
    assert DISAGREEING_RUN[..2][..1] == DISAGREEING_RUN[..1];
    assert Run(limits, DISAGREEING_RUN[..2]) == Finalize(t1, GIVEN_BACK).0;
    assert ResolveReceiver(t1, REPLAYED) == Some("b");
    AdjustedReplayOverpays(t1, GIVEN_BACK, REPLAYED);
  }

  /** Settled, compensated, and finalized again: the replay pays all the same. */
  const SETTLED := Settlement("s", "a", None, None, false, "KORI", 1000, None, true, Release, false, false, 1)
  const COMPENSATED_RUN := DISAGREEING_RUN[..1] + [Offline(FinalizeOp(SETTLED)),
                                                   Offline(CompensateOp("s", "a", 1000, Release, 2)),
                                                   Offline(FinalizeOp(REPLAYED))]

  /** The sender has its thousand back, the receiver has its credit, and clearing is a thousand short. */
  lemma CompensatedReplayPays(limits: Limits)
    ensures var js := Run(limits, COMPENSATED_RUN).journals;
      && Net(js, System(OfflinePayClearing)) == -1000
      && Net(js, OfflinePending("a")) == 1000
      && Net(js, Available("b")) ==
         Net(Run(limits, COMPENSATED_RUN[..1]).journals, Available("b")) + ReceiverCredit(REPLAYED)
  {
    hide Net, SumBy, Inv, Run, Finalize, Compensate, SettlementFee, IndexWhere, RoundTrips.ReplayPays, FindJournal,
         ResolveReceiver, Accepts;
    var t := Run(limits, DISAGREEING_RUN[..1]);
    DisagreeingFirst(limits);
    ThreeCalls(limits);
    assert COMPENSATED_RUN[..1] == DISAGREEING_RUN[..1];
    ReplayIsPayable(t);
    RoundTrips.CompensatedReplay(t, SETTLED, REPLAYED, 2);
    RoundTrips.CompensationUndoesSenderOnly(t, SETTLED, 2);
    FeeBound("KORI", 1000);
    var t2 := Compensate(Finalize(t, SETTLED).0, "s", "a", 1000, Release, 2).0;
    ReplaySpares(t2, OfflinePending("a"));
  }

  lemma ThreeCalls(limits: Limits)
    ensures var t := Run(limits, DISAGREEING_RUN[..1]);
            Run(limits, COMPENSATED_RUN) ==
            Finalize(Compensate(Finalize(t, SETTLED).0, "s", "a", 1000, Release, 2).0, REPLAYED).0
  {
    hide Finalize, Compensate;
    var ops := COMPENSATED_RUN;
    assert ops[..1] == DISAGREEING_RUN[..1];
    assert ops[..2][..1] == ops[..1] && ops[..3][..2] == ops[..2] && ops[..3] == ops[..|ops| - 1];
    assert Run(limits, ops[..2]) == Step(Run(limits, ops[..1]), limits, ops[1]);
    assert Run(limits, ops[..3]) == Step(Run(limits, ops[..2]), limits, ops[2]);
  }

  lemma ReplayIsPayable(t: Tables)
    requires FindJournal(t, SettlementRef("s")).None? && FindJournal(t, ReceiverRef("s")).None?
    requires Net(t.journals, OfflinePending("a")) == 1000
    ensures ResolveReceiver(t, REPLAYED) == Some("b") && RoundTrips.ReplayPays(t, SETTLED, REPLAYED)
    ensures Accepts(t, SETTLED) && !WritesReceiver(t, SETTLED)
  {
    hide IndexWhere, Net;
    assert ResolveReceiver(t, REPLAYED) == Some("b");
  }

  lemma ReplaySpares(t2: Tables, a: LedgerAccount)
    requires Inv(t2) && a.OfflinePending? && !Accepts(t2, REPLAYED)
    ensures Net(Finalize(t2, REPLAYED).0.journals, a) == Net(t2.journals, a)
  {
    hide Inv, Net, SumBy, Finalize, IndexWhere, FinalizeJournals, Accepts;
    FinalizeStep(t2, REPLAYED);
    FinalizeEffect(t2, REPLAYED);
  }

  lemma NoSettlementYet(t: Tables, id: string)
    requires FindJournal(t, SettlementRef(id)).None? && FindJournal(t, ReceiverRef(id)).None?
    ensures SettlementLog(t.journals, id) == []
  {
    NoneInLog(t.journals, id);
  }

  lemma {:induction false} NoneInLog(js: seq<Journal>, id: string)
    requires forall i :: 0 <= i < |js| ==> !IsSettlementOf(js[i], id)
    ensures SettlementLog(js, id) == []
  {
    if js != [] {
      NoneInLog(js[..|js| - 1], id);
    }
  }
}
