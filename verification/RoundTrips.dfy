/** What one call undoes of another, and what it does not. */
module RoundTrips {
  import opened Domain
  import opened Sums
  import opened PostgresSpec
  import opened PostgresBooks
  import opened PostgresInvariants
  import opened OfflineInvariants
  import M = MemorySpec
  import MI = MemoryInvariants

  // ---------- A failure undoes a request ----------

  /** In memory, a failure right after a request gives every user back the balances and the daily
      allowance of before; only the idempotency key stays used. */
  lemma FailUndoesRequest(m: M.Memory, limits: Limits, u: UserId, amount: nat, toAddress: string, key: string,
                          required: Positive, now: Instant, reason: string, later: Instant)
    requires var r := M.RequestWithdrawal(m, limits, u, amount, toAddress, key, required, now).1;
             r.RequestReply? && !r.duplicated
    requires MI.Inv(m, limits)
    ensures var m1 := M.RequestWithdrawal(m, limits, u, amount, toAddress, key, required, now).0;
            var (m2, r2) := M.Fail(m1, |m.withdrawals|, reason, later);
      && r2.WithdrawalReply? && r2.withdrawal.status == Failed
      && (forall v :: AccountOf(m2.accounts, v) == AccountOf(m.accounts, v))
      && (forall v, day :: DailyRequested(m2.withdrawals, v, day) == DailyRequested(m.withdrawals, v, day))
      && key in m2.withdrawalByKey
  {
    hide SumBy, SumMap, AccountOf, Adjust, Touch, MI.Inv, MI.LogOf;
    var m1 := M.RequestWithdrawal(m, limits, u, amount, toAddress, key, required, now).0;
    var id := |m.withdrawals|;
    var w := m1.withdrawals[id];
    MI.ReserveEffect(m.accounts, u, amount);
    LockedIsNotNegative(m, limits, u);
    MI.AdjustEffect(m1.accounts, u, amount, 0 - amount);
    var m2 := M.Fail(m1, id, reason, later).0;
    forall v, day ensures DailyRequested(m2.withdrawals, v, day) == DailyRequested(m.withdrawals, v, day) {
      SumAppend(m.withdrawals, w, CountedOn(v, day));
      SumUpdate(m1.withdrawals, id, m2.withdrawals[id], CountedOn(v, day));
    }
  }

  lemma LockedIsNotNegative(m: M.Memory, limits: Limits, u: UserId)
    requires MI.Inv(m, limits)
    ensures AccountOf(m.accounts, u).lockedBalance >= 0
  {
    SumNonNegative(m.withdrawals, ActiveOf(u));
    assert MI.LockedOf(m, u) == ActiveSum(m.withdrawals, u);
  }

  ghost predicate SameNets(js: seq<Journal>, js': seq<Journal>) {
    forall a :: Net(js, a) == Net(js', a)
  }

  // ---------- Release undoes lock ----------

  lemma LockWrites(t: Tables, u: UserId, amount: nat, lockId: string, now: Instant)
    ensures var (t', reply) := LockCollateral(t, u, amount, lockId, now);
            reply == LockReply(false) <==> t'.journals != t.journals
  {
    hide HasPostings, Projected, IndexWhere;
  }

  lemma ReleaseAnswers(t: Tables, u: UserId, amount: nat, releaseId: string, now: Instant)
    requires FindJournal(t, Reference(RefOfflineRelease, Text(releaseId))).None?
    ensures var (t', reply) := ReleaseCollateral(t, u, amount, releaseId, now);
            && (reply == LockReply(false) <==> amount <= Net(t.journals, OfflinePending(u)))
            && (reply == LockReply(false) <==> t'.journals != t.journals)
  {
    hide HasPostings, Projected, IndexWhere, Net;
  }

  /** A lock is released in full if and only if the user's pending balance was not below zero before
      it; and then every account, and so every user's balances, are what they were. */
  lemma ReleaseUndoesLock(t: Tables, u: UserId, amount: nat, lockId: string, releaseId: string, now: Instant,
                          later: Instant)
    requires Inv(t) && LockCollateral(t, u, amount, lockId, now).1 == LockReply(false)
    requires FindJournal(t, Reference(RefOfflineRelease, Text(releaseId))).None?
    ensures var t1 := LockCollateral(t, u, amount, lockId, now).0;
            var (t2, reply) := ReleaseCollateral(t1, u, amount, releaseId, later);
      && Inv(t2)
      && (reply == LockReply(false) <==> Net(t.journals, OfflinePending(u)) >= 0)
      && (reply == LockReply(false) ==> SameNets(t.journals, t2.journals))
  {
    hide Inv, Net, LockCollateral, ReleaseCollateral, IndexWhere;
    var t1 := LockCollateral(t, u, amount, lockId, now).0;
    var (t2, reply) := ReleaseCollateral(t1, u, amount, releaseId, later);
    LockWrites(t, u, amount, lockId, now);
    LockStep(t, u, amount, lockId, now);
    var locked := t1.journals[|t.journals|];
    NetMove(t.journals, locked, Available(u), OfflinePending(u), amount);
    FindAppend(t.journals, locked, Reference(RefOfflineRelease, Text(releaseId)));
    ReleaseAnswers(t1, u, amount, releaseId, later);
    ReleaseStep(t1, u, amount, releaseId, later);
    if reply == LockReply(false) {
      NetMove(t1.journals, t2.journals[|t1.journals|], OfflinePending(u), Available(u), amount);
    }
  }

  // ---------- Compensation undoes the sender's side ----------

  lemma ReceiverIsOther(t: Tables, s: Settlement)
    requires ResolveReceiver(t, s).Some?
    ensures ResolveReceiver(t, s).value != s.userId
  {
  }

  /** After a settlement and its compensation the sender is where it was before. The receiver keeps
      its credit, the fee stays booked, and the clearing account is short by both. */
  lemma CompensationUndoesSenderOnly(t: Tables, s: Settlement, now: Instant)
    requires Inv(t) && Accepts(t, s)
    requires FindJournal(t, Reference(RefCompensation, Text(s.id))).None?
    ensures var t1 := Finalize(t, s).0;
            var t2 := Compensate(t1, s.id, s.userId, s.amount, s.action, now).0;
            var paid := if WritesReceiver(t, s) then ReceiverCredit(s) else 0;
      && Inv(t2)
      && Net(t2.journals, System(OfflinePayFee)) == Net(t.journals, System(OfflinePayFee)) + FeeOf(s)
      && Net(t2.journals, System(OfflinePayClearing)) == Net(t.journals, System(OfflinePayClearing)) - FeeOf(s) - paid
      && (forall a :: a != System(OfflinePayFee) && a != System(OfflinePayClearing) ==>
            Net(t2.journals, a) == Net(t.journals, a)
              + if WritesReceiver(t, s) && a == Available(ResolveReceiver(t, s).value) then paid else 0)
      && Projected(t2.journals, s.userId) == Projected(t.journals, s.userId)
  {
    hide Inv, Net, SumBy, Accepts, Finalize, Compensate, FinalizeJournals, SenderPostings, IndexWhere, SettlementFee,
         ResolveReceiver, ReceiverCredit;
    var t1 := Finalize(t, s).0;
    var t2 := Compensate(t1, s.id, s.userId, s.amount, s.action, now).0;
    FinalizeStep(t, s);
    FinalizeEffect(t, s);
    SenderMoves(s);
    StillUncompensated(t, s);
    CompensateStep(t1, s.id, s.userId, s.amount, s.action, now);
    NetMove(t1.journals, t2.journals[|t1.journals|], CompensationSource(s.userId, s.action), OfflinePending(s.userId),
            s.amount);
    if WritesReceiver(t, s) {
      ReceiverIsOther(t, s);
    }
  }

  /** The sender's postings account by account, for both actions. */
  lemma SenderMoves(s: Settlement)
    ensures ReceiverCredit(s) + FeeOf(s) == s.amount
    ensures forall a ::
              SumBy(SenderPostings(s), EffectOn(a)) ==
              (if a == OfflinePending(s.userId) then 0 - s.amount else 0)
              + (if a == CompensationSource(s.userId, s.action) then s.amount - FeeOf(s) else 0)
              + (if a == System(OfflinePayFee) then FeeOf(s) else 0)
  {
    SenderEffect(s);
    if s.action == AdjustBack {
      MoveEffect(OfflinePending(s.userId), Available(s.userId), s.amount);
    }
  }

  lemma StillUncompensated(t: Tables, s: Settlement)
    requires FindJournal(t, Reference(RefCompensation, Text(s.id))).None?
    ensures IndexWhere(t.journals + FinalizeJournals(t, s), RefersTo(Reference(RefCompensation, Text(s.id)))).None?
  {
    hide IndexWhere, Accepts, WritesReceiver, SenderPostings;
    var reference := Reference(RefCompensation, Text(s.id));
    var js := t.journals;
    var written := FinalizeJournals(t, s);
    if |written| >= 1 {
      FindAppend(js, written[0], reference);
      assert |written| == 1 ==> js + written == js + [written[0]];
    }
    if |written| == 2 {
      FindAppend(js + [written[0]], written[1], reference);
      assert js + written == js + [written[0]] + [written[1]];
    }
    assert |written| == 0 ==> js + written == js;
  }

  /** A second compensation changes nothing. */
  lemma CompensatesOnce(t: Tables, id: string, u: UserId, amount: nat, action: ReleaseAction, now: Instant,
                        v: UserId, amount': nat, action': ReleaseAction, later: Instant)
    ensures var t1 := Compensate(t, id, u, amount, action, now).0;
            Compensate(t1, id, v, amount', action', later).0 == t1
  {
    hide IndexWhere, Projected, Net;
    var reference := Reference(RefCompensation, Text(id));
    if FindJournal(t, reference).None? {
      var t1 := Compensate(t, id, u, amount, action, now).0;
      FindAppend(t.journals, t1.journals[|t.journals|], reference);
      assert t1.journals == t.journals + [t1.journals[|t.journals|]];
    }
  }

  // ---------- A replay after the compensation ----------

  /** What a later call must meet to pay a receiver; compensations are not looked at. */
  predicate ReplayPays(t: Tables, first: Settlement, replay: Settlement) {
    replay.receiverRequested && PaysReceiver(t, replay) && !WritesReceiver(t, first)
  }

  /** Finalize, compensate, replay: the replay pays a receiver if and only if it could have paid one right
      away and the first call did not, compensated or not; and the clearing account ends short by the
      fee and by every receiver credit. */
  lemma CompensatedReplay(t: Tables, first: Settlement, replay: Settlement, now: Instant)
    requires Inv(t) && Accepts(t, first) && replay.id == first.id
    requires FindJournal(t, Reference(RefCompensation, Text(first.id))).None?
    ensures var t2 := Compensate(Finalize(t, first).0, first.id, first.userId, first.amount, first.action, now).0;
            var t3 := Finalize(t2, replay).0;
            var paidFirst := if WritesReceiver(t, first) then ReceiverCredit(first) else 0;
            var paidLater := if ReplayPays(t, first, replay) then ReceiverCredit(replay) else 0;
      && Inv(t2) && Inv(t3) && !Accepts(t2, replay)
      && (t3.journals != t2.journals <==> ReplayPays(t, first, replay))
      && Net(t3.journals, System(OfflinePayClearing)) ==
         Net(t.journals, System(OfflinePayClearing)) - FeeOf(first) - paidFirst - paidLater
      && (ReplayPays(t, first, replay) ==>
            var r := ResolveReceiver(t, replay).value;
            Net(t3.journals, Available(r)) == Net(t.journals, Available(r)) + paidLater)
  {
    hide Inv, Net, SumBy, Finalize, Compensate, IndexWhere, SettlementFee, ResolveReceiver, SenderPostings,
         ReceiverCredit, Projected, FeeOf, Accepts;
    var t1 := Finalize(t, first).0;
    var t2 := Compensate(t1, first.id, first.userId, first.amount, first.action, now).0;
    CompensationUndoesSenderOnly(t, first, now);
    FinalizeStep(t, first);
    CompensateStep(t1, first.id, first.userId, first.amount, first.action, now);
    StillUncompensated(t, first);
    SettledBooks(t, first, t2, now);
    FinalizeKeepsDevices(t, first);
    CompensateKeepsDevices(t1, first.id, first.userId, first.amount, first.action, now);
    ReplayWrites(t, t2, first, replay);
    FinalizeStep(t2, replay);
    FinalizeEffect(t2, replay);
  }

  /** All a replay finds is the settlement; so it writes the receiver's journal or nothing. */
  lemma ReplayWrites(t: Tables, t2: Tables, first: Settlement, replay: Settlement)
    requires t2.devices == t.devices && replay.id == first.id
    requires FindJournal(t2, SettlementRef(first.id)).Some?
    requires FindJournal(t2, ReceiverRef(first.id)).Some? <==>
               FindJournal(t, ReceiverRef(first.id)).Some? || WritesReceiver(t, first)
    ensures !Accepts(t2, replay) && (WritesReceiver(t2, replay) <==> ReplayPays(t, first, replay))
    ensures ResolveReceiver(t2, replay) == ResolveReceiver(t, replay)
    ensures FinalizeJournals(t2, replay) != [] <==> ReplayPays(t, first, replay)
  {
    hide IndexWhere, Net, SettlementFee, SenderPostings, ReceiverCredit;
    assert ResolveReceiver(t2, replay) == ResolveReceiver(t, replay);
    hide ResolveReceiver;
  }

  /** After the first call and its compensation the settlement is found, and a receiver if one was paid. */
  lemma SettledBooks(t: Tables, first: Settlement, t2: Tables, now: Instant)
    requires Accepts(t, first)
    requires exists j :: t2.journals == t.journals + FinalizeJournals(t, first) + [j]
                         && j.reference == Reference(RefCompensation, Text(first.id))
    ensures FindJournal(t2, SettlementRef(first.id)).Some?
    ensures FindJournal(t2, ReceiverRef(first.id)).Some? <==>
              FindJournal(t, ReceiverRef(first.id)).Some? || WritesReceiver(t, first)
  {
    hide IndexWhere, WritesReceiver, SenderPostings, Net, ReceiverCredit, ResolveReceiver;
    var j :| t2.journals == t.journals + FinalizeJournals(t, first) + [j]
             && j.reference == Reference(RefCompensation, Text(first.id));
    var written := FinalizeJournals(t, first);
    forall reference | reference == SettlementRef(first.id) || reference == ReceiverRef(first.id)
      ensures IndexWhere(t2.journals, RefersTo(reference)).Some? <==>
              IndexWhere(t.journals, RefersTo(reference)).Some? || reference == SettlementRef(first.id)
              || WritesReceiver(t, first)
    {
      FindAppend(t.journals + written, j, reference);
      FindAppend(t.journals, written[0], reference);
      if |written| == 2 {
        FindAppend(t.journals + [written[0]], written[1], reference);
        assert t.journals + written == t.journals + [written[0]] + [written[1]];
      } else {
        assert t.journals + written == t.journals + [written[0]];
      }
    }
  }

  lemma FinalizeKeepsDevices(t: Tables, s: Settlement)
    ensures Finalize(t, s).0.devices == t.devices
  {
    hide IndexWhere, ResolveReceiver, SettlementFee, Projected, Net, SenderPostings, ReceiverCredit, Sync,
         PaysReceiver, AffectedUsers;
  }

  lemma CompensateKeepsDevices(t: Tables, id: string, u: UserId, amount: nat, action: ReleaseAction, now: Instant)
    ensures Compensate(t, id, u, amount, action, now).0.devices == t.devices
  {
    hide IndexWhere, Projected, Net;
  }
}
