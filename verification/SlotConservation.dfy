/** Which steps lose a slot, leaving it off offer with nobody to give it back, and that no other does. */
module SlotConservation {
  import opened Options
  import opened Parking
  import opened Lifecycle

  ghost predicate IsHeld(w: World, slot: Id) {
    exists h :: Holds(w, h, slot)
  }

  ghost predicate NoneLost(w: World) {
    forall slot <- w.db.slots :: w.db.slots[slot].status != Disponible ==> IsHeld(w, slot)
  }

  /** What loses a slot: the death of a worker between its claim and its insert, a report that a slot is
      blocked while nobody holds it, and the simulation of a full branch that still has a free slot. */
  ghost predicate Loses(w: World, step: Step) {
    match step
    case Die(k) => k in w.workers && w.workers[k].Claimed?
    case ReportBlocked(slot) => slot in w.db.slots && !IsHeld(w, slot)
    case SimulateFull(branch) =>
      exists s <- w.db.slots :: w.db.slots[s].branchId == branch && w.db.slots[s].status == Disponible
    case _ => false
  }

  /** Slots that stay off offer keep their holder, slots that leave the offer have one. */
  lemma HoldersFollow(w: World, w': World, changed: Id)
    requires NoneLost(w)
    requires forall s <- w'.db.slots :: s != changed ==>
      s in w.db.slots && w'.db.slots[s].status == w.db.slots[s].status
    requires forall h, s :: Holds(w, h, s) && s != changed ==> Holds(w', h, s)
    requires changed in w'.db.slots && w'.db.slots[changed].status != Disponible ==> IsHeld(w', changed)
    ensures NoneLost(w')
  {
    forall s <- w'.db.slots | w'.db.slots[s].status != Disponible && s != changed
      ensures IsHeld(w', s)
    {
      assert IsHeld(w, s);
      var h :| Holds(w, h, s);
      assert Holds(w', h, s);
    }
  }

  lemma HoldersStay(w: World, w': World)
    requires NoneLost(w)
    requires forall s <- w'.db.slots :: s in w.db.slots && w'.db.slots[s].status == w.db.slots[s].status
    requires forall h, s :: Holds(w, h, s) ==> Holds(w', h, s)
    ensures NoneLost(w')
  {
    forall s <- w'.db.slots | w'.db.slots[s].status != Disponible
      ensures IsHeld(w', s)
    {
      assert IsHeld(w, s);
      var h :| Holds(w, h, s);
      assert Holds(w', h, s);
    }
  }

  lemma WorkerStepsLoseNothing(w: World, step: Step, now: int)
    requires Inv(w) && NoneLost(w) && Enabled(w, step) && (step.Check? || (step.Claim? && step.found.None?))
    ensures NoneLost(Apply(w, step, now))
  {
    HoldersStay(w, Apply(w, step, now));
  }

  lemma ClaimLosesNothing(w: World, k: Id, slot: Id, now: int)
    requires Inv(w) && NoneLost(w) && Enabled(w, Claim(k, Some(slot)))
    ensures NoneLost(Apply(w, Claim(k, Some(slot)), now))
  {
    var w' := Apply(w, Claim(k, Some(slot)), now);
    assert Holds(w', OfWorker(k), slot);
    HoldersFollow(w, w', slot);
  }

  lemma InsertLosesNothing(w: World, k: Id, id: Id, toleranceMinutes: int, now: int)
    requires Inv(w) && NoneLost(w) && Enabled(w, Insert(k, id, toleranceMinutes))
    ensures NoneLost(Apply(w, Insert(k, id, toleranceMinutes), now))
  {
    var w' := Apply(w, Insert(k, id, toleranceMinutes), now);
    var slot := w.workers[k].slot;
    assert Holds(w', OfReservation(id), slot);
    forall h, s | Holds(w, h, s) && s != slot
      ensures Holds(w', h, s)
    {
      assert h != OfWorker(k);
    }
    HoldersFollow(w, w', slot);
  }

  lemma EnterLosesNothing(w: World, id: Id, session: Id, now: int)
    requires Inv(w) && NoneLost(w) && Enabled(w, Enter(id, session))
    ensures NoneLost(Apply(w, Enter(id, session), now))
  {
    EntryMeetsNoSession(w, id, now);
    if EntryError(w.db, id, now).None? {
      var w' := Apply(w, Enter(id, session), now);
      assert Holds(w', OfReservation(id), w.db.reservations[id].slotId);
      HoldersFollow(w, w', w.db.reservations[id].slotId);
    }
  }

  lemma LeaveLosesNothing(w: World, id: Id, payment: Option<PaymentView>, pricePerHour: int, now: int)
    requires Inv(w) && NoneLost(w)
    ensures NoneLost(Apply(w, Leave(id, payment, pricePerHour), now))
  {
    if ExitError(w.db, id, payment, pricePerHour, now).None? {
      HoldersFollow(w, Apply(w, Leave(id, payment, pricePerHour), now), w.db.sessions[id].slotId);
    }
  }

  lemma CancelLosesNothing(w: World, id: Id, user: Id, now: int)
    requires Inv(w) && NoneLost(w)
    ensures NoneLost(Apply(w, Cancel(id, user), now))
  {
    if CancelError(w.db, id, user).None? {
      HoldersFollow(w, Apply(w, Cancel(id, user), now), w.db.reservations[id].slotId);
    }
  }

  lemma SweepLosesNothing(w: World, now: int)
    requires Inv(w) && NoneLost(w)
    ensures NoneLost(Apply(w, Sweep, now))
  {
    var w' := Apply(w, Sweep, now);
    var freed := SlotsOf(w.db, Overdue(w.db, now));
    forall s <- w'.db.slots | w'.db.slots[s].status != Disponible
      ensures IsHeld(w', s)
    {
      assert s !in freed && IsHeld(w, s);
      var h :| Holds(w, h, s);
      assert Holds(w', h, s);
    }
  }

  lemma DeathLosesExactly(w: World, k: Id, now: int)
    requires Inv(w) && NoneLost(w) && Enabled(w, Die(k))
    ensures NoneLost(Apply(w, Die(k), now)) <==> !Loses(w, Die(k))
  {
    var w' := Apply(w, Die(k), now);
    if w.workers[k].Claimed? {
      assert Holds(w, OfWorker(k), w.workers[k].slot);
      assert forall h :: Holds(w', h, w.workers[k].slot) ==> Holds(w, h, w.workers[k].slot) && h != OfWorker(k);
      assert !IsHeld(w', w.workers[k].slot);
    } else {
      HoldersStay(w, w');
    }
  }

  lemma ReportLosesExactly(w: World, slot: Id, now: int)
    requires Inv(w) && NoneLost(w)
    ensures NoneLost(Apply(w, ReportBlocked(slot), now)) <==> !Loses(w, ReportBlocked(slot))
  {
    var w' := Apply(w, ReportBlocked(slot), now);
    assert forall h, s :: Holds(w', h, s) <==> Holds(w, h, s);
    if slot !in w.db.slots || IsHeld(w, slot) {
      if IsHeld(w, slot) {
        var h :| Holds(w, h, slot);
        assert Holds(w', h, slot);
      }
      HoldersFollow(w, w', slot);
    } else {
      assert !IsHeld(w', slot);
    }
  }

  lemma SimulationLosesExactly(w: World, branch: Id, now: int)
    requires Inv(w) && NoneLost(w)
    ensures NoneLost(Apply(w, SimulateFull(branch), now)) <==> !Loses(w, SimulateFull(branch))
  {
    var w' := Apply(w, SimulateFull(branch), now);
    assert forall h, s :: Holds(w', h, s) <==> Holds(w, h, s);
    if Loses(w, SimulateFull(branch)) {
      var s :| s in w.db.slots && w.db.slots[s].branchId == branch && w.db.slots[s].status == Disponible;
      assert w'.db.slots[s].status == Ocupada && !IsHeld(w', s);
    } else {
      HoldersStay(w, w');
    }
  }

  /** Every step keeps a holder for each slot off offer exactly if it is none of those that lose one. */
  lemma StepLosesExactly(w: World, step: Step, now: int)
    requires Inv(w) && NoneLost(w) && Enabled(w, step)
    ensures NoneLost(Apply(w, step, now)) <==> !Loses(w, step)
  {
    match step
    case Check(_, _) => WorkerStepsLoseNothing(w, step, now);
    case Claim(k, found) =>
      if found.Some? { ClaimLosesNothing(w, k, found.value, now); } else { WorkerStepsLoseNothing(w, step, now); }
    case Insert(k, id, toleranceMinutes) => InsertLosesNothing(w, k, id, toleranceMinutes, now);
    case Enter(id, session) => EnterLosesNothing(w, id, session, now);
    case Leave(id, payment, pricePerHour) => LeaveLosesNothing(w, id, payment, pricePerHour, now);
    case Cancel(id, user) => CancelLosesNothing(w, id, user, now);
    case Sweep => SweepLosesNothing(w, now);
    case Die(k) => DeathLosesExactly(w, k, now);
    case ReportBlocked(slot) => ReportLosesExactly(w, slot, now);
    case SimulateFull(branch) => SimulationLosesExactly(w, branch, now);
  }

  /** No step of the run loses a slot. */
  ghost predicate LosesNothing(w: World, moves: seq<Move>)
    requires IsRun(w, moves)
    decreases |moves|
  {
    moves != [] ==>
      !Loses(w, moves[0].step) && LosesNothing(Apply(w, moves[0].step, moves[0].now), moves[1..])
  }

  lemma LostIsStranded(w: World)
    ensures NoneLost(w) <==> forall slot :: !IsStranded(w, slot)
  {
    if !NoneLost(w) {
      var slot :| slot in w.db.slots && w.db.slots[slot].status != Disponible && !IsHeld(w, slot);
      assert IsStranded(w, slot);
    }
    forall slot | IsStranded(w, slot)
      ensures !NoneLost(w)
    {
      assert !IsHeld(w, slot);
    }
  }

  /** Over a whole run every slot off offer ends with a holder exactly if no step lost one: what was
      lost is never found again. */
  lemma {:induction false} RunLosesExactly(w: World, moves: seq<Move>)
    requires Inv(w) && NoneLost(w) && IsRun(w, moves) && CancelsAreIdle(w, moves)
    ensures Inv(After(w, moves))
    ensures NoneLost(After(w, moves)) <==> LosesNothing(w, moves)
    decreases |moves|
  {
    if moves != [] {
      var w' := Apply(w, moves[0].step, moves[0].now);
      StepKeeps(w, moves[0].step, moves[0].now);
      StepLosesExactly(w, moves[0].step, moves[0].now);
      if NoneLost(w') {
        RunLosesExactly(w', moves[1..]);
      } else {
        RunKeeps(w', moves[1..]);
        LostStaysLost(w', moves[1..]);
      }
    }
  }

  lemma LostStaysLost(w: World, moves: seq<Move>)
    requires Inv(w) && !NoneLost(w) && IsRun(w, moves) && CancelsAreIdle(w, moves)
    ensures !NoneLost(After(w, moves))
  {
    LostIsStranded(w);
    LostIsStranded(After(w, moves));
    var slot :| IsStranded(w, slot);
    StrandedForever(w, moves, slot);
  }

  /** From a system with every slot on offer, at the end of any run: exactly the slots nobody holds are
      on offer, exactly if no step of the run lost one. */
  lemma OnOfferExactlyWhenFree(start: World, moves: seq<Move>)
    requires Initial(start) && forall s <- start.db.slots :: start.db.slots[s].status == Disponible
    requires IsRun(start, moves) && CancelsAreIdle(start, moves)
    ensures LosesNothing(start, moves) <==> OffersTheFree(After(start, moves))
  {
    InitialHolds(start);
    RunLosesExactly(start, moves);
    var w := After(start, moves);
    forall slot <- w.db.slots
      ensures IsHeld(w, slot) ==> w.db.slots[slot].status != Disponible
    {}
  }

  /** A slot is on offer exactly when no live reservation and no worker holds it. */
  ghost predicate OffersTheFree(w: World) {
    forall slot <- w.db.slots :: w.db.slots[slot].status == Disponible <==> !IsHeld(w, slot)
  }
}
