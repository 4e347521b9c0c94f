/** What happens to a reservation from its creation to its end, on the rows and by the clock.

    The laws here say what an observer of the tables sees; they do not mention how a step computes it. */
module Visits {
  import opened Options
  import opened Pricing
  import opened Parking
  import opened Lifecycle

  // ---- What no step changes -------------------------------------------------------------

  /** Rows are never deleted; who a reservation is for, its slot and its times, and when a session began,
      never change. */
  ghost predicate Keeps(db: Db, db': Db) {
    && (forall r <- db.reservations :: r in db'.reservations && SameTerms(db.reservations[r], db'.reservations[r]))
    && (forall s <- db.sessions :: s in db'.sessions && SameVisit(db.sessions[s], db'.sessions[s]))
  }

  predicate SameTerms(r: Reservation, r': Reservation) {
    && r'.userId == r.userId && r'.branchId == r.branchId && r'.slotId == r.slotId
    && r'.requestedType == r.requestedType && r'.startAt == r.startAt && r'.expiresAt == r.expiresAt
  }

  predicate SameVisit(s: Session, s': Session) {
    s'.reservationId == s.reservationId && s'.userId == s.userId && s'.slotId == s.slotId && s'.entryAt == s.entryAt
  }

  lemma StepKeepsTerms(w: World, step: Step, now: int)
    requires Enabled(w, step)
    ensures Keeps(w.db, Apply(w, step, now).db)
  {}

  lemma {:induction false} RunKeepsTerms(w: World, moves: seq<Move>)
    requires IsRun(w, moves)
    ensures Keeps(w.db, After(w, moves).db)
    decreases |moves|
  {
    if moves != [] {
      StepKeepsTerms(w, moves[0].step, moves[0].now);
      RunKeepsTerms(Apply(w, moves[0].step, moves[0].now), moves[1..]);
    }
  }

  /** References resolve, of workers too. */
  ghost predicate Resolves(w: World) {
    Schema(w.db) && forall k <- w.workers :: w.workers[k].Claimed? ==> w.workers[k].slot in w.db.slots
  }

  lemma InvResolves(w: World)
    requires Inv(w)
    ensures Resolves(w)
  {
    forall k <- w.workers | w.workers[k].Claimed?
      ensures w.workers[k].slot in w.db.slots
    {
      assert Holds(w, OfWorker(k), w.workers[k].slot);
    }
  }

  lemma SlotsStay(w: World, step: Step, now: int)
    requires Enabled(w, step)
    ensures Apply(w, step, now).db.slots.Keys == w.db.slots.Keys
  {}

  lemma EnterResolves(w: World, id: Id, session: Id, now: int)
    requires Resolves(w) && Enabled(w, Enter(id, session))
    ensures Resolves(Apply(w, Enter(id, session), now))
  {
    SlotsStay(w, Enter(id, session), now);
  }

  lemma InsertResolves(w: World, k: Id, id: Id, toleranceMinutes: int, now: int)
    requires Resolves(w) && Enabled(w, Insert(k, id, toleranceMinutes))
    ensures Resolves(Apply(w, Insert(k, id, toleranceMinutes), now))
  {}

  /** Only an insert makes a reservation and only an entry a session; a slot claimed exists. */
  lemma KeysStay(w: World, step: Step, now: int)
    requires Enabled(w, step) && !step.Enter? && !step.Insert?
    ensures var w' := Apply(w, step, now);
      && w'.db.sessions.Keys == w.db.sessions.Keys && w'.db.reservations.Keys == w.db.reservations.Keys
      && forall k <- w'.workers :: w'.workers[k].Claimed? ==>
           (k in w.workers && w'.workers[k] == w.workers[k]) || w'.workers[k].slot in w.db.slots
  {}

  lemma SameKeysResolve(w: World, w': World)
    requires Resolves(w) && Keeps(w.db, w'.db) && w'.db.slots.Keys == w.db.slots.Keys
    requires w'.db.sessions.Keys == w.db.sessions.Keys && w'.db.reservations.Keys == w.db.reservations.Keys
    requires forall k <- w'.workers :: w'.workers[k].Claimed? ==>
      (k in w.workers && w'.workers[k] == w.workers[k]) || w'.workers[k].slot in w.db.slots
    ensures Resolves(w')
  {}

  lemma StepResolves(w: World, step: Step, now: int)
    requires Resolves(w) && Enabled(w, step)
    ensures Resolves(Apply(w, step, now))
  {
    match step
    case Enter(id, session) => EnterResolves(w, id, session, now);
    case Insert(k, id, toleranceMinutes) => InsertResolves(w, k, id, toleranceMinutes, now);
    case _ =>
      SlotsStay(w, step, now);
      StepKeepsTerms(w, step, now);
      KeysStay(w, step, now);
      SameKeysResolve(w, Apply(w, step, now));
  }

  lemma {:induction false} RunResolves(w: World, moves: seq<Move>)
    requires Resolves(w) && IsRun(w, moves)
    ensures Resolves(After(w, moves))
    decreases |moves|
  {
    if moves != [] {
      StepResolves(w, moves[0].step, moves[0].now);
      RunResolves(Apply(w, moves[0].step, moves[0].now), moves[1..]);
    }
  }

  // ---- Creation -------------------------------------------------------------------------

  function StartOf(request: Request, now: int): int {
    if request.startAt.Some? then request.startAt.value else now
  }

  /** A reservation is made pending, for the slot its worker claimed; it starts when asked for, or now,
      and lapses the tolerance, in minutes, later. */
  lemma CreatedRow(w: World, k: Id, id: Id, toleranceMinutes: int, now: int)
    requires Enabled(w, Insert(k, id, toleranceMinutes))
    ensures var w' := Apply(w, Insert(k, id, toleranceMinutes), now);
      var request, r := w.workers[k].request, w'.db.reservations[id];
      && r.userId == request.user && r.branchId == request.branch && r.slotId == w.workers[k].slot
      && (request.wanted.Some? ==> r.requestedType == request.wanted.value)
      && (request.wanted.None? && r.slotId in w.db.slots ==> r.requestedType == w.db.slots[r.slotId].slotType)
      && r.status == Pending && r.confirmedAt == None
      && r.startAt == StartOf(request, now) && r.expiresAt == StartOf(request, now) + toleranceMinutes * 60_000
      && w'.db == w.db.(reservations := w.db.reservations[id := r])
      && w'.workers == w.workers - {k}
  {}

  // ---- The sweep ------------------------------------------------------------------------

  predicate HasLapsed(r: Reservation, now: int) {
    r.status == Pending && r.expiresAt < now
  }

  /** A sweep expires exactly the pending reservations that lapsed before it and frees exactly their
      slots. */
  lemma SweepOnRows(w: World, now: int)
    requires Schema(w.db)
    ensures var db' := Apply(w, Sweep, now).db;
      && db'.sessions == w.db.sessions
      && db'.reservations.Keys == w.db.reservations.Keys && db'.slots.Keys == w.db.slots.Keys
      && (forall r <- w.db.reservations ::
            var was := w.db.reservations[r];
            db'.reservations[r] == if HasLapsed(was, now) then was.(status := Expired) else was)
      && (forall s <- w.db.slots ::
            db'.slots[s] ==
              if exists r <- w.db.reservations ::
                HasLapsed(w.db.reservations[r], now) && w.db.reservations[r].slotId == s
              then w.db.slots[s].(status := Disponible, updatedAt := now) else w.db.slots[s])
  {
    var ids := Overdue(w.db, now);
    assert forall r :: r in ids <==> r in w.db.reservations && HasLapsed(w.db.reservations[r], now);
    assert forall s :: s in SlotsOf(w.db, ids) <==>
      exists r <- w.db.reservations :: HasLapsed(w.db.reservations[r], now) && w.db.reservations[r].slotId == s;
  }

  /** From creation to sweep: a reservation that is still pending after any moves is expired by a sweep
      exactly when more than the tolerance has passed since its start. */
  lemma CreatedIsSweptExactly(w: World, k: Id, id: Id, toleranceMinutes: int, t1: int, moves: seq<Move>, t2: int)
    requires Resolves(w) && Enabled(w, Insert(k, id, toleranceMinutes))
    requires var w1 := Apply(w, Insert(k, id, toleranceMinutes), t1);
      && IsRun(w1, moves) && id in After(w1, moves).db.reservations
      && After(w1, moves).db.reservations[id].status == Pending
    ensures var w2 := After(Apply(w, Insert(k, id, toleranceMinutes), t1), moves);
      var r := Apply(w2, Sweep, t2).db.reservations[id];
      r.status == if t2 > StartOf(w.workers[k].request, t1) + toleranceMinutes * 60_000 then Expired else Pending
  {
    var w1 := Apply(w, Insert(k, id, toleranceMinutes), t1);
    CreatedRow(w, k, id, toleranceMinutes, t1);
    RunKeepsTerms(w1, moves);
    StepResolves(w, Insert(k, id, toleranceMinutes), t1);
    RunResolves(w1, moves);
    SweepOnRows(After(w1, moves), t2);
  }

  // ---- Entry ----------------------------------------------------------------------------

  /** An entry is granted exactly to a pending reservation whose time has come.  It confirms the
      reservation, starts the session at that moment and occupies the slot; otherwise nothing changes. */
  lemma EntryGrantedExactly(w: World, id: Id, session: Id, now: int)
    requires Inv(w) && Enabled(w, Enter(id, session))
    ensures var w' := Apply(w, Enter(id, session), now);
      && (session in w'.db.sessions <==>
            id in w.db.reservations && w.db.reservations[id].status == Pending && w.db.reservations[id].startAt <= now)
      && (session !in w'.db.sessions ==> w' == w)
      && (session in w'.db.sessions ==> w'.workers == w.workers && IsEntered(w.db, w'.db, id, session, now))
  {
    EntryMeetsNoSession(w, id, now);
    if id in w.db.reservations {
      var r := w.db.reservations[id];
      assert r.status == Pending ==> !HasSession(w.db, id, Active) && !HasSession(w.db, id, Finished);
    }
  }

  /** Why an entry is refused, in reachable states. */
  lemma EntryRefusedExactly(w: World, id: Id, now: int)
    requires Inv(w)
    ensures EntryError(w.db, id, now) ==
      if id !in w.db.reservations then Some(NotFound)
      else
        var r := w.db.reservations[id];
        if r.status !in {Pending, Confirmed} then Some(ReservationExpired)
        else if r.startAt > now then Some(ReservationNotStarted)
        else if r.status == Confirmed then Some(SessionAlreadyActive)
        else None
  {
    EntryMeetsNoSession(w, id, now);
    if id in w.db.reservations && w.db.reservations[id].status == Confirmed {
      assert HasSession(w.db, id, Active);
    }
  }

  predicate IsEntered(db: Db, db': Db, id: Id, session: Id, now: int) {
    && id in db.reservations && db.reservations[id].slotId in db.slots
    && var r := db.reservations[id];
       && db'.sessions == db.sessions[session := Session(id, r.userId, r.slotId, Active, now, None)]
       && db'.reservations == db.reservations[id := r.(status := Confirmed, confirmedAt := Some(now))]
       && db'.slots == db.slots[r.slotId := db.slots[r.slotId].(status := Ocupada, updatedAt := now)]
  }

  // ---- From entry to exit ---------------------------------------------------------------

  /** What an exit answers for a stay between two moments: granted exactly when the payment is approved
      and short of the price by one cent at most, else the missing amount. */
  function ExitAnswer(payment: Option<PaymentView>, pricePerHour: int, entered: int, now: int): Option<Error> {
    if payment.None? || !payment.value.approved then Some(PaymentNotApproved)
    else if Price(pricePerHour, entered, now) - payment.value.amount <= 1 then None
    else Some(OverstayPaymentInsufficient(Price(pricePerHour, entered, now) - payment.value.amount))
  }

  /** After an entry at `t1` and any moves that leave the session active, an exit at `t2` is answered for
      the time from `t1` to `t2`.  If granted the session ends at that moment, the reservation is
      completed and the slot is free; otherwise nothing changes. */
  lemma EntryToExit(
    w: World, id: Id, session: Id, t1: int, moves: seq<Move>, payment: Option<PaymentView>, pricePerHour: int, t2: int)
    requires Inv(w) && Enabled(w, Enter(id, session))
    requires var w1 := Apply(w, Enter(id, session), t1);
      && session in w1.db.sessions && IsRun(w1, moves)
      && session in After(w1, moves).db.sessions && After(w1, moves).db.sessions[session].status == Active
    ensures var w2 := After(Apply(w, Enter(id, session), t1), moves);
      var w3 := Apply(w2, Leave(session, payment, pricePerHour), t2);
      && ExitError(w2.db, session, payment, pricePerHour, t2) == ExitAnswer(payment, pricePerHour, t1, t2)
      && (if ExitAnswer(payment, pricePerHour, t1, t2).None? then IsLeft(w2.db, w3.db, session, t2) else w3 == w2)
  {
    var w1 := Apply(w, Enter(id, session), t1);
    EntryGrantedExactly(w, id, session, t1);
    RunKeepsTerms(w1, moves);
    InvResolves(w);
    StepResolves(w, Enter(id, session), t1);
    RunResolves(w1, moves);
    var w2 := After(w1, moves);
    assert w1.db.sessions[session].entryAt == t1 && w2.db.sessions[session].entryAt == t1;
  }

  /** An unknown or finished session is not left. */
  lemma OnlyActiveSessionsAreLeft(
    w: World, session: Id, payment: Option<PaymentView>, pricePerHour: int, now: int)
    requires session !in w.db.sessions || w.db.sessions[session].status == Finished
    ensures ExitError(w.db, session, payment, pricePerHour, now) == Some(SessionNotActive)
    ensures Apply(w, Leave(session, payment, pricePerHour), now) == w
  {}

  predicate IsLeft(db: Db, db': Db, session: Id, now: int) {
    && session in db.sessions && db.sessions[session].slotId in db.slots
    && db.sessions[session].reservationId in db.reservations
    && var s := db.sessions[session];
       && db'.sessions == db.sessions[session := s.(status := Finished, exitAt := Some(now))]
       && db'.reservations ==
            db.reservations[s.reservationId := db.reservations[s.reservationId].(status := Completed)]
       && db'.slots == db.slots[s.slotId := db.slots[s.slotId].(status := Disponible, updatedAt := now)]
  }

  // ---- Cancellation ---------------------------------------------------------------------

  /** A cancellation is granted exactly to the user of the reservation, while it is pending or confirmed;
      then it is cancelled and its slot free, and otherwise nothing changes. */
  lemma CancelGrantedExactly(w: World, id: Id, user: Id, now: int)
    requires Schema(w.db)
    ensures var w' := Apply(w, Cancel(id, user), now);
      if id in w.db.reservations && w.db.reservations[id].userId == user
         && w.db.reservations[id].status in {Pending, Confirmed}
      then IsCancelled(w.db, w'.db, id, now) && w'.workers == w.workers
      else w' == w
    ensures CancelError(w.db, id, user) ==
      if !(id in w.db.reservations && w.db.reservations[id].userId == user) then Some(NotFound)
      else if w.db.reservations[id].status !in {Pending, Confirmed} then Some(ReservationExpired)
      else None
  {}

  predicate IsCancelled(db: Db, db': Db, id: Id, now: int) {
    && id in db.reservations && db.reservations[id].slotId in db.slots
    && var r := db.reservations[id];
       && db'.sessions == db.sessions
       && db'.reservations == db.reservations[id := r.(status := ReservationStatus.Cancelled)]
       && db'.slots == db.slots[r.slotId := db.slots[r.slotId].(status := Disponible, updatedAt := now)]
  }

  // ---- Who may reserve, and what can be claimed -----------------------------------------

  /** A check passes exactly when the user has no pending or confirmed reservation and no active
      session. */
  lemma CheckPassesExactly(w: World, k: Id, request: Request, now: int)
    requires Enabled(w, Check(k, request))
    ensures var w' := Apply(w, Check(k, request), now);
      && w'.db == w.db
      && (k in w'.workers <==>
            && (forall r <- w.db.reservations ::
                  w.db.reservations[r].userId == request.user ==> w.db.reservations[r].status !in {Pending, Confirmed})
            && (forall s <- w.db.sessions ::
                  w.db.sessions[s].userId == request.user ==> w.db.sessions[s].status == Finished))
  {}

  /** A claim takes only a free slot of the branch and the type asked for, and reserves it. */
  lemma ClaimedRow(w: World, k: Id, slot: Id, now: int)
    requires Enabled(w, Claim(k, Some(slot)))
    ensures var w' := Apply(w, Claim(k, Some(slot)), now);
      var request, was := w.workers[k].request, w.db.slots[slot];
      && was.branchId == request.branch && was.status == Disponible
      && (request.wanted.Some? ==> was.slotType == request.wanted.value)
      && w'.db == w.db.(slots := w.db.slots[slot := was.(status := Reservada, updatedAt := now)])
      && w'.workers == w.workers[k := Claimed(request, slot)]
  {}

  /** Marking a branch full occupies exactly its free slots; a report blocks exactly the slot named. */
  lemma MarkedRows(w: World, branch: Id, slot: Id, now: int)
    ensures var full := Apply(w, SimulateFull(branch), now).db.slots;
      && full.Keys == w.db.slots.Keys
      && forall s <- w.db.slots :: full[s] ==
           if w.db.slots[s].branchId == branch && w.db.slots[s].status == Disponible
           then w.db.slots[s].(status := Ocupada, updatedAt := now) else w.db.slots[s]
    ensures Apply(w, ReportBlocked(slot), now).db.slots ==
      if slot in w.db.slots then w.db.slots[slot := w.db.slots[slot].(status := NoDisponible, updatedAt := now)]
      else w.db.slots
  {}
}
