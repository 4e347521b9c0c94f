/** The life of slots, reservations and sessions under any interleaving.

    Creating a reservation takes three steps of a worker (check, claim, insert), so that any number
    of workers interleave; a worker can also die between them.  Every other operation is one step. */
module Lifecycle {
  import opened Options
  import opened Parking

  datatype Request = Request(user: Id, branch: Id, wanted: Option<SlotType>, startAt: Option<int>)

  /** Where a worker stands: it passed the eligibility check, or it also claimed a slot. */
  datatype Worker = Checked(request: Request) | Claimed(request: Request, slot: Id)

  datatype World = World(db: Db, workers: map<Id, Worker>)

  datatype Step =
    | Check(worker: Id, request: Request)
    | Claim(worker: Id, found: Option<Id>)
    | Insert(worker: Id, reservation: Id, toleranceMinutes: int)
    | Die(worker: Id)
    | Enter(reservation: Id, session: Id)
    | Leave(session: Id, payment: Option<PaymentView>, pricePerHour: int)
    | Cancel(reservation: Id, user: Id)
    | Sweep
    | SimulateFull(branch: Id)
    | ReportBlocked(slot: Id)

  predicate IsOnOffer(db: Db, slot: Id, request: Request) {
    slot in db.slots && IsClaimable(db.slots[slot], request.branch, request.wanted)
  }

  /** What the program and the database allow: a worker acts in order, a claim returns a slot that
      matches and is free (or nothing), and new rows get new identifiers. */
  predicate Enabled(w: World, step: Step) {
    match step
    case Check(k, _) => k !in w.workers
    case Claim(k, found) =>
      && k in w.workers && w.workers[k].Checked?
      && (found.Some? ==> IsOnOffer(w.db, found.value, w.workers[k].request))
    case Insert(k, id, _) => k in w.workers && w.workers[k].Claimed? && id !in w.db.reservations
    case Die(k) => k in w.workers
    case Enter(_, session) => session !in w.db.sessions
    case _ => true
  }

  ghost function Apply(w: World, step: Step, now: int): World
    requires Enabled(w, step)
  {
    match step
    case Check(k, request) =>
      if MayCreate(w.db, request.user) then w.(workers := w.workers[k := Checked(request)]) else w
    case Claim(k, found) =>
      if found.None? then w.(workers := w.workers - {k})
      else World(w.db.(slots := WithSlotStatus(w.db.slots, found.value, Reservada, now)),
                 w.workers[k := Claimed(w.workers[k].request, found.value)])
    case Insert(k, id, toleranceMinutes) =>
      World(w.db.(reservations := w.db.reservations[id := NewReservation(w, k, toleranceMinutes, now)]),
            w.workers - {k})
    case Die(k) => w.(workers := w.workers - {k})
    case Enter(id, session) => w.(db := AfterEntry(w.db, id, session, now))
    case Leave(id, payment, pricePerHour) => w.(db := AfterExit(w.db, id, payment, pricePerHour, now))
    case Cancel(id, user) => w.(db := AfterCancel(w.db, id, user, now))
    case Sweep => w.(db := AfterExpiring(w.db, Overdue(w.db, now), now))
    case SimulateFull(branch) => w.(db := w.db.(slots := WithAllOccupied(w.db.slots, branch, now)))
    case ReportBlocked(slot) => w.(db := w.db.(slots := WithSlotStatus(w.db.slots, slot, NoDisponible, now)))
  }

  function NewReservation(w: World, k: Id, toleranceMinutes: int, now: int): Reservation
    requires k in w.workers && w.workers[k].Claimed?
  {
    var request := w.workers[k].request;
    var slot := w.workers[k].slot;
    var startAt := if request.startAt.Some? then request.startAt.value else now;
    var ofSlot := if slot in w.db.slots then w.db.slots[slot].slotType else Regular;
    Reservation(request.user, request.branch, slot,
                if request.wanted.Some? then request.wanted.value else ofSlot,
                Pending, startAt, ExpiresAt(startAt, toleranceMinutes), None)
  }

  // ---- The invariant --------------------------------------------------------------------

  /** Who a slot is promised to: a live reservation, or a worker between claim and insert. */
  datatype Holder = OfReservation(id: Id) | OfWorker(id: Id)

  predicate Holds(w: World, h: Holder, slot: Id) {
    match h
    case OfReservation(id) =>
      id in w.db.reservations && IsLive(w.db.reservations[id]) && w.db.reservations[id].slotId == slot
    case OfWorker(k) => k in w.workers && w.workers[k].Claimed? && w.workers[k].slot == slot
  }

  /** No slot has two holders. */
  ghost predicate Exclusive(w: World) {
    forall h1, h2, slot :: Holds(w, h1, slot) && Holds(w, h2, slot) ==> h1 == h2
  }

  /** A slot with a holder exists and is not on offer. */
  ghost predicate Guarded(w: World) {
    forall h, slot :: Holds(w, h, slot) ==> slot in w.db.slots && w.db.slots[slot].status != Disponible
  }

  /** A session belongs to its reservation: same slot, same user, active exactly while the reservation
      is confirmed, finished exactly when it is completed. */
  predicate Agrees(s: Session, r: Reservation) {
    && s.slotId == r.slotId && s.userId == r.userId
    && r.status == (if s.status == Active then Confirmed else Completed)
  }

  ghost predicate SessionsAgree(db: Db) {
    forall s <- db.sessions ::
      var r := db.sessions[s].reservationId;
      r in db.reservations && Agrees(db.sessions[s], db.reservations[r])
  }

  ghost predicate ConfirmedHaveSessions(db: Db) {
    forall r <- db.reservations :: db.reservations[r].status == Confirmed ==> HasSession(db, r, Active)
  }

  ghost predicate Inv(w: World) {
    Schema(w.db) && Exclusive(w) && Guarded(w) && SessionsAgree(w.db) && ConfirmedHaveSessions(w.db)
  }

  /** Before the first request: slots only. */
  predicate Initial(w: World) {
    w.workers == map[] && w.db.reservations == map[] && w.db.sessions == map[]
  }

  lemma InitialHolds(w: World)
    requires Initial(w)
    ensures Inv(w)
  {
    assert forall h, slot :: !Holds(w, h, slot);
  }

  /** The hypothesis the invariant needs: a cancellation is refused, or its reservation has no active
      session.  The pages offer the button in no other case; the use case itself accepts it. */
  ghost predicate CancelIsIdle(w: World, step: Step) {
    step.Cancel? ==> CancelError(w.db, step.reservation, step.user).Some? || !HasSession(w.db, step.reservation, Active)
  }

  // ---- Each step keeps it ---------------------------------------------------------------

  /** A step that creates no holder and frees only slots nobody holds afterwards keeps the two
      properties of holders. */
  lemma HoldersKept(w: World, w': World)
    requires Exclusive(w) && Guarded(w)
    requires forall h, slot :: Holds(w', h, slot) ==> Holds(w, h, slot)
    requires forall h, slot :: Holds(w', h, slot) ==>
      && slot in w.db.slots && slot in w'.db.slots
      && (w.db.slots[slot].status != Disponible ==> w'.db.slots[slot].status != Disponible)
    ensures Exclusive(w') && Guarded(w')
  {}

  lemma ClaimKeeps(w: World, k: Id, slot: Id, now: int)
    requires Inv(w) && Enabled(w, Claim(k, Some(slot)))
    ensures Inv(Apply(w, Claim(k, Some(slot)), now))
  {
    var w' := Apply(w, Claim(k, Some(slot)), now);
    assert forall h, s :: Holds(w', h, s) ==> Holds(w, h, s) || (h == OfWorker(k) && s == slot);
    assert forall h :: !Holds(w, h, slot);
  }

  lemma InsertKeeps(w: World, k: Id, id: Id, toleranceMinutes: int, now: int)
    requires Inv(w) && Enabled(w, Insert(k, id, toleranceMinutes))
    ensures Inv(Apply(w, Insert(k, id, toleranceMinutes), now))
  {
    var w' := Apply(w, Insert(k, id, toleranceMinutes), now);
    var slot := w.workers[k].slot;
    assert Holds(w, OfWorker(k), slot);
    assert forall h, s :: Holds(w', h, s) ==>
      if h == OfReservation(id) then s == slot else Holds(w, h, s) && h != OfWorker(k);
  }

  lemma WorkerKeeps(w: World, step: Step, now: int)
    requires Inv(w) && Enabled(w, step)
    requires step.Check? || step.Die? || (step.Claim? && step.found.None?)
    ensures Inv(Apply(w, step, now))
  {
    HoldersKept(w, Apply(w, step, now));
  }

  lemma SlotStepKeeps(w: World, step: Step, now: int)
    requires Inv(w) && (step.SimulateFull? || step.ReportBlocked?)
    ensures Inv(Apply(w, step, now))
  {
    HoldersKept(w, Apply(w, step, now));
  }

  /** An entry that gets past the guards finds no earlier session: the insert never meets the unique
      key. */
  lemma EntryMeetsNoSession(w: World, id: Id, now: int)
    requires Inv(w)
    ensures EntryError(w.db, id, now) != Some(UniqueViolation)
    ensures EntryError(w.db, id, now).None? ==>
      w.db.reservations[id].status == Pending && forall s <- w.db.sessions :: w.db.sessions[s].reservationId != id
  {}

  lemma EnterKeeps(w: World, id: Id, session: Id, now: int)
    requires Inv(w) && Enabled(w, Enter(id, session))
    ensures Inv(Apply(w, Enter(id, session), now))
  {
    EntryMeetsNoSession(w, id, now);
    if EntryError(w.db, id, now).None? {
      var w' := Apply(w, Enter(id, session), now);
      HoldersKept(w, w');
      assert w'.db.sessions[session].reservationId == id;
      SessionsStay(w.db, w'.db);
    }
  }

  /** Sessions that stay as they are keep confirming their reservations. */
  lemma SessionsStay(db: Db, db': Db)
    requires forall s <- db.sessions :: s in db'.sessions && db'.sessions[s] == db.sessions[s]
    ensures forall r :: HasSession(db, r, Active) ==> HasSession(db', r, Active)
  {}

  lemma LeaveKeeps(w: World, id: Id, payment: Option<PaymentView>, pricePerHour: int, now: int)
    requires Inv(w)
    ensures Inv(Apply(w, Leave(id, payment, pricePerHour), now))
  {
    if ExitError(w.db, id, payment, pricePerHour, now).None? {
      var w' := Apply(w, Leave(id, payment, pricePerHour), now);
      var s := w.db.sessions[id];
      assert Holds(w, OfReservation(s.reservationId), s.slotId);
      forall h, slot | Holds(w', h, slot)
        ensures Holds(w, h, slot) && slot != s.slotId
      {
        assert h != OfReservation(s.reservationId) && Holds(w, h, slot);
      }
      HoldersKept(w, w');
      forall r <- w'.db.reservations | w'.db.reservations[r].status == Confirmed
        ensures HasSession(w'.db, r, Active)
      {
        assert HasSession(w.db, r, Active);
        var t :| t in w.db.sessions && w.db.sessions[t].reservationId == r && w.db.sessions[t].status == Active;
        assert w'.db.sessions[t] == w.db.sessions[t];
      }
    }
  }

  lemma CancelKeeps(w: World, id: Id, user: Id, now: int)
    requires Inv(w) && CancelIsIdle(w, Cancel(id, user))
    ensures Inv(Apply(w, Cancel(id, user), now))
  {
    if CancelError(w.db, id, user).None? {
      var w' := Apply(w, Cancel(id, user), now);
      var slot := w.db.reservations[id].slotId;
      assert Holds(w, OfReservation(id), slot);
      forall h, s | Holds(w', h, s)
        ensures Holds(w, h, s) && s != slot
      {
        assert h != OfReservation(id) && Holds(w, h, s);
      }
      HoldersKept(w, w');
      SessionsStay(w.db, w'.db);
    }
  }

  lemma SweptSlotsHaveNoHolder(w: World, now: int)
    requires Exclusive(w)
    ensures forall h, s :: Holds(Apply(w, Sweep, now), h, s) ==>
      Holds(w, h, s) && s !in SlotsOf(w.db, Overdue(w.db, now))
  {
    var w' := Apply(w, Sweep, now);
    var ids := Overdue(w.db, now);
    forall h, s | Holds(w', h, s)
      ensures Holds(w, h, s) && s !in SlotsOf(w.db, ids)
    {
      assert Holds(w, h, s);
      if s in SlotsOf(w.db, ids) {
        var r :| r in ids && w.db.reservations[r].slotId == s;
        assert Holds(w, OfReservation(r), s);
        assert false;
      }
    }
  }

  lemma SweepKeeps(w: World, now: int)
    requires Inv(w)
    ensures Inv(Apply(w, Sweep, now))
  {
    var w' := Apply(w, Sweep, now);
    var ids := Overdue(w.db, now);
    SweptSlotsHaveNoHolder(w, now);
    HoldersKept(w, w');
    SessionsStay(w.db, w'.db);
  }

  lemma StepKeeps(w: World, step: Step, now: int)
    requires Inv(w) && Enabled(w, step) && CancelIsIdle(w, step)
    ensures Inv(Apply(w, step, now))
  {
    match step
    case Check(_, _) => WorkerKeeps(w, step, now);
    case Claim(k, found) => if found.Some? { ClaimKeeps(w, k, found.value, now); } else { WorkerKeeps(w, step, now); }
    case Insert(k, id, toleranceMinutes) => InsertKeeps(w, k, id, toleranceMinutes, now);
    case Die(_) => WorkerKeeps(w, step, now);
    case Enter(id, session) => EnterKeeps(w, id, session, now);
    case Leave(id, payment, pricePerHour) => LeaveKeeps(w, id, payment, pricePerHour, now);
    case Cancel(id, user) => CancelKeeps(w, id, user, now);
    case Sweep => SweepKeeps(w, now);
    case SimulateFull(_) => SlotStepKeeps(w, step, now);
    case ReportBlocked(_) => SlotStepKeeps(w, step, now);
  }

  // ---- Whole runs -----------------------------------------------------------------------

  datatype Move = Move(step: Step, now: int)

  ghost predicate IsRun(w: World, moves: seq<Move>)
    decreases |moves|
  {
    moves != [] ==> Enabled(w, moves[0].step) && IsRun(Apply(w, moves[0].step, moves[0].now), moves[1..])
  }

  ghost function After(w: World, moves: seq<Move>): World
    requires IsRun(w, moves)
    decreases |moves|
  {
    if moves == [] then w else After(Apply(w, moves[0].step, moves[0].now), moves[1..])
  }

  ghost predicate CancelsAreIdle(w: World, moves: seq<Move>)
    requires IsRun(w, moves)
    decreases |moves|
  {
    moves != [] ==>
      && CancelIsIdle(w, moves[0].step)
      && CancelsAreIdle(Apply(w, moves[0].step, moves[0].now), moves[1..])
  }

  /** In every run, with any number of workers, the invariant holds. */
  lemma {:induction false} RunKeeps(w: World, moves: seq<Move>)
    requires Inv(w) && IsRun(w, moves) && CancelsAreIdle(w, moves)
    ensures Inv(After(w, moves))
    decreases |moves|
  {
    if moves != [] {
      StepKeeps(w, moves[0].step, moves[0].now);
      RunKeeps(Apply(w, moves[0].step, moves[0].now), moves[1..]);
    }
  }

  /** What it means at the end of any run from an empty system: two holders never have the same slot,
      no held slot is on offer, two cars are never parked in one place, a reservation is confirmed
      exactly while it has one active session, of its own user and slot, it never gets a second one, and
      an entry never collides with an earlier session. */
  lemma EveryRunIsSafe(start: World, moves: seq<Move>)
    requires Initial(start) && IsRun(start, moves) && CancelsAreIdle(start, moves)
    ensures var w := After(start, moves);
      && (forall h1, h2, slot :: Holds(w, h1, slot) && Holds(w, h2, slot) ==> h1 == h2)
      && (forall h, slot :: Holds(w, h, slot) ==> slot in w.db.slots && w.db.slots[slot].status != Disponible)
      && (forall s, t | s in w.db.sessions && t in w.db.sessions && s != t ::
            w.db.sessions[s].status == Active && w.db.sessions[t].status == Active ==>
              w.db.sessions[s].slotId != w.db.sessions[t].slotId)
      && (forall r <- w.db.reservations :: w.db.reservations[r].status == Confirmed <==> HasSession(w.db, r, Active))
      && (forall s <- w.db.sessions ::
            var r := w.db.sessions[s].reservationId;
            && r in w.db.reservations
            && w.db.sessions[s].slotId == w.db.reservations[r].slotId
            && w.db.sessions[s].userId == w.db.reservations[r].userId)
      && (forall s, t | s in w.db.sessions && t in w.db.sessions ::
            w.db.sessions[s].reservationId == w.db.sessions[t].reservationId ==> s == t)
      && (forall id, now :: EntryError(w.db, id, now) != Some(UniqueViolation))
  {
    InitialHolds(start);
    RunKeeps(start, moves);
    var w := After(start, moves);
    forall s, t |
      && s in w.db.sessions && t in w.db.sessions && s != t
      && w.db.sessions[s].status == Active && w.db.sessions[t].status == Active
      ensures w.db.sessions[s].slotId != w.db.sessions[t].slotId
    {
      assert Holds(w, OfReservation(w.db.sessions[s].reservationId), w.db.sessions[s].slotId);
      assert Holds(w, OfReservation(w.db.sessions[t].reservationId), w.db.sessions[t].slotId);
    }
    forall id, now: int
      ensures EntryError(w.db, id, now) != Some(UniqueViolation)
    {
      EntryMeetsNoSession(w, id, now);
    }
  }

  // ---- The hypothesis on cancellations is needed, exactly ---------------------------------

  /** A cancellation keeps the invariant exactly when it is refused or the reservation has no active
      session. */
  lemma CancelKeepsExactly(w: World, id: Id, user: Id, now: int)
    requires Inv(w)
    ensures Inv(Apply(w, Cancel(id, user), now))
       <==> CancelError(w.db, id, user).Some? || !HasSession(w.db, id, Active)
  {
    if CancelIsIdle(w, Cancel(id, user)) {
      CancelKeeps(w, id, user, now);
    } else {
      var s :| s in w.db.sessions && w.db.sessions[s].reservationId == id && w.db.sessions[s].status == Active;
      var db' := Apply(w, Cancel(id, user), now).db;
      assert db'.sessions[s] == w.db.sessions[s] && db'.reservations[id].status == Cancelled;
    }
  }

  ghost predicate SafeThroughout(w: World, moves: seq<Move>)
    requires IsRun(w, moves)
    decreases |moves|
  {
    Inv(w) && (moves != [] ==> SafeThroughout(Apply(w, moves[0].step, moves[0].now), moves[1..]))
  }

  /** The invariant holds throughout a run exactly when every cancellation is refused or finds no active
      session. */
  lemma {:induction false} SafeExactly(w: World, moves: seq<Move>)
    requires Inv(w) && IsRun(w, moves)
    ensures SafeThroughout(w, moves) <==> CancelsAreIdle(w, moves)
    decreases |moves|
  {
    if moves != [] {
      var step, now := moves[0].step, moves[0].now;
      if CancelIsIdle(w, step) {
        StepKeeps(w, step, now);
        SafeExactly(Apply(w, step, now), moves[1..]);
      } else {
        CancelKeepsExactly(w, step.reservation, step.user, now);
      }
    }
  }

  /** Cancelling during the session puts the occupied slot on offer: the next worker that asks for it
      may claim it while the car is still there. */
  lemma CancelDuringSessionOffersTheSlot(w: World, id: Id, user: Id, session: Id, k: Id, now: int)
    requires Inv(w) && CancelError(w.db, id, user).None?
    requires session in w.db.sessions && w.db.sessions[session].reservationId == id
    requires w.db.sessions[session].status == Active
    requires k in w.workers && w.workers[k].Checked?
    requires var asked := w.workers[k].request;
      var parked := w.db.slots[w.db.sessions[session].slotId];
      asked.branch == parked.branchId && (asked.wanted.None? || asked.wanted.value == parked.slotType)
    ensures var slot := w.db.sessions[session].slotId;
      var moves := [Move(Cancel(id, user), now), Move(Claim(k, Some(slot)), now)];
      && IsRun(w, moves)
      && Holds(After(w, moves), OfWorker(k), slot)
      && session in After(w, moves).db.sessions
      && After(w, moves).db.sessions[session] == w.db.sessions[session]
  {
    var slot := w.db.sessions[session].slotId;
    var moves := [Move(Cancel(id, user), now), Move(Claim(k, Some(slot)), now)];
    var w1 := Apply(w, Cancel(id, user), now);
    assert moves[1..] == [Move(Claim(k, Some(slot)), now)];
    var w2 := Apply(w1, Claim(k, Some(slot)), now);
    assert moves[1..][1..] == [];
    assert IsRun(w2, []) && After(w2, []) == w2;
    assert IsRun(w1, moves[1..]) && After(w1, moves[1..]) == w2;
  }

  // ---- Slots nobody can free ------------------------------------------------------------

  /** A slot that is off offer without a holder: a worker died between its claim and its insert, or
      the slot was reported blocked or marked occupied while it was free. */
  ghost predicate IsStranded(w: World, slot: Id) {
    slot in w.db.slots && w.db.slots[slot].status != Disponible && forall h :: !Holds(w, h, slot)
  }

  lemma StrandedStep(w: World, step: Step, now: int, slot: Id)
    requires Inv(w) && Enabled(w, step) && CancelIsIdle(w, step) && IsStranded(w, slot)
    ensures IsStranded(Apply(w, step, now), slot)
  {
    var w' := Apply(w, step, now);
    forall h
      ensures !Holds(w', h, slot)
    {
      if Holds(w', h, slot) && step.Insert? {
        assert Holds(w, OfWorker(step.worker), w.workers[step.worker].slot);
        assert Holds(w, h, slot);
      } else {
        assert !Holds(w, h, slot);
      }
    }
    StrandedNotFreed(w, step, now, slot);
  }

  /** Only what belongs to a live reservation is ever released. */
  lemma StrandedNotFreed(w: World, step: Step, now: int, slot: Id)
    requires Inv(w) && Enabled(w, step) && CancelIsIdle(w, step) && IsStranded(w, slot)
    ensures var db' := Apply(w, step, now).db; slot in db'.slots && db'.slots[slot].status != Disponible
  {
    match step
    case Leave(id, payment, pricePerHour) =>
      if ExitError(w.db, id, payment, pricePerHour, now).None? {
        assert Holds(w, OfReservation(w.db.sessions[id].reservationId), w.db.sessions[id].slotId);
      }
    case Cancel(id, user) =>
      if CancelError(w.db, id, user).None? {
        assert Holds(w, OfReservation(id), w.db.reservations[id].slotId);
      }
    case Sweep =>
      forall r | r in Overdue(w.db, now)
        ensures w.db.reservations[r].slotId != slot
      {
        assert Holds(w, OfReservation(r), w.db.reservations[r].slotId);
      }
    case _ =>
  }

  /** No operation of the system ever puts such a slot on offer again. */
  lemma {:induction false} StrandedForever(w: World, moves: seq<Move>, slot: Id)
    requires Inv(w) && IsRun(w, moves) && CancelsAreIdle(w, moves) && IsStranded(w, slot)
    ensures IsStranded(After(w, moves), slot)
    decreases |moves|
  {
    if moves != [] {
      StrandedStep(w, moves[0].step, moves[0].now, slot);
      StepKeeps(w, moves[0].step, moves[0].now);
      StrandedForever(Apply(w, moves[0].step, moves[0].now), moves[1..], slot);
    }
  }

  /** The claim of a worker that dies before its insert is lost for good. */
  lemma DyingWorkerStrandsItsSlot(w: World, k: Id, now: int, moves: seq<Move>)
    requires Inv(w) && k in w.workers && w.workers[k].Claimed?
    requires IsRun(Apply(w, Die(k), now), moves) && CancelsAreIdle(Apply(w, Die(k), now), moves)
    ensures IsStranded(After(Apply(w, Die(k), now), moves), w.workers[k].slot)
  {
    var w' := Apply(w, Die(k), now);
    var slot := w.workers[k].slot;
    assert Holds(w, OfWorker(k), slot);
    assert forall h :: Holds(w', h, slot) ==> Holds(w, h, slot) && h != OfWorker(k);
    WorkerKeeps(w, Die(k), now);
    StrandedForever(w', moves, slot);
  }

  // ---- One live reservation per user ----------------------------------------------------

  ghost predicate OneLivePerUser(db: Db) {
    forall a, b | a in db.reservations && b in db.reservations ::
      IsLive(db.reservations[a]) && IsLive(db.reservations[b]) ==>
        db.reservations[a].userId == db.reservations[b].userId ==> a == b
  }

  /** The users workers are serving are distinct and have no live reservation. */
  ghost predicate Served(w: World) {
    && (forall k, l | k in w.workers && l in w.workers ::
          w.workers[k].request.user == w.workers[l].request.user ==> k == l)
    && (forall k, r | k in w.workers && r in w.db.reservations ::
          IsLive(w.db.reservations[r]) ==> w.db.reservations[r].userId != w.workers[k].request.user)
  }

  /** Requests of one user are processed one after the other. */
  predicate CheckIsSerial(w: World, step: Step) {
    step.Check? ==> forall k <- w.workers :: w.workers[k].request.user != step.request.user
  }

  lemma SerialStepKeeps(w: World, step: Step, now: int)
    requires OneLivePerUser(w.db) && Served(w) && Enabled(w, step) && CheckIsSerial(w, step)
    ensures var w' := Apply(w, step, now); OneLivePerUser(w'.db) && Served(w')
  {
    var w' := Apply(w, step, now);
    if step.Insert? {
      assert forall r | r in w'.db.reservations && r != step.reservation ::
        w'.db.reservations[r] == w.db.reservations[r];
    } else {
      forall r | r in w'.db.reservations && IsLive(w'.db.reservations[r])
        ensures r in w.db.reservations && IsLive(w.db.reservations[r])
        ensures w'.db.reservations[r].userId == w.db.reservations[r].userId
      {}
    }
  }

  ghost predicate ChecksAreSerial(w: World, moves: seq<Move>)
    requires IsRun(w, moves)
    decreases |moves|
  {
    moves != [] ==>
      && CheckIsSerial(w, moves[0].step)
      && ChecksAreSerial(Apply(w, moves[0].step, moves[0].now), moves[1..])
  }

  /** If the requests of each user are processed one after the other, no user ever has two live
      reservations; the same request may be processed any number of times. */
  lemma {:induction false} SerialRunKeeps(w: World, moves: seq<Move>)
    requires OneLivePerUser(w.db) && Served(w) && IsRun(w, moves) && ChecksAreSerial(w, moves)
    ensures OneLivePerUser(After(w, moves).db) && Served(After(w, moves))
    decreases |moves|
  {
    if moves != [] {
      SerialStepKeeps(w, moves[0].step, moves[0].now);
      SerialRunKeeps(Apply(w, moves[0].step, moves[0].now), moves[1..]);
    }
  }

  /** An insert finds its user without a live reservation. */
  ghost predicate InsertIsDue(w: World, step: Step)
    requires Enabled(w, step)
  {
    step.Insert? ==> forall r <- w.db.reservations ::
      w.db.reservations[r].userId == w.workers[step.worker].request.user ==> !IsLive(w.db.reservations[r])
  }

  /** An insert keeps the property exactly when the user has no live reservation at that moment, which
      is what the check looked at earlier. */
  lemma InsertKeepsOneLiveExactly(w: World, k: Id, id: Id, toleranceMinutes: int, now: int)
    requires OneLivePerUser(w.db) && Enabled(w, Insert(k, id, toleranceMinutes))
    ensures OneLivePerUser(Apply(w, Insert(k, id, toleranceMinutes), now).db)
       <==> InsertIsDue(w, Insert(k, id, toleranceMinutes))
  {
    var db' := Apply(w, Insert(k, id, toleranceMinutes), now).db;
    assert db'.reservations[id].userId == w.workers[k].request.user && IsLive(db'.reservations[id]);
    assert forall r | r in w.db.reservations :: db'.reservations[r] == w.db.reservations[r];
  }

  /** Only an insert makes a reservation live. */
  lemma OtherStepsKeepOneLive(w: World, step: Step, now: int)
    requires OneLivePerUser(w.db) && Enabled(w, step) && !step.Insert?
    ensures OneLivePerUser(Apply(w, step, now).db)
  {
    var db' := Apply(w, step, now).db;
    forall r <- db'.reservations
      ensures r in w.db.reservations && db'.reservations[r].userId == w.db.reservations[r].userId
      ensures IsLive(db'.reservations[r]) ==> IsLive(w.db.reservations[r])
    {}
  }

  ghost predicate InsertsAreDue(w: World, moves: seq<Move>)
    requires IsRun(w, moves)
    decreases |moves|
  {
    moves != [] ==>
      InsertIsDue(w, moves[0].step) && InsertsAreDue(Apply(w, moves[0].step, moves[0].now), moves[1..])
  }

  ghost predicate OneLiveThroughout(w: World, moves: seq<Move>)
    requires IsRun(w, moves)
    decreases |moves|
  {
    && OneLivePerUser(w.db)
    && (moves != [] ==> OneLiveThroughout(Apply(w, moves[0].step, moves[0].now), moves[1..]))
  }

  /** With any number of workers: users have one live reservation at most throughout a run exactly when
      every insert finds its user without one. */
  lemma {:induction false} OneLiveExactly(w: World, moves: seq<Move>)
    requires OneLivePerUser(w.db) && IsRun(w, moves)
    ensures OneLiveThroughout(w, moves) <==> InsertsAreDue(w, moves)
    decreases |moves|
  {
    if moves != [] {
      var step, now := moves[0].step, moves[0].now;
      var w' := Apply(w, step, now);
      if step.Insert? {
        InsertKeepsOneLiveExactly(w, step.worker, step.reservation, step.toleranceMinutes, now);
      } else {
        OtherStepsKeepOneLive(w, step, now);
      }
      if OneLivePerUser(w'.db) {
        OneLiveExactly(w', moves[1..]);
      }
    }
  }

  /** Two workers that check before either inserts give one user two live reservations. */
  lemma TwoWorkersTwoReservations(w: World, request: Request, s: Id, t: Id) returns (moves: seq<Move>)
    requires Initial(w) && s != t && IsOnOffer(w.db, s, request) && IsOnOffer(w.db, t, request)
    ensures IsRun(w, moves) && !OneLivePerUser(After(w, moves).db)
  {
    var w1 := Apply(w, Check(0, request), 0);
    var w2 := Apply(w1, Check(1, request), 0);
    assert w2.workers == map[0 := Checked(request), 1 := Checked(request)] && w2.db == w.db;
    moves := TwoClaimsTwoReservations(w2, request, s, t);
    moves := OneMove(w1, Move(Check(1, request), 0), w2, moves);
    moves := OneMove(w, Move(Check(0, request), 0), w1, moves);
  }

  lemma TwoClaimsTwoReservations(w: World, request: Request, s: Id, t: Id) returns (moves: seq<Move>)
    requires w.workers == map[0 := Checked(request), 1 := Checked(request)] && w.db.reservations == map[]
    requires s != t && IsOnOffer(w.db, s, request) && IsOnOffer(w.db, t, request)
    ensures IsRun(w, moves) && !OneLivePerUser(After(w, moves).db)
  {
    var w1 := Apply(w, Claim(0, Some(s)), 0);
    var w2 := Apply(w1, Claim(1, Some(t)), 0);
    assert w2.workers == map[0 := Claimed(request, s), 1 := Claimed(request, t)];
    moves := TwoInsertsTwoReservations(w2, request, s, t);
    moves := OneMove(w1, Move(Claim(1, Some(t)), 0), w2, moves);
    moves := OneMove(w, Move(Claim(0, Some(s)), 0), w1, moves);
  }

  lemma TwoInsertsTwoReservations(w: World, request: Request, s: Id, t: Id) returns (moves: seq<Move>)
    requires w.workers == map[0 := Claimed(request, s), 1 := Claimed(request, t)] && w.db.reservations == map[]
    ensures IsRun(w, moves) && !OneLivePerUser(After(w, moves).db)
  {
    var w1 := Apply(w, Insert(0, 0, 20), 0);
    var w2 := Apply(w1, Insert(1, 1, 20), 0);
    assert w2.db.reservations[0].userId == w2.db.reservations[1].userId == request.user;
    moves := OneMove(w1, Move(Insert(1, 1, 20), 0), w2, []);
    moves := OneMove(w, Move(Insert(0, 0, 20), 0), w1, moves);
  }

  lemma OneMove(w: World, move: Move, w': World, rest: seq<Move>) returns (moves: seq<Move>)
    requires Enabled(w, move.step) && w' == Apply(w, move.step, move.now) && IsRun(w', rest)
    ensures moves == [move] + rest && IsRun(w, moves) && After(w, moves) == After(w', rest)
  {
    moves := [move] + rest;
    assert moves[1..] == rest;
  }

  // ---- The sweep ------------------------------------------------------------------------

  /** After a sweep no reservation is overdue and a second sweep at that time finds nothing; exactly
      the overdue reservations expired, exactly their slots became free, no other row changed; and
      since slots are exclusive, no holder that remains lost its slot. */
  lemma SweepExactly(w: World, now: int)
    requires Inv(w)
    ensures var ids := Overdue(w.db, now);
      var w' := Apply(w, Sweep, now);
      && Overdue(w'.db, now) == {} && Apply(w', Sweep, now) == w'
      && w'.db.reservations.Keys == w.db.reservations.Keys && w'.db.slots.Keys == w.db.slots.Keys
      && (forall r <- w.db.reservations :: r !in ids ==> w'.db.reservations[r] == w.db.reservations[r])
      && (forall r <- ids :: w'.db.reservations[r] == w.db.reservations[r].(status := Expired)
            && w'.db.slots[w.db.reservations[r].slotId].status == Disponible)
      && (forall s <- w.db.slots ::
            w'.db.slots[s] == w.db.slots[s] || exists r <- ids :: w.db.reservations[r].slotId == s)
      && |SlotsOf(w.db, ids)| == |ids|
      && (forall h, s :: Holds(w', h, s) ==> Holds(w, h, s) && w'.db.slots[s] == w.db.slots[s])
      && w'.db.sessions == w.db.sessions && w'.workers == w.workers
  {
    SweepTwice(w, now);
    SweepRows(w, now);
    SweptSlotsHaveNoHolder(w, now);
    OverdueSlotsAreDistinct(w, now);
  }

  lemma SweepTwice(w: World, now: int)
    ensures var w' := Apply(w, Sweep, now); Overdue(w'.db, now) == {} && Apply(w', Sweep, now) == w'
  {
    var db' := Apply(w, Sweep, now).db;
    assert Overdue(db', now) == {};
    assert SlotsOf(db', {}) == {};
    assert AfterExpiring(db', {}, now) == db';
  }

  lemma SweepRows(w: World, now: int)
    requires Schema(w.db)
    ensures var ids := Overdue(w.db, now);
      var w' := Apply(w, Sweep, now);
      && w'.db.reservations.Keys == w.db.reservations.Keys && w'.db.slots.Keys == w.db.slots.Keys
      && (forall r <- w.db.reservations :: r !in ids ==> w'.db.reservations[r] == w.db.reservations[r])
      && (forall r <- ids :: w'.db.reservations[r] == w.db.reservations[r].(status := Expired)
            && w'.db.slots[w.db.reservations[r].slotId].status == Disponible)
      && (forall s <- w.db.slots :: s !in SlotsOf(w.db, ids) ==> w'.db.slots[s] == w.db.slots[s])
  {}

  lemma OverdueSlotsAreDistinct(w: World, now: int)
    requires Inv(w)
    ensures |SlotsOf(w.db, Overdue(w.db, now))| == |Overdue(w.db, now)|
  {
    var ids := Overdue(w.db, now);
    forall a, b | a in ids && b in ids && w.db.reservations[a].slotId == w.db.reservations[b].slotId
      ensures a == b
    {
      assert Holds(w, OfReservation(a), w.db.reservations[a].slotId);
      assert Holds(w, OfReservation(b), w.db.reservations[b].slotId);
    }
    DistinctSlotsCount(w.db, ids);
  }

  lemma {:induction false} DistinctSlotsCount(db: Db, ids: set<Id>)
    requires ids <= db.reservations.Keys
    requires forall a, b | a in ids && b in ids :: db.reservations[a].slotId == db.reservations[b].slotId ==> a == b
    ensures |SlotsOf(db, ids)| == |ids|
  {
    if ids == {} {
      assert SlotsOf(db, ids) == {};
    } else {
      var r :| r in ids;
      var rest := ids - {r};
      DistinctSlotsCount(db, rest);
      var slot := db.reservations[r].slotId;
      assert slot !in SlotsOf(db, rest);
      assert SlotsOf(db, ids) == SlotsOf(db, rest) + {slot};
    }
  }
}
