/** The rows of the parking database and what the operations do to them.

    `Db` is a snapshot of the three tables.  Every function here gives the snapshot after an
    operation; the classes in `ParkingPolicy.dfy` do the same to tables in place. */
module Parking {
  import opened Options
  import opened Pricing

  type Id = nat

  datatype SlotStatus = Disponible | Reservada | Ocupada | NoDisponible
  datatype SlotType = Regular | Moto | Electrico | Discapacitados
  datatype Slot = Slot(branchId: Id, code: string, slotType: SlotType, status: SlotStatus, updatedAt: int)

  datatype ReservationStatus = Pending | Confirmed | Expired | Cancelled | Completed
  datatype Reservation = Reservation(
    userId: Id, branchId: Id, slotId: Id, requestedType: SlotType,
    status: ReservationStatus, startAt: int, expiresAt: int, confirmedAt: Option<int>)

  datatype SessionStatus = Active | Finished
  datatype Session = Session(
    reservationId: Id, userId: Id, slotId: Id, status: SessionStatus, entryAt: int, exitAt: Option<int>)

  datatype Db = Db(slots: map<Id, Slot>, reservations: map<Id, Reservation>, sessions: map<Id, Session>)

  /** A payment as the payments service reports it, in cents. */
  datatype PaymentView = PaymentView(approved: bool, amount: int)

  datatype Error =
    | NotFound
    | ReservationExpired
    | ReservationNotStarted
    | SessionAlreadyActive
    | UniqueViolation
    | SessionNotActive
    | PaymentNotApproved
    | OverstayPaymentInsufficient(missing: int)

  predicate IsLive(r: Reservation) {
    r.status == Pending || r.status == Confirmed
  }

  /** What the schema of the database guarantees: references resolve, and no two sessions share a
      reservation. */
  ghost predicate Schema(db: Db) {
    && (forall r <- db.reservations :: db.reservations[r].slotId in db.slots)
    && (forall s <- db.sessions :: db.sessions[s].slotId in db.slots && db.sessions[s].reservationId in db.reservations)
    && (forall s, t | s in db.sessions && t in db.sessions ::
          db.sessions[s].reservationId == db.sessions[t].reservationId ==> s == t)
  }

  // ---- Row updates ----------------------------------------------------------------------

  /** A status update; like every update of a row it moves `updatedAt`. */
  function WithSlotStatus(slots: map<Id, Slot>, slot: Id, status: SlotStatus, now: int): map<Id, Slot> {
    if slot in slots then slots[slot := slots[slot].(status := status, updatedAt := now)] else slots
  }

  function WithReservationStatus(rs: map<Id, Reservation>, id: Id, status: ReservationStatus): map<Id, Reservation> {
    if id in rs then rs[id := rs[id].(status := status)] else rs
  }

  predicate IsClaimable(slot: Slot, branch: Id, wanted: Option<SlotType>) {
    && slot.branchId == branch
    && slot.status == Disponible
    && (wanted.Some? ==> slot.slotType == wanted.value)
  }

  /** A row a claim can take: it matches, it is free, and no other statement has it locked. */
  predicate IsTakeable(slots: map<Id, Slot>, s: Id, branch: Id, wanted: Option<SlotType>, locked: set<Id>) {
    s in slots && s !in locked && IsClaimable(slots[s], branch, wanted)
  }

  predicate CanTake(slots: map<Id, Slot>, branch: Id, wanted: Option<SlotType>, locked: set<Id>) {
    exists s <- slots :: IsTakeable(slots, s, branch, wanted, locked)
  }

  predicate HasAvailability(slots: map<Id, Slot>, branch: Id, wanted: Option<SlotType>) {
    exists s <- slots :: IsClaimable(slots[s], branch, wanted)
  }

  function WithAllOccupied(slots: map<Id, Slot>, branch: Id, now: int): map<Id, Slot> {
    map s | s in slots ::
      if slots[s].branchId == branch && slots[s].status == Disponible
      then slots[s].(status := Ocupada, updatedAt := now) else slots[s]
  }

  // ---- Entry and exit -------------------------------------------------------------------

  ghost predicate HasSession(db: Db, reservation: Id, status: SessionStatus) {
    exists s <- db.sessions :: db.sessions[s].reservationId == reservation && db.sessions[s].status == status
  }

  ghost function EntryError(db: Db, id: Id, now: int): Option<Error> {
    if id !in db.reservations then Some(NotFound)
    else if !IsLive(db.reservations[id]) then Some(ReservationExpired)
    else if now < db.reservations[id].startAt then Some(ReservationNotStarted)
    else if HasSession(db, id, Active) then Some(SessionAlreadyActive)
    else if HasSession(db, id, Finished) then Some(UniqueViolation)
    else None
  }

  function Confirmation(r: Reservation, now: int): Reservation {
    if r.status == Pending then r.(status := Confirmed, confirmedAt := Some(now)) else r
  }

  /** A reservation is confirmed before its session is inserted, so an insert that meets an earlier
      session leaves the confirmation behind. */
  ghost function AfterEntry(db: Db, id: Id, session: Id, now: int): Db {
    var error := EntryError(db, id, now);
    if error.Some? && error.value != UniqueViolation then db
    else
      var r := db.reservations[id];
      var confirmed := db.(reservations := db.reservations[id := Confirmation(r, now)]);
      if error.Some? then confirmed
      else confirmed.(
        sessions := db.sessions[session := Session(id, r.userId, r.slotId, Active, now, None)],
        slots := WithSlotStatus(db.slots, r.slotId, Ocupada, now))
  }

  const OVERSTAY_TOLERANCE := 1

  function ExitError(db: Db, id: Id, payment: Option<PaymentView>, pricePerHour: int, now: int): Option<Error> {
    if id !in db.sessions || db.sessions[id].status != Active then Some(SessionNotActive)
    else if db.sessions[id].reservationId !in db.reservations then Some(NotFound)
    else PaymentError(payment, Price(pricePerHour, db.sessions[id].entryAt, now))
  }

  /** The guard on the payment: approved, and short of the price by no more than the tolerance. */
  function PaymentError(payment: Option<PaymentView>, price: int): Option<Error> {
    if payment.None? || !payment.value.approved then Some(PaymentNotApproved)
    else
      var missing := price - payment.value.amount;
      if missing > OVERSTAY_TOLERANCE then Some(OverstayPaymentInsufficient(missing)) else None
  }

  function AfterExit(db: Db, id: Id, payment: Option<PaymentView>, pricePerHour: int, now: int): Db {
    if ExitError(db, id, payment, pricePerHour, now).Some? then db
    else
      var s := db.sessions[id];
      Db(WithSlotStatus(db.slots, s.slotId, Disponible, now),
         WithReservationStatus(db.reservations, s.reservationId, Completed),
         db.sessions[id := s.(status := Finished, exitAt := Some(now))])
  }

  // ---- Cancel and expiry ----------------------------------------------------------------

  function CancelError(db: Db, id: Id, user: Id): Option<Error> {
    if id !in db.reservations || db.reservations[id].userId != user then Some(NotFound)
    else if !IsLive(db.reservations[id]) then Some(ReservationExpired)
    else None
  }

  function AfterCancel(db: Db, id: Id, user: Id, now: int): Db {
    if CancelError(db, id, user).Some? then db
    else db.(
      reservations := WithReservationStatus(db.reservations, id, Cancelled),
      slots := WithSlotStatus(db.slots, db.reservations[id].slotId, Disponible, now))
  }

  predicate IsOverdue(r: Reservation, now: int) {
    r.status == Pending && now > r.expiresAt
  }

  function Overdue(db: Db, now: int): set<Id> {
    set r <- db.reservations | IsOverdue(db.reservations[r], now)
  }

  /** The slots the given reservations name. */
  function SlotsOf(db: Db, ids: set<Id>): set<Id> {
    set r <- ids | r in db.reservations :: db.reservations[r].slotId
  }

  /** The given reservations expired and their slots free. */
  function AfterExpiring(db: Db, ids: set<Id>, now: int): Db {
    db.(
      reservations := map r <- db.reservations ::
        if r in ids then db.reservations[r].(status := Expired) else db.reservations[r],
      slots := map s <- db.slots ::
        if s in SlotsOf(db, ids) then db.slots[s].(status := Disponible, updatedAt := now) else db.slots[s])
  }

  // ---- Creating a reservation -----------------------------------------------------------

  ghost predicate MayCreate(db: Db, user: Id) {
    && (forall r <- db.reservations :: db.reservations[r].userId == user ==> !IsLive(db.reservations[r]))
    && (forall s <- db.sessions :: db.sessions[s].userId == user ==> db.sessions[s].status != Active)
  }

  const MS_PER_MINUTE := 60_000

  function ExpiresAt(startAt: int, toleranceMinutes: int): int {
    startAt + toleranceMinutes * MS_PER_MINUTE
  }
}
