/** Entry, exit, cancellation, expiry and creation, on the tables.

    Each operation is proved to do to the tables what the functions of `Parking.dfy` say, with the
    error the guards give; the steps of `Lifecycle.dfy` are made of those functions. */
module ParkingPolicy {
  import opened Options
  import opened Pricing
  import opened Parking
  import opened ParkingTables

  /** Why a user may not make a reservation. */
  datatype Refusal = ActiveReservationExists | ActiveSessionExists

  class ParkingSystem {
    const slots: SlotTable
    const reservations: ReservationTable
    const sessions: SessionTable
    const toleranceMinutes: int

    constructor (slots: SlotTable, toleranceMinutes: int)
      ensures this.slots == slots && this.toleranceMinutes == toleranceMinutes
      ensures View() == Db(slots.rows, map[], map[]) && Schema(View())
    {
      this.slots, this.toleranceMinutes := slots, toleranceMinutes;
      reservations := new ReservationTable();
      sessions := new SessionTable();
    }

    ghost function View(): Db
      reads slots, reservations, sessions
    {
      Db(slots.rows, reservations.rows, sessions.rows)
    }

    method RegisterEntry(id: Id, session: Id, now: int) returns (error: Option<Error>)
      requires Schema(View()) && session !in sessions.rows
      modifies slots, reservations, sessions
      ensures error == EntryError(old(View()), id, now)
      ensures View() == AfterEntry(old(View()), id, session, now)
      ensures Schema(View())
    {
      if id !in reservations.rows {
        return Some(NotFound);
      }
      var r := reservations.rows[id];
      if r.status == Expired || r.status == Cancelled || r.status == Completed {
        return Some(ReservationExpired);
      }
      if now < r.startAt {
        return Some(ReservationNotStarted);
      }
      var existing := sessions.FindByReservationId(id);
      if existing.Some? && sessions.rows[existing.value].status == Active {
        return Some(SessionAlreadyActive);
      }
      if r.status == Pending {
        reservations.UpdateStatus(id, Confirmed, Some(now));
      }
      var inserted := sessions.Create(session, Session(id, r.userId, r.slotId, Active, now, None));
      if !inserted {
        return Some(UniqueViolation);
      }
      var found := slots.UpdateStatus(r.slotId, Ocupada, now);
      return None;
    }

    /** The guards of the use case, then the policy, which repeats the first and the third. */
    method RegisterExit(id: Id, payment: Option<PaymentView>, pricePerHour: int, now: int)
      returns (error: Option<Error>)
      requires Schema(View())
      modifies slots, reservations, sessions
      ensures error == ExitError(old(View()), id, payment, pricePerHour, now)
      ensures View() == AfterExit(old(View()), id, payment, pricePerHour, now)
      ensures Schema(View())
    {
      if id !in sessions.rows || sessions.rows[id].status != Active {
        return Some(SessionNotActive);
      }
      var s := sessions.rows[id];
      if s.reservationId !in reservations.rows {
        return Some(NotFound);
      }
      if payment.None? || !payment.value.approved {
        return Some(PaymentNotApproved);
      }
      var missing := Price(pricePerHour, s.entryAt, now) - payment.value.amount;
      if missing > OVERSTAY_TOLERANCE {
        return Some(OverstayPaymentInsufficient(missing));
      }
      error := ReleaseSession(id, payment, now);
    }

    method ReleaseSession(id: Id, payment: Option<PaymentView>, now: int) returns (error: Option<Error>)
      requires Schema(View())
      modifies slots, reservations, sessions
      ensures error ==
        if id !in old(sessions.rows) || old(sessions.rows)[id].status != Active then Some(SessionNotActive)
        else if payment.None? || !payment.value.approved then Some(PaymentNotApproved) else None
      ensures error.Some? ==> View() == old(View())
      ensures error.None? ==> var s := old(sessions.rows)[id];
        View() == Db(WithSlotStatus(old(slots.rows), s.slotId, Disponible, now),
                     WithReservationStatus(old(reservations.rows), s.reservationId, Completed),
                     old(sessions.rows)[id := s.(status := Finished, exitAt := Some(now))])
      ensures Schema(View())
    {
      if id !in sessions.rows || sessions.rows[id].status != Active {
        return Some(SessionNotActive);
      }
      if payment.None? || !payment.value.approved {
        return Some(PaymentNotApproved);
      }
      var s := sessions.rows[id];
      sessions.MarkCompleted(id, now);
      ReleaseSlot(s.slotId, now);
      reservations.UpdateStatus(s.reservationId, Completed, None);
      return None;
    }

    method ReleaseSlot(slot: Id, now: int)
      modifies slots
      ensures slots.rows == WithSlotStatus(old(slots.rows), slot, Disponible, now)
    {
      var found := slots.UpdateStatus(slot, Disponible, now);
    }

    method CancelReservation(id: Id, user: Id, now: int) returns (error: Option<Error>)
      modifies slots, reservations
      ensures error == CancelError(old(View()), id, user)
      ensures View() == AfterCancel(old(View()), id, user, now)
    {
      if id !in reservations.rows || reservations.rows[id].userId != user {
        return Some(NotFound);
      }
      var r := reservations.rows[id];
      if r.status != Pending && r.status != Confirmed {
        return Some(ReservationExpired);
      }
      reservations.UpdateStatus(id, Cancelled, None);
      ReleaseSlot(r.slotId, now);
      return None;
    }

    /** The sweep of overdue reservations: the loop over the candidates the query found. */
    method ExpireOverdueReservations(now: int) returns (expiredCount: nat)
      modifies slots, reservations
      ensures View() == AfterExpiring(old(View()), Overdue(old(View()), now), now)
      ensures expiredCount == |Overdue(old(View()), now)|
    {
      var candidates := reservations.FindExpiredPending(now);
      var snapshot := reservations.rows;
      expiredCount := 0;
      ghost var db := View();
      ghost var done: set<Id> := {};
      NothingExpires(db, now);
      for k := 0 to |candidates|
        invariant expiredCount == k == |done|
        invariant done == set i | 0 <= i < k :: candidates[i]
        invariant View() == AfterExpiring(db, done, now)
      {
        var id := candidates[k];
        assert id !in done;
        if !IsOverdue(snapshot[id], now) {
          continue;
        }
        ExpireOneMore(db, done, id, now);
        reservations.UpdateStatus(id, Expired, None);
        ReleaseSlot(snapshot[id].slotId, now);
        expiredCount := expiredCount + 1;
        done := done + {id};
      }
      assert done == Overdue(db, now);
    }

    /** The eligibility check of a new reservation; a reservation is the reason named first. */
    method CanCreateReservation(user: Id) returns (refusal: Option<Refusal>)
      ensures refusal.None? <==> MayCreate(View(), user)
      ensures refusal == Some(ActiveReservationExists) <==>
        exists r <- reservations.rows :: reservations.rows[r].userId == user && IsLive(reservations.rows[r])
    {
      var activeReservation := reservations.FindActiveByUser(user);
      if activeReservation.Some? {
        return Some(ActiveReservationExists);
      }
      var activeSession := sessions.FindActiveByUser(user);
      return if activeSession.Some? then Some(ActiveSessionExists) else None;
    }

    /** The insert that ends a creation, for the slot claimed before. */
    method InsertReservation(
      id: Id, user: Id, branch: Id, slot: Id, wanted: Option<SlotType>, startAt: Option<int>, now: int)
      requires Schema(View()) && id !in reservations.rows && slot in slots.rows
      modifies reservations
      ensures Schema(View())
      ensures var start := if startAt.Some? then startAt.value else now;
        var slotType := if wanted.Some? then wanted.value else slots.rows[slot].slotType;
        View() == old(View()).(reservations := old(reservations.rows)[id :=
          Reservation(user, branch, slot, slotType, Pending, start, ExpiresAt(start, toleranceMinutes), None)])
    {
      var start := if startAt.Some? then startAt.value else now;
      var slotType := if wanted.Some? then wanted.value else slots.rows[slot].slotType;
      reservations.Create(id,
        Reservation(user, branch, slot, slotType, Pending, start, ExpiresAt(start, toleranceMinutes), None));
    }

    method ReportSlotBlocked(slot: Id, now: int) returns (error: Option<Error>)
      modifies slots
      ensures error == if slot in old(slots.rows) then None else Some(NotFound)
      ensures View() == old(View()).(slots := WithSlotStatus(old(slots.rows), slot, NoDisponible, now))
    {
      if slot !in slots.rows {
        return Some(NotFound);
      }
      var found := slots.UpdateStatus(slot, NoDisponible, now);
      return None;
    }
  }

  lemma NothingExpires(db: Db, now: int)
    ensures AfterExpiring(db, {}, now) == db
  {
    assert SlotsOf(db, {}) == {};
  }

  /** One turn of the sweep. */
  lemma ExpireOneMore(db: Db, done: set<Id>, id: Id, now: int)
    requires id in db.reservations && id !in done
    ensures var before := AfterExpiring(db, done, now);
      AfterExpiring(db, done + {id}, now) ==
        before.(reservations := WithReservationStatus(before.reservations, id, Expired),
                slots := WithSlotStatus(before.slots, db.reservations[id].slotId, Disponible, now))
  {
    var before := AfterExpiring(db, done, now);
    var after := AfterExpiring(db, done + {id}, now);
    assert SlotsOf(db, done + {id}) == SlotsOf(db, done) + {db.reservations[id].slotId};
    assert after.slots == WithSlotStatus(before.slots, db.reservations[id].slotId, Disponible, now);
    assert after.reservations == WithReservationStatus(before.reservations, id, Expired);
  }
}
