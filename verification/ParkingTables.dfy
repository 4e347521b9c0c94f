/** The tables of the parking database as their repositories change them. */
module ParkingTables {
  import opened Options
  import opened Parking

  class SlotTable {
    var rows: map<Id, Slot>
    /** The collation of the database, as a rank. */
    const codeOrder: string -> int

    constructor (rows: map<Id, Slot>, codeOrder: string -> int)
      ensures this.rows == rows && this.codeOrder == codeOrder
    {
      this.rows, this.codeOrder := rows, codeOrder;
    }

    /** The atomic claims: the row that comes first in an order, among those that match, are free and are
        not locked by another statement, becomes reserved; no other row changes. */
    method ClaimFirst(branch: Id, wanted: Option<SlotType>, rank: Slot -> int, locked: set<Id>, now: int)
      returns (claimed: Option<Id>)
      modifies this
      ensures claimed.Some? ==> claimed.value in old(rows) && claimed.value !in locked
      ensures claimed.None? ==> forall s <- old(rows) ::
        || s in locked || old(rows)[s].branchId != branch || old(rows)[s].status != Disponible
        || (wanted.Some? && old(rows)[s].slotType != wanted.value)
      ensures claimed.None? <==> !CanTake(old(rows), branch, wanted, locked)
      ensures claimed.None? ==> rows == old(rows)
      ensures claimed.Some? ==>
        && IsTakeable(old(rows), claimed.value, branch, wanted, locked)
        && rows == WithSlotStatus(old(rows), claimed.value, Reservada, now)
        && forall s <- old(rows) :: IsTakeable(old(rows), s, branch, wanted, locked) ==>
             rank(old(rows)[claimed.value]) <= rank(old(rows)[s])
    {
      claimed := None;
      var left := rows.Keys;
      while left != {}
        invariant left <= rows.Keys && rows == old(rows)
        invariant claimed.None? ==> forall s <- rows :: IsTakeable(rows, s, branch, wanted, locked) ==> s in left
        invariant claimed.Some? ==> IsTakeable(rows, claimed.value, branch, wanted, locked)
        invariant claimed.Some? ==> forall s <- rows ::
          IsTakeable(rows, s, branch, wanted, locked) && s !in left ==> rank(rows[claimed.value]) <= rank(rows[s])
        decreases left
      {
        var s :| s in left;
        left := left - {s};
        var better := claimed.None? || rank(rows[s]) < rank(rows[claimed.value]);
        if IsTakeable(rows, s, branch, wanted, locked) && better {
          claimed := Some(s);
        }
      }
      if claimed.Some? {
        rows := WithSlotStatus(rows, claimed.value, Reservada, now);
      }
    }

    /** The first free slot by code. */
    method ClaimAvailableSlot(branch: Id, wanted: Option<SlotType>, locked: set<Id>, now: int)
      returns (claimed: Option<Id>)
      modifies this
      ensures claimed.None? <==> !CanTake(old(rows), branch, wanted, locked)
      ensures claimed.None? ==> rows == old(rows)
      ensures claimed.Some? ==>
        && IsTakeable(old(rows), claimed.value, branch, wanted, locked)
        && rows == WithSlotStatus(old(rows), claimed.value, Reservada, now)
        && forall s <- old(rows) :: IsTakeable(old(rows), s, branch, wanted, locked) ==>
             codeOrder(old(rows)[claimed.value].code) <= codeOrder(old(rows)[s].code)
    {
      var order := codeOrder;
      claimed := ClaimFirst(branch, wanted, (s: Slot) => order(s.code), locked, now);
    }

    /** The free slot whose row was touched longest ago. */
    method ClaimLeastRecentlyUsedSlot(branch: Id, wanted: Option<SlotType>, locked: set<Id>, now: int)
      returns (claimed: Option<Id>)
      modifies this
      ensures claimed.None? <==> !CanTake(old(rows), branch, wanted, locked)
      ensures claimed.None? ==> rows == old(rows)
      ensures claimed.Some? ==>
        && IsTakeable(old(rows), claimed.value, branch, wanted, locked)
        && rows == WithSlotStatus(old(rows), claimed.value, Reservada, now)
        && forall s <- old(rows) :: IsTakeable(old(rows), s, branch, wanted, locked) ==>
             old(rows)[claimed.value].updatedAt <= old(rows)[s].updatedAt
    {
      claimed := ClaimFirst(branch, wanted, (s: Slot) => s.updatedAt, locked, now);
    }

    /** An update of an unknown row raises an error and changes nothing. */
    method UpdateStatus(slot: Id, status: SlotStatus, now: int) returns (found: bool)
      modifies this
      ensures found <==> slot in old(rows)
      ensures rows == WithSlotStatus(old(rows), slot, status, now)
    {
      found := slot in rows;
      if found {
        rows := rows[slot := rows[slot].(status := status, updatedAt := now)];
      }
    }

    method MarkAllOccupied(branch: Id, now: int)
      modifies this
      ensures rows == WithAllOccupied(old(rows), branch, now)
    {
      var left := rows.Keys;
      while left != {}
        invariant left <= rows.Keys == old(rows).Keys
        invariant forall s <- rows ::
          rows[s] == if s in left then old(rows)[s] else WithAllOccupied(old(rows), branch, now)[s]
        decreases left
      {
        var s :| s in left;
        left := left - {s};
        if rows[s].branchId == branch && rows[s].status == Disponible {
          rows := rows[s := rows[s].(status := Ocupada, updatedAt := now)];
        }
      }
    }
  }

  class ReservationTable {
    var rows: map<Id, Reservation>

    constructor ()
      ensures rows == map[]
    {
      rows := map[];
    }

    method UpdateStatus(id: Id, status: ReservationStatus, confirmedAt: Option<int>)
      requires id in rows
      modifies this
      ensures var r := old(rows)[id].(status := status);
        rows == old(rows)[id := if confirmedAt.Some? then r.(confirmedAt := confirmedAt) else r]
    {
      var r := rows[id].(status := status);
      rows := rows[id := if confirmedAt.Some? then r.(confirmedAt := confirmedAt) else r];
    }

    method Create(id: Id, r: Reservation)
      requires id !in rows
      modifies this
      ensures rows == old(rows)[id := r]
    {
      rows := rows[id := r];
    }

    method FindActiveByUser(user: Id) returns (found: Option<Id>)
      ensures found.None? <==> forall r <- rows :: rows[r].userId == user ==> !IsLive(rows[r])
    {
      if r :| r in rows && rows[r].userId == user && IsLive(rows[r]) {
        found := Some(r);
      } else {
        found := None;
      }
    }

    /** The pending reservations that expired before a time, in any order. */
    method FindExpiredPending(now: int) returns (ids: seq<Id>)
      ensures forall r :: r in ids <==> r in rows && IsOverdue(rows[r], now)
      ensures forall i, j | 0 <= i < j < |ids| :: ids[i] != ids[j]
    {
      ids := [];
      var left := rows.Keys;
      while left != {}
        invariant left <= rows.Keys
        invariant forall r :: r in ids <==> r in rows && r !in left && IsOverdue(rows[r], now)
        invariant forall i, j | 0 <= i < j < |ids| :: ids[i] != ids[j]
        decreases left
      {
        var r :| r in left;
        left := left - {r};
        if IsOverdue(rows[r], now) {
          ids := ids + [r];
        }
      }
    }
  }

  class SessionTable {
    var rows: map<Id, Session>

    constructor ()
      ensures rows == map[]
    {
      rows := map[];
    }

    method FindByReservationId(reservation: Id) returns (found: Option<Id>)
      ensures found.Some? ==> found.value in rows && rows[found.value].reservationId == reservation
      ensures found.None? ==> forall s <- rows :: rows[s].reservationId != reservation
    {
      if s :| s in rows && rows[s].reservationId == reservation {
        found := Some(s);
      } else {
        found := None;
      }
    }

    method FindActiveByUser(user: Id) returns (found: Option<Id>)
      ensures found.None? <==> forall s <- rows :: rows[s].userId == user ==> rows[s].status != Active
    {
      if s :| s in rows && rows[s].userId == user && rows[s].status == Active {
        found := Some(s);
      } else {
        found := None;
      }
    }

    /** The insert fails on a reservation that has a session already: the column is unique. */
    method Create(id: Id, s: Session) returns (inserted: bool)
      requires id !in rows
      modifies this
      ensures inserted <==> forall t <- old(rows) :: old(rows)[t].reservationId != s.reservationId
      ensures rows == if inserted then old(rows)[id := s] else old(rows)
    {
      var earlier := FindByReservationId(s.reservationId);
      inserted := earlier.None?;
      if inserted {
        rows := rows[id := s];
      }
    }

    method MarkCompleted(id: Id, exitAt: int)
      requires id in rows
      modifies this
      ensures rows == old(rows)[id := old(rows)[id].(status := Finished, exitAt := Some(exitAt))]
    {
      rows := rows[id := rows[id].(status := Finished, exitAt := Some(exitAt))];
    }
  }
}
