/** Creating a reservation without interruption: the check, the claim and the insert in a row. */
module ReservationCreation {
  import opened Options
  import opened Parking
  import opened ParkingPolicy
  import opened SlotAssignment
  import opened Lifecycle

  /** Where the infrastructure fails, if it does: before a slot is claimed, or after. */
  datatype Failure = NoFailure | BeforeTheClaim | BeforeTheInsert

  /** A failure may leave a slot claimed for nobody. */
  datatype Result =
    | Created(slot: Id)
    | OtherBranch(branch: Id, distanceKm: real)
    | AlreadyActive
    | NoRoom
    | Failed(stranded: Option<Id>)

  class CreateReservation {
    const system: ParkingSystem
    const policies: Policies
    const balanced: bool

    constructor (system: ParkingSystem, policies: Policies, balanced: bool)
      requires policies.slots == system.slots
      ensures this.system == system && this.policies == policies && this.balanced == balanced
    {
      this.system, this.policies, this.balanced := system, policies, balanced;
    }

    ghost function View(): Db
      reads system.slots, system.reservations, system.sessions
    {
      system.View()
    }

    /** The suggestion of the policy in force. */
    ghost function Suggested(request: Request): Assignment
      reads policies.slots
    {
      var chain, rows := policies.chain, policies.slots.rows;
      var key := if balanced then Score(chain, rows, request.branch) else Distance(chain, request.branch);
      Suggestion(chain, rows, request.branch, request.wanted, key)
    }

    /** What happens is exactly one pass of a worker through the steps of `Lifecycle.dfy`, up to the
        failure if there is one; nothing changes when the user is refused or nothing can be taken. */
    method Execute(id: Id, request: Request, locked: set<Id>, failure: Failure, claimedAt: int, now: int)
      returns (result: Result)
      requires policies.slots == system.slots && Schema(View()) && id !in system.reservations.rows
      modifies system.slots, system.reservations
      ensures result == Failed(None) <==> failure.BeforeTheClaim?
      ensures !failure.BeforeTheClaim? ==>
        && (result.AlreadyActive? <==> !MayCreate(old(View()), request.user))
        && (result.Created? || result.Failed? <==>
              && MayCreate(old(View()), request.user)
              && CanTake(old(View()).slots, request.branch, request.wanted, locked))
        && (result.Created? ==> failure.NoFailure?)
      ensures result.OtherBranch? ==> old(Suggested(request)) == SuggestOtherBranch(result.branch, result.distanceKm)
      ensures result.OtherBranch? ==>
        var slots := old(View()).slots;
        if balanced then IsBestBalanced(policies.chain, slots, request.branch, request.wanted, result.branch)
        else IsNearest(policies.chain, slots, request.branch, request.wanted, result.branch)
      ensures result.NoRoom? ==> old(Suggested(request)) == NoAvailability
      ensures result.Created? ==>
        && IsFirst(old(View()), result.slot, request, locked)
        && IsOnOffer(old(View()), result.slot, request)
        && View() == AfterPass(old(View()), id, request, result.slot, system.toleranceMinutes, claimedAt, now)
      ensures result.Failed? && result.stranded.Some? ==>
        && failure.BeforeTheInsert?
        && IsFirst(old(View()), result.stranded.value, request, locked)
        && View() == AfterClaim(old(View()), result.stranded.value, claimedAt)
      ensures !result.Created? && !(result.Failed? && result.stranded.Some?) ==> View() == old(View())
      ensures Schema(View())
    {
      if failure.BeforeTheClaim? {
        return Failed(None);
      }
      var refusal := system.CanCreateReservation(request.user);
      if refusal.Some? {
        return AlreadyActive;
      }
      var assignment: Assignment;
      if balanced {
        assignment := policies.AssignBalanced(request.branch, request.wanted, locked, claimedAt);
      } else {
        assignment := policies.AssignDefault(request.branch, request.wanted, locked, claimedAt);
      }
      match assignment {
        case NoAvailability => return NoRoom;
        case SuggestOtherBranch(branch, distanceKm) => return OtherBranch(branch, distanceKm);
        case Assigned(slot) =>
          if failure.BeforeTheInsert? {
            return Failed(Some(slot));
          }
          system.InsertReservation(id, request.user, request.branch, slot, request.wanted, request.startAt, now);
          PassOfOneWorker(old(View()), id, request, slot, system.toleranceMinutes, claimedAt, now);
          return Created(slot);
      }
    }

    /** The row the policy in force takes: the least recently used, or the first by code. */
    ghost predicate IsFirst(db: Db, slot: Id, request: Request, locked: set<Id>) {
      && IsTakeable(db.slots, slot, request.branch, request.wanted, locked)
      && forall s <- db.slots :: IsTakeable(db.slots, s, request.branch, request.wanted, locked) ==>
           if balanced then db.slots[slot].updatedAt <= db.slots[s].updatedAt
           else system.slots.codeOrder(db.slots[slot].code) <= system.slots.codeOrder(db.slots[s].code)
    }
  }

  ghost function AfterClaim(db: Db, slot: Id, claimedAt: int): Db {
    db.(slots := WithSlotStatus(db.slots, slot, Reservada, claimedAt))
  }

  predicate CanPass(db: Db, id: Id, request: Request, slot: Id) {
    IsOnOffer(db, slot, request) && id !in db.reservations
  }

  /** The tables after one worker, alone, checked, claimed a slot and inserted. */
  ghost function AfterPass(
    db: Db, id: Id, request: Request, slot: Id, toleranceMinutes: int, claimedAt: int, now: int): Db
    requires CanPass(db, id, request, slot) && MayCreate(db, request.user)
  {
    var checked := Apply(World(db, map[]), Check(0, request), claimedAt);
    var claimed := Apply(checked, Claim(0, Some(slot)), claimedAt);
    Apply(claimed, Insert(0, id, toleranceMinutes), now).db
  }

  lemma PassOfOneWorker(
    db: Db, id: Id, request: Request, slot: Id, toleranceMinutes: int, claimedAt: int, now: int)
    requires CanPass(db, id, request, slot) && MayCreate(db, request.user)
    ensures var start := if request.startAt.Some? then request.startAt.value else now;
      var slotType := if request.wanted.Some? then request.wanted.value else db.slots[slot].slotType;
      AfterPass(db, id, request, slot, toleranceMinutes, claimedAt, now) ==
        db.(slots := WithSlotStatus(db.slots, slot, Reservada, claimedAt),
            reservations := db.reservations[id := Reservation(
              request.user, request.branch, slot, slotType, Pending, start, ExpiresAt(start, toleranceMinutes), None)])
  {}
}
