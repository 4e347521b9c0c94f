/** The consumer of the queue together with the creation it calls: one message, uninterrupted. */
module ReservationConsumer {
  import opened Options
  import opened Parking
  import opened Lifecycle
  import opened MessageBroker
  import opened ReservationQueue
  import opened SlotAssignment
  import ReservationCreation

  /** What the user is told. */
  datatype Resolution =
    | ResolvedCreated(requestId: string, reservation: Id)
    | ResolvedOtherBranch(requestId: string, branch: Id, distanceKm: real)
    | ResolvedRejected(requestId: string, code: string)

  /** The circumstances of one creation: the number of the new row, the rows other statements have
      locked, where the infrastructure fails, and two readings of the clock. */
  datatype Circumstances = Circumstances(
    id: Id, locked: set<Id>, failure: ReservationCreation.Failure, claimedAt: int, now: int)

  class Consumer {
    const channel: Channel<Message>
    const creation: ReservationCreation.CreateReservation
    var resolved: seq<Resolution>

    constructor (channel: Channel<Message>, creation: ReservationCreation.CreateReservation)
      ensures this.channel == channel && this.creation == creation && resolved == []
    {
      this.channel, this.creation, resolved := channel, creation, [];
    }

    ghost predicate Ready(id: Id)
      reads creation.system.slots, creation.system.reservations, creation.system.sessions
    {
      && creation.policies.slots == creation.system.slots && Schema(creation.View())
      && id !in creation.system.reservations.rows
    }

    /** The infrastructure fails a request: before its claim, or after it and before the insert. */
    ghost predicate Fails(request: Request, c: Circumstances)
      reads creation.system.slots, creation.system.reservations, creation.system.sessions
    {
      || c.failure.BeforeTheClaim?
      || (c.failure.BeforeTheInsert? && MayCreate(creation.View(), request.user)
          && CanTake(creation.View().slots, request.branch, request.wanted, c.locked))
    }

    /** The right answer to a request that is not failed: a reservation exactly when the user may have one
        and a slot can be taken, a refusal exactly when the user may not, else what the policy suggests. */
    ghost predicate Answers(outcome: Outcome, request: Request, c: Circumstances)
      reads creation.system.slots, creation.system.reservations, creation.system.sessions, creation.policies.slots
    {
      && (outcome.OtherBranch? ==>
            creation.Suggested(request) == SuggestOtherBranch(outcome.branch, outcome.distanceKm))
      && (outcome == DomainFailure("NO_AVAILABILITY") ==> creation.Suggested(request) == NoAvailability)
      &&
      var may := MayCreate(creation.View(), request.user);
      && (outcome == DomainFailure("RESERVATION_ALREADY_ACTIVE") <==> !may)
      && (outcome.DomainFailure? ==> outcome.code in {"RESERVATION_ALREADY_ACTIVE", "NO_AVAILABILITY"})
      && (outcome.Created? <==> may && CanTake(creation.View().slots, request.branch, request.wanted, c.locked))
    }

    /** One message, from its delivery to its settlement.  It is acknowledged, and the user told,
        exactly when it can be read and the infrastructure does not fail it.  A user who is told of a
        reservation is told of the one row that was inserted, for the request of the message; a user
        who is told anything else, or nothing, has no new row. */
    method Handle(m: Message, c: Circumstances) returns (answer: Option<Outcome>)
      requires m in channel.bags.unacked && Ready(c.id)
      modifies channel, this, creation.system.slots, creation.system.reservations
      ensures channel.bags == Settled(old(channel.bags), m, answer.Some?)
      ensures var bags, was := channel.bags, old(channel.bags);
        && bags.unacked == was.unacked - multiset{m} && bags.ready == was.ready
        && bags.acked == (if answer.Some? then was.acked + multiset{m} else was.acked)
        && bags.dead == (if answer.Some? then was.dead else was.dead + multiset{m})
      ensures answer.Some? <==>
        Parse(m.content).Some? && !old(Fails(Parse(m.content).value, c))
      ensures m.content.NotJson? || "" in {m.content.requestId, m.content.userId, m.content.branchId} ==> answer.None?
      ensures answer.Some? ==>
        && IsAcknowledged(m.content, answer.value)
        && resolved == old(resolved) + [
             match answer.value
             case Created(r) => ResolvedCreated(m.content.requestId, r)
             case OtherBranch(b, d) => ResolvedOtherBranch(m.content.requestId, b, d)
             case DomainFailure(code) => ResolvedRejected(m.content.requestId, code)]
        && old(Answers(answer.value, Parse(m.content).value, c))
      ensures answer.None? ==> resolved == old(resolved)
      ensures var rows, was := creation.system.reservations.rows, old(creation.system.reservations.rows);
        if answer.Some? && answer.value.Created?
        then
          && answer.value.reservation == c.id && rows.Keys == was.Keys + {c.id}
          && IsFor(rows[c.id], Parse(m.content).value)
          && forall r <- was :: rows[r] == was[r]
        else rows == was
    {
      var payload := Parse(m.content);
      if payload.None? {
        channel.Nack(m);
        return None;
      }
      answer := Process(m.content.requestId, payload.value, c);
      if answer.None? {
        channel.Nack(m);
      } else {
        channel.Ack(m);
      }
    }

    /** `ProcessReservationRequestUseCase.execute`: nothing is told, and the error thrown on, exactly
        when the infrastructure failed. */
    method Process(requestId: string, request: Request, c: Circumstances) returns (answer: Option<Outcome>)
      requires Ready(c.id)
      modifies this, creation.system.slots, creation.system.reservations
      ensures answer.Some? <==> !old(Fails(request, c))
      ensures answer.Some? ==> !answer.value.InfrastructureFailure? && old(Answers(answer.value, request, c))
      ensures answer.None? ==> resolved == old(resolved)
      ensures answer.Some? ==> resolved == old(resolved) + [
        match answer.value
        case Created(r) => ResolvedCreated(requestId, r)
        case OtherBranch(b, d) => ResolvedOtherBranch(requestId, b, d)
        case DomainFailure(code) => ResolvedRejected(requestId, code)]
      ensures var rows, was := creation.system.reservations.rows, old(creation.system.reservations.rows);
        if answer.Some? && answer.value.Created?
        then
          && answer.value.reservation == c.id && rows.Keys == was.Keys + {c.id} && IsFor(rows[c.id], request)
          && forall r <- was :: rows[r] == was[r]
        else rows == was
    {
      var result := creation.Execute(c.id, request, c.locked, c.failure, c.claimedAt, c.now);
      var resolution: Resolution;
      match result {
        case Created(slot) =>
          ReservationCreation.PassOfOneWorker(
            old(creation.View()), c.id, request, slot, creation.system.toleranceMinutes, c.claimedAt, c.now);
          answer, resolution := Some(Created(c.id)), ResolvedCreated(requestId, c.id);
        case OtherBranch(b, d) => answer, resolution := Some(OtherBranch(b, d)), ResolvedOtherBranch(requestId, b, d);
        case AlreadyActive => answer, resolution := Reject(requestId, "RESERVATION_ALREADY_ACTIVE");
        case NoRoom => answer, resolution := Reject(requestId, "NO_AVAILABILITY");
        case Failed(_) => return None;
      }
      resolved := resolved + [resolution];
    }

    /** A `DomainError` is an answer. */
    method Reject(requestId: string, code: string) returns (answer: Option<Outcome>, resolution: Resolution)
      ensures answer == Some(DomainFailure(code)) && resolution == ResolvedRejected(requestId, code)
    {
      answer, resolution := Some(DomainFailure(code)), ResolvedRejected(requestId, code);
    }
  }
}
