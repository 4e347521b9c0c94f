/** The slot table over time: what ordering claims by the time of the last update is worth. */
module SlotHistory {
  import opened Options
  import opened Parking

  type Slots = map<Id, Slot>

  /** Everything that writes slot rows. */
  datatype Write =
    | ClaimByCode(branch: Id, wanted: Option<SlotType>, locked: set<Id>, slot: Id)
    | ClaimLeastRecentlyUsed(branch: Id, wanted: Option<SlotType>, locked: set<Id>, slot: Id)
    | SetStatus(slot: Id, status: SlotStatus)
    | MarkAllOccupied(branch: Id)

  datatype Event = Event(write: Write, at: int)

  predicate IsClaim(write: Write) {
    write.ClaimByCode? || write.ClaimLeastRecentlyUsed?
  }

  /** What the statement guarantees about the row it picked. */
  predicate Allowed(slots: Slots, write: Write) {
    && (IsClaim(write) ==> IsTakeable(slots, write.slot, write.branch, write.wanted, write.locked))
    && (write.ClaimLeastRecentlyUsed? ==>
          forall s <- slots :: IsTakeable(slots, s, write.branch, write.wanted, write.locked) ==>
            slots[write.slot].updatedAt <= slots[s].updatedAt)
  }

  function After(slots: Slots, event: Event): Slots {
    match event.write
    case ClaimByCode(_, _, _, slot) => WithSlotStatus(slots, slot, Reservada, event.at)
    case ClaimLeastRecentlyUsed(_, _, _, slot) => WithSlotStatus(slots, slot, Reservada, event.at)
    case SetStatus(slot, status) => WithSlotStatus(slots, slot, status, event.at)
    case MarkAllOccupied(branch) => WithAllOccupied(slots, branch, event.at)
  }

  /** A history of the table: `states[n]` is the table before event `n`. */
  ghost predicate IsHistory(states: seq<Slots>, events: seq<Event>) {
    && |states| == |events| + 1
    && (forall n | 0 <= n < |events| ::
          Allowed(states[n], events[n].write) && states[n + 1] == After(states[n], events[n]))
    && TimesIncrease(states[0], events)
  }

  /** The time of a write is later than every earlier one and than every time in the initial table. */
  ghost predicate TimesIncrease(slots: Slots, events: seq<Event>) {
    && (forall m, n | 0 <= m < n < |events| :: events[m].at < events[n].at)
    && (forall n, s | 0 <= n < |events| && s in slots :: slots[s].updatedAt < events[n].at)
  }

  lemma OneWrite(slots: Slots, event: Event, s: Id)
    requires s in slots
    ensures s in After(slots, event)
    ensures After(slots, event)[s].updatedAt in {slots[s].updatedAt, event.at}
    ensures IsClaim(event.write) && event.write.slot == s ==> After(slots, event)[s].updatedAt == event.at
  {}

  /** Rows stay, and no time in the table reaches that of an event to come. */
  lemma {:induction false} TimesBelow(states: seq<Slots>, events: seq<Event>, n: nat, s: Id)
    requires IsHistory(states, events) && n < |states| && s in states[0]
    ensures s in states[n]
    ensures n < |events| ==> states[n][s].updatedAt < events[n].at
    decreases n
  {
    if n > 0 {
      TimesBelow(states, events, n - 1, s);
      OneWrite(states[n - 1], events[n - 1], s);
    }
  }

  /** The time of a row only grows. */
  lemma {:induction false} TimesGrow(states: seq<Slots>, events: seq<Event>, m: nat, n: nat, s: Id)
    requires IsHistory(states, events) && m <= n < |states| && s in states[0]
    ensures s in states[m] && s in states[n]
    ensures states[m][s].updatedAt <= states[n][s].updatedAt
    decreases n - m
  {
    TimesBelow(states, events, m, s);
    if m < n {
      TimesGrow(states, events, m, n - 1, s);
      TimesBelow(states, events, n - 1, s);
      OneWrite(states[n - 1], events[n - 1], s);
    }
  }

  /** No bypass: if a slot is claimed at `i` and claimed again as least recently used at `j`, then no
      slot whose row was not written from `i` to `j` could be taken at `j`: a slot that stays free and
      unlocked is not passed over twice. */
  lemma NoBypass(states: seq<Slots>, events: seq<Event>, i: nat, j: nat, other: Id)
    requires IsHistory(states, events) && i < j < |events|
    requires IsClaim(events[i].write) && events[j].write.ClaimLeastRecentlyUsed?
    requires events[i].write.slot == events[j].write.slot
    requires events[i].write.slot in states[0] && other in states[0]
    requires other in states[i] && other in states[j] && states[i][other] == states[j][other]
    ensures var claim := events[j].write; !IsTakeable(states[j], other, claim.branch, claim.wanted, claim.locked)
  {
    var claimed := events[i].write.slot;
    TimesBelow(states, events, i, other);
    TimesBelow(states, events, i, claimed);
    OneWrite(states[i], events[i], claimed);
    TimesGrow(states, events, i + 1, j, claimed);
  }
}
