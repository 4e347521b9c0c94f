/** The two policies that assign a slot or suggest another branch. */
module SlotAssignment {
  import opened Options
  import opened Parking
  import opened ParkingTables
  import opened Ranking

  datatype Assignment =
    | Assigned(slot: Id)
    | SuggestOtherBranch(branch: Id, distanceKm: real)
    | NoAvailability

  const OCCUPANCY_PENALTY_KM := 5.0

  // ---- Occupancy ------------------------------------------------------------------------

  function SlotsOfBranch(slots: map<Id, Slot>, branch: Id): set<Id> {
    set s <- slots | slots[s].branchId == branch
  }

  function TakenSlots(slots: map<Id, Slot>, branch: Id): set<Id> {
    set s <- slots | slots[s].branchId == branch && (slots[s].status == Ocupada || slots[s].status == Reservada)
  }

  datatype Summary = Summary(totalSlots: nat, occupiedOrReserved: nat)

  /** The grouped counts; a branch without slots has no group. */
  function OccupancySummary(slots: map<Id, Slot>, branches: seq<Id>): map<Id, Summary> {
    map b <- branches | SlotsOfBranch(slots, b) != {} :: Summary(|SlotsOfBranch(slots, b)|, |TakenSlots(slots, b)|)
  }

  function RatioIn(summaries: map<Id, Summary>, branch: Id): real {
    if branch in summaries && summaries[branch].totalSlots > 0
    then summaries[branch].occupiedOrReserved as real / summaries[branch].totalSlots as real
    else 0.0
  }

  /** The share of a branch's slots that are occupied or reserved. */
  function OccupancyRatio(slots: map<Id, Slot>, branch: Id): real {
    if SlotsOfBranch(slots, branch) == {} then 0.0
    else |TakenSlots(slots, branch)| as real / |SlotsOfBranch(slots, branch)| as real
  }

  lemma RatioOfSummary(slots: map<Id, Slot>, branches: seq<Id>, branch: Id)
    requires branch in branches
    ensures RatioIn(OccupancySummary(slots, branches), branch) == OccupancyRatio(slots, branch)
  {}

  // ---- What a policy suggests -----------------------------------------------------------

  /** The branches of the chain, in the order of their names, and the distance between two. */
  datatype Chain = Chain(branches: seq<Id>, distanceKm: (Id, Id) -> real)

  function IsNot(branch: Id): Id -> bool {
    (b: Id) => b != branch
  }

  /** `findAllExcept` */
  function Others(chain: Chain, branch: Id): seq<Id> {
    Filter(chain.branches, IsNot(branch))
  }

  function HasRoom(slots: map<Id, Slot>, wanted: Option<SlotType>): Id -> bool {
    (b: Id) => HasAvailability(slots, b, wanted)
  }

  function Distance(chain: Chain, branch: Id): Id -> real {
    (b: Id) => chain.distanceKm(branch, b)
  }

  function Score(chain: Chain, slots: map<Id, Slot>, branch: Id): Id -> real {
    (b: Id) => chain.distanceKm(branch, b) + OccupancyRatio(slots, b) * OCCUPANCY_PENALTY_KM
  }

  /** What a policy answers when nothing can be claimed: the other branch with room that comes first
      by `key`, the earlier by name among equals. */
  function Suggestion(
    chain: Chain, slots: map<Id, Slot>, branch: Id, wanted: Option<SlotType>, key: Id -> real): Assignment
  {
    if branch !in chain.branches then NoAvailability
    else
      var best := FirstLeast(Others(chain, branch), key, HasRoom(slots, wanted));
      if best.None? then NoAvailability else SuggestOtherBranch(best.value, chain.distanceKm(branch, best.value))
  }

  // ---- What the suggestion must be, said on rows and distances ----------------------------

  /** A row of the branch is free and of the type wanted. */
  ghost predicate HasFreeRow(slots: map<Id, Slot>, branch: Id, wanted: Option<SlotType>) {
    exists s <- slots ::
      && slots[s].branchId == branch && slots[s].status == Disponible
      && (wanted == None || wanted == Some(slots[s].slotType))
  }

  /** The share of the rows of a branch that are occupied or reserved. */
  ghost function Fullness(slots: map<Id, Slot>, branch: Id): real
    requires exists s <- slots :: slots[s].branchId == branch
  {
    var rows := set s <- slots | slots[s].branchId == branch;
    var taken := set s <- rows | slots[s].status in {Ocupada, Reservada};
    var s :| s in slots && slots[s].branchId == branch;
    assert s in rows;
    |taken| as real / |rows| as real
  }

  /** Another branch than the requested one, with a free row. */
  ghost predicate IsCandidate(chain: Chain, slots: map<Id, Slot>, branch: Id, wanted: Option<SlotType>, b: Id) {
    b in chain.branches && b != branch && HasFreeRow(slots, b, wanted)
  }

  /** No candidate is nearer, and those that come earlier by name are farther. */
  ghost predicate IsNearest(chain: Chain, slots: map<Id, Slot>, branch: Id, wanted: Option<SlotType>, a: Id) {
    && IsCandidate(chain, slots, branch, wanted, a)
    && (forall b | IsCandidate(chain, slots, branch, wanted, b) ::
          chain.distanceKm(branch, a) <= chain.distanceKm(branch, b))
    && exists i :: 0 <= i < |chain.branches| && chain.branches[i] == a
         && forall j | 0 <= j < i && IsCandidate(chain, slots, branch, wanted, chain.branches[j]) ::
              chain.distanceKm(branch, a) < chain.distanceKm(branch, chain.branches[j])
  }

  /** What a candidate is nearer than the suggested branch, in kilometres, it is fuller: at most five times
      the difference of the shares, and less than that if it comes earlier by name. */
  ghost predicate IsBestBalanced(chain: Chain, slots: map<Id, Slot>, branch: Id, wanted: Option<SlotType>, a: Id) {
    && IsCandidate(chain, slots, branch, wanted, a)
    && (forall b | IsCandidate(chain, slots, branch, wanted, b) ::
          chain.distanceKm(branch, a) - chain.distanceKm(branch, b) <= 5.0 * (Fullness(slots, b) - Fullness(slots, a)))
    && exists i :: 0 <= i < |chain.branches| && chain.branches[i] == a
         && forall j | 0 <= j < i && IsCandidate(chain, slots, branch, wanted, chain.branches[j]) ::
              chain.distanceKm(branch, a) - chain.distanceKm(branch, chain.branches[j])
                < 5.0 * (Fullness(slots, chain.branches[j]) - Fullness(slots, a))
  }

  lemma RoomIsFreeRow(slots: map<Id, Slot>, branch: Id, wanted: Option<SlotType>)
    ensures HasRoom(slots, wanted)(branch) <==> HasFreeRow(slots, branch, wanted)
  {}

  lemma RatioIsFullness(slots: map<Id, Slot>, branch: Id)
    requires exists s <- slots :: slots[s].branchId == branch
    ensures OccupancyRatio(slots, branch) == Fullness(slots, branch)
  {
    var rows := set s <- slots | slots[s].branchId == branch;
    var taken := set s <- rows | slots[s].status in {Ocupada, Reservada};
    assert SlotsOfBranch(slots, branch) == rows && TakenSlots(slots, branch) == taken;
    var s :| s in slots && slots[s].branchId == branch;
    assert s in rows;
  }

  /** The suggestion by a key: no candidate has a smaller one, and the earlier ones have greater ones. */
  ghost predicate IsLeastCandidate(
    chain: Chain, slots: map<Id, Slot>, branch: Id, wanted: Option<SlotType>, key: Id -> real, a: Id)
  {
    && IsCandidate(chain, slots, branch, wanted, a)
    && (forall b | IsCandidate(chain, slots, branch, wanted, b) :: key(a) <= key(b))
    && exists i :: 0 <= i < |chain.branches| && chain.branches[i] == a
         && forall j | 0 <= j < i && IsCandidate(chain, slots, branch, wanted, chain.branches[j]) ::
              key(a) < key(chain.branches[j])
  }

  lemma SuggestedIsLeast(chain: Chain, slots: map<Id, Slot>, branch: Id, wanted: Option<SlotType>, key: Id -> real)
    requires Suggestion(chain, slots, branch, wanted, key).SuggestOtherBranch?
    ensures IsLeastCandidate(chain, slots, branch, wanted, key, Suggestion(chain, slots, branch, wanted, key).branch)
  {
    var room := HasRoom(slots, wanted);
    var candidate := (b: Id) => b != branch && room(b);
    FirstLeastOfFilter(chain.branches, key, IsNot(branch), room, candidate);
    FirstLeastExactly(chain.branches, key, candidate);
    var a := Suggestion(chain, slots, branch, wanted, key).branch;
    var i: nat :| IsFirstLeast(chain.branches, key, candidate, i) && chain.branches[i] == a;
    forall b: Id
      ensures b in chain.branches ==> (candidate(b) <==> IsCandidate(chain, slots, branch, wanted, b))
    {
      RoomIsFreeRow(slots, b, wanted);
    }
  }

  /** Nothing is suggested exactly when the branch is unknown or there is no candidate. */
  lemma NothingSuggestedExactly(
    chain: Chain, slots: map<Id, Slot>, branch: Id, wanted: Option<SlotType>, key: Id -> real)
    ensures Suggestion(chain, slots, branch, wanted, key).NoAvailability? <==>
      branch !in chain.branches || forall b :: !IsCandidate(chain, slots, branch, wanted, b)
  {
    OthersAre(chain, branch);
    FirstLeastExactly(Others(chain, branch), key, HasRoom(slots, wanted));
    var others, room := Others(chain, branch), HasRoom(slots, wanted);
    forall b: Id
      ensures IsCandidate(chain, slots, branch, wanted, b) <==> b in others && room(b)
    {
      RoomIsFreeRow(slots, b, wanted);
    }
    if FirstLeast(others, key, room).Some? {
      var i: nat :| IsFirstLeast(others, key, room, i);
      assert IsCandidate(chain, slots, branch, wanted, others[i]);
    }
  }

  lemma SuggestedIsNearest(chain: Chain, slots: map<Id, Slot>, branch: Id, wanted: Option<SlotType>)
    ensures var a := Suggestion(chain, slots, branch, wanted, Distance(chain, branch));
      a.SuggestOtherBranch? ==> IsNearest(chain, slots, branch, wanted, a.branch)
  {
    var key := Distance(chain, branch);
    if Suggestion(chain, slots, branch, wanted, key).SuggestOtherBranch? {
      SuggestedIsLeast(chain, slots, branch, wanted, key);
    }
  }

  lemma SuggestedIsBestBalanced(chain: Chain, slots: map<Id, Slot>, branch: Id, wanted: Option<SlotType>)
    ensures var a := Suggestion(chain, slots, branch, wanted, Score(chain, slots, branch));
      a.SuggestOtherBranch? ==> IsBestBalanced(chain, slots, branch, wanted, a.branch)
  {
    var key := Score(chain, slots, branch);
    if Suggestion(chain, slots, branch, wanted, key).SuggestOtherBranch? {
      SuggestedIsLeast(chain, slots, branch, wanted, key);
      forall b | IsCandidate(chain, slots, branch, wanted, b)
        ensures key(b) == chain.distanceKm(branch, b) + 5.0 * Fullness(slots, b)
      {
        RatioIsFullness(slots, b);
      }
    }
  }

  /** So at equal distance an emptier branch with room is never passed over. */
  lemma EmptierIsPreferred(chain: Chain, slots: map<Id, Slot>, branch: Id, wanted: Option<SlotType>, a: Id, b: Id)
    requires IsBestBalanced(chain, slots, branch, wanted, a) && IsCandidate(chain, slots, branch, wanted, b)
    requires chain.distanceKm(branch, a) == chain.distanceKm(branch, b)
    ensures Fullness(slots, a) <= Fullness(slots, b)
  {}

  lemma OthersAre(chain: Chain, branch: Id)
    ensures forall b: Id :: b in Others(chain, branch) <==> b in chain.branches && b != branch
  {
    FilterMembers(chain.branches, IsNot(branch));
  }

  // ---- The policies ---------------------------------------------------------------------

  class Policies {
    const slots: SlotTable
    const chain: Chain

    constructor (slots: SlotTable, chain: Chain)
      ensures this.slots == slots && this.chain == chain
    {
      this.slots, this.chain := slots, chain;
    }

    /** The default policy: the first free slot by code, else the nearest other branch with room. */
    method AssignDefault(branch: Id, wanted: Option<SlotType>, locked: set<Id>, now: int) returns (a: Assignment)
      modifies slots
      ensures a.Assigned? <==> CanTake(old(slots.rows), branch, wanted, locked)
      ensures a.Assigned? ==>
        && IsTakeable(old(slots.rows), a.slot, branch, wanted, locked)
        && slots.rows == WithSlotStatus(old(slots.rows), a.slot, Reservada, now)
        && forall s <- old(slots.rows) :: IsTakeable(old(slots.rows), s, branch, wanted, locked) ==>
             slots.codeOrder(old(slots.rows)[a.slot].code) <= slots.codeOrder(old(slots.rows)[s].code)
      ensures !a.Assigned? ==>
        && slots.rows == old(slots.rows)
        && a == Suggestion(chain, slots.rows, branch, wanted, Distance(chain, branch))
      ensures a.SuggestOtherBranch? ==>
        && IsNearest(chain, slots.rows, branch, wanted, a.branch)
        && a.distanceKm == chain.distanceKm(branch, a.branch)
      ensures a.NoAvailability? ==>
        branch !in chain.branches || forall b :: !IsCandidate(chain, slots.rows, branch, wanted, b)
    {
      SuggestedIsNearest(chain, slots.rows, branch, wanted);
      NothingSuggestedExactly(chain, slots.rows, branch, wanted, Distance(chain, branch));
      var claimed := slots.ClaimAvailableSlot(branch, wanted, locked, now);
      if claimed.Some? {
        return Assigned(claimed.value);
      }
      if branch !in chain.branches {
        return NoAvailability;
      }
      var ranked := Sort(Others(chain, branch), Distance(chain, branch));
      ghost var room := HasRoom(slots.rows, wanted);
      FindInSorted(Others(chain, branch), Distance(chain, branch), room);
      for k := 0 to |ranked|
        invariant Find(ranked, room) == Find(ranked[k..], room)
      {
        if HasAvailability(slots.rows, ranked[k], wanted) {
          return SuggestOtherBranch(ranked[k], chain.distanceKm(branch, ranked[k]));
        }
      }
      return NoAvailability;
    }

    /** The balanced policy: the slot used longest ago, else the other branch with room that is best
        by distance and occupancy. */
    method AssignBalanced(branch: Id, wanted: Option<SlotType>, locked: set<Id>, now: int) returns (a: Assignment)
      modifies slots
      ensures a.Assigned? <==> CanTake(old(slots.rows), branch, wanted, locked)
      ensures a.Assigned? ==>
        && IsTakeable(old(slots.rows), a.slot, branch, wanted, locked)
        && slots.rows == WithSlotStatus(old(slots.rows), a.slot, Reservada, now)
        && forall s <- old(slots.rows) :: IsTakeable(old(slots.rows), s, branch, wanted, locked) ==>
             old(slots.rows)[a.slot].updatedAt <= old(slots.rows)[s].updatedAt
      ensures !a.Assigned? ==>
        && slots.rows == old(slots.rows)
        && a == Suggestion(chain, slots.rows, branch, wanted, Score(chain, slots.rows, branch))
      ensures a.SuggestOtherBranch? ==>
        && IsBestBalanced(chain, slots.rows, branch, wanted, a.branch)
        && a.distanceKm == chain.distanceKm(branch, a.branch)
      ensures a.NoAvailability? ==>
        branch !in chain.branches || forall b :: !IsCandidate(chain, slots.rows, branch, wanted, b)
    {
      SuggestedIsBestBalanced(chain, slots.rows, branch, wanted);
      NothingSuggestedExactly(chain, slots.rows, branch, wanted, Score(chain, slots.rows, branch));
      var claimed := slots.ClaimLeastRecentlyUsedSlot(branch, wanted, locked, now);
      if claimed.Some? {
        return Assigned(claimed.value);
      }
      if branch !in chain.branches {
        return NoAvailability;
      }
      var others := Others(chain, branch);
      var candidates := Filter(others, HasRoom(slots.rows, wanted));
      ghost var key := Score(chain, slots.rows, branch);
      FirstOfSortedMatches(others, key, HasRoom(slots.rows, wanted));
      if |candidates| == 0 {
        return NoAvailability;
      }
      var summaries := OccupancySummary(slots.rows, candidates);
      var score := ScoreBySummary(chain, summaries, branch);
      forall b | b in candidates
        ensures score(b) == key(b)
      {
        RatioOfSummary(slots.rows, candidates, b);
      }
      SameKeysSameSort(candidates, score, key);
      var ranked := Sort(candidates, score);
      var best := ranked[0];
      return SuggestOtherBranch(best, chain.distanceKm(branch, best));
    }
  }

  /** `score`, from the summaries of the candidates. */
  function ScoreBySummary(chain: Chain, summaries: map<Id, Summary>, branch: Id): Id -> real {
    (b: Id) => chain.distanceKm(branch, b) + RatioIn(summaries, b) * OCCUPANCY_PENALTY_KM
  }

  lemma {:induction false} SameKeysSameSort(xs: seq<Id>, key: Id -> real, key': Id -> real)
    requires forall x <- xs :: key(x) == key'(x)
    ensures Sort(xs, key) == Sort(xs, key')
  {
    if xs != [] {
      SameKeysSameSort(xs[1..], key, key');
      SortMembers(xs[1..], key);
      SameKeysSameInsert(xs[0], Sort(xs[1..], key), key, key');
    }
  }

  lemma SortMembers(xs: seq<Id>, key: Id -> real)
    ensures forall x <- Sort(xs, key) :: x in xs
  {
    SortIsStable(xs, key, 0.0);
    SameElements(xs, Sort(xs, key));
  }

  lemma {:induction false} SameKeysSameInsert(x: Id, ys: seq<Id>, key: Id -> real, key': Id -> real)
    requires key(x) == key'(x) && forall y <- ys :: key(y) == key'(y)
    ensures Insert(x, ys, key) == Insert(x, ys, key')
  {
    if ys != [] {
      SameKeysSameInsert(x, ys[1..], key, key');
    }
  }

  // ---- What the suggestion means --------------------------------------------------------

  predicate NoOtherHasRoom(chain: Chain, slots: map<Id, Slot>, branch: Id, wanted: Option<SlotType>) {
    forall b <- chain.branches :: b != branch ==> !HasAvailability(slots, b, wanted)
  }

  /** A branch is suggested exactly when the requested one exists and another has room; it is then
      another branch with room, none of those has a smaller key, and those with an equal key come
      later by name. */
  lemma SuggestionExactly(chain: Chain, slots: map<Id, Slot>, branch: Id, wanted: Option<SlotType>, key: Id -> real)
    ensures var a := Suggestion(chain, slots, branch, wanted, key);
      var others := Others(chain, branch);
      && !a.Assigned?
      && (a.NoAvailability? <==> (branch !in chain.branches || NoOtherHasRoom(chain, slots, branch, wanted)))
      && (a.SuggestOtherBranch? ==>
            && a.branch in chain.branches && a.branch != branch
            && HasAvailability(slots, a.branch, wanted) && a.distanceKm == chain.distanceKm(branch, a.branch)
            && exists i: nat :: IsFirstLeast(others, key, HasRoom(slots, wanted), i) && others[i] == a.branch)
  {
    OthersAre(chain, branch);
    FirstLeastExactly(Others(chain, branch), key, HasRoom(slots, wanted));
  }

  /** When all branches with room are equally occupied the two policies suggest the same one, ties
      included. */
  lemma EqualOccupancySameSuggestion(
    chain: Chain, slots: map<Id, Slot>, branch: Id, wanted: Option<SlotType>, ratio: real)
    requires forall b <- chain.branches ::
      b != branch && HasAvailability(slots, b, wanted) ==> OccupancyRatio(slots, b) == ratio
    ensures Suggestion(chain, slots, branch, wanted, Score(chain, slots, branch))
         == Suggestion(chain, slots, branch, wanted, Distance(chain, branch))
  {
    OthersAre(chain, branch);
    forall b <- Others(chain, branch) | HasRoom(slots, wanted)(b)
      ensures Score(chain, slots, branch)(b) == Distance(chain, branch)(b) + ratio * OCCUPANCY_PENALTY_KM
    {}
    SameOrderSameChoice(
      Others(chain, branch), Score(chain, slots, branch), Distance(chain, branch), HasRoom(slots, wanted));
  }

  /** The price of balancing: the branch the balanced policy suggests is at most the occupancy
      penalty farther away than the one the default policy suggests. */
  lemma DetourIsBounded(chain: Chain, slots: map<Id, Slot>, branch: Id, wanted: Option<SlotType>)
    ensures var balanced := Suggestion(chain, slots, branch, wanted, Score(chain, slots, branch));
      var nearest := Suggestion(chain, slots, branch, wanted, Distance(chain, branch));
      && (balanced.NoAvailability? <==> nearest.NoAvailability?)
      && (balanced.SuggestOtherBranch? ==>
            nearest.distanceKm <= balanced.distanceKm < nearest.distanceKm + 5.0)
  {
    SuggestionExactly(chain, slots, branch, wanted, Score(chain, slots, branch));
    SuggestionExactly(chain, slots, branch, wanted, Distance(chain, branch));
    var balanced := Suggestion(chain, slots, branch, wanted, Score(chain, slots, branch));
    var nearest := Suggestion(chain, slots, branch, wanted, Distance(chain, branch));
    if balanced.SuggestOtherBranch? {
      var others := Others(chain, branch);
      var room := HasRoom(slots, wanted);
      var i: nat :| IsFirstLeast(others, Score(chain, slots, branch), room, i) && others[i] == balanced.branch;
      var j: nat :| IsFirstLeast(others, Distance(chain, branch), room, j) && others[j] == nearest.branch;
      RatioBounds(slots, balanced.branch, wanted);
      RatioBounds(slots, nearest.branch, wanted);
      assert HasRoom(slots, wanted)(others[i]) && HasRoom(slots, wanted)(others[j]);
    }
  }

  /** A branch with room is not full. */
  lemma RatioBounds(slots: map<Id, Slot>, branch: Id, wanted: Option<SlotType>)
    requires HasAvailability(slots, branch, wanted)
    ensures 0.0 <= OccupancyRatio(slots, branch) < 1.0
  {
    var s :| s in slots && IsClaimable(slots[s], branch, wanted);
    var taken, all := TakenSlots(slots, branch), SlotsOfBranch(slots, branch);
    assert s in all && s !in taken && taken <= all - {s};
    Smaller(taken, all, s);
    RatioBelowOne(|taken|, |all|);
  }

  lemma Smaller(a: set<Id>, b: set<Id>, x: Id)
    requires x in b && a <= b - {x}
    ensures |a| < |b|
  {
    var c := b - {x};
    assert |c| == |b| - 1;
    SubsetSize(a, c);
  }

  lemma {:induction false} SubsetSize(a: set<Id>, b: set<Id>)
    requires a <= b
    ensures |a| <= |b|
  {
    if a != {} {
      var x :| x in a;
      SubsetSize(a - {x}, b - {x});
    }
  }

  lemma RatioBelowOne(n: nat, m: nat)
    requires n < m
    ensures 0.0 <= n as real / m as real < 1.0
  {}
}
