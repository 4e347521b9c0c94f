/** One live reservation per user when messages are delivered again, and when that fails. */
module Redelivery {
  import opened Options
  import opened Parking
  import opened Lifecycle
  import opened ReservationQueue

  /** A process that outlives its connection was handling nothing then. */
  predicate OutlivesNothing(s: System, act: Act) {
    act.Lose? && act.survives ==> s.handlers == map[]
  }

  /** No handling outlives the connection its message came through. */
  ghost predicate NoHandlingOutlives(s: System, turns: seq<Turn>)
    requires IsHistory(s, turns)
    decreases |turns|
  {
    turns != [] ==>
      && OutlivesNothing(s, turns[0].act)
      && NoHandlingOutlives(Next(s, turns[0].act, turns[0].now), turns[1..])
  }

  /** Then the message handled is the one unsettled, so there is one worker at most. */
  ghost predicate Serial(s: System) {
    && Tracked(s)
    && (forall k <- s.handlers :: s.current == Some(k))
    && s.world.workers.Keys <= s.handlers.Keys
    && OneLivePerUser(s.world.db) && Served(s.world)
  }

  lemma EmptyIsSerial(s: System)
    requires Empty(s)
    ensures Serial(s)
  {}

  lemma WorkIsSerial(s: System, step: Step, unplaced: Outcome, now: int)
    requires Serial(s) && CanHappen(s, Work(step, unplaced))
    ensures Serial(Next(s, Work(step, unplaced), now))
  {
    OneHandler(s);
    WorkersAfter(s.world, step, now);
    SerialStepKeeps(s.world, step, now);
    WorkIsTracked(s, step, ProgressAfter(s, step, unplaced), Apply(s.world, step, now));
  }

  lemma WorkersAfter(w: World, step: Step, now: int)
    requires Enabled(w, step)
    ensures IsCreation(step) ==> Apply(w, step, now).workers.Keys <= w.workers.Keys + {step.worker}
    ensures !IsCreation(step) ==> Apply(w, step, now).workers.Keys <= w.workers.Keys
  {}

  lemma OneHandler(s: System)
    requires Serial(s)
    ensures forall k, l | k in s.handlers && l in s.handlers :: k == l
  {}

  /** Fewer workers keep the two properties of users. */
  lemma FewerWorkers(w: World, w': World)
    requires OneLivePerUser(w.db) && Served(w)
    requires w'.db == w.db && w'.workers.Keys <= w.workers.Keys
    requires forall k <- w'.workers :: w'.workers[k] == w.workers[k]
    ensures OneLivePerUser(w'.db) && Served(w')
  {}

  lemma SettlingIsSerial(s: System, k: Id, outcome: Outcome)
    requires Serial(s) && k in s.handlers
    ensures Serial(AfterSettling(s, k, outcome))
  {
    OneHandler(s);
    FewerWorkers(s.world, WithoutWorker(s.world, k));
    SettlingIsTracked(s, k, outcome);
    assert AfterSettling(s, k, outcome).handlers == map[];
  }

  lemma DeliveryIsSerial(s: System, m: Message)
    requires Serial(s) && m in s.bags.ready && s.bags.unacked == multiset{}
    ensures Serial(AfterDelivery(s, m))
  {
    assert s.current.None?;
    assert s.handlers.Keys == {};
    DeliveryIsTracked(s, m);
  }

  lemma NextIsSerial(s: System, act: Act, now: int)
    requires Serial(s) && CanHappen(s, act) && OutlivesNothing(s, act)
    ensures Serial(Next(s, act, now))
  {
    match act
    case Work(step, unplaced) => WorkIsSerial(s, step, unplaced, now);
    case Elsewhere(step) =>
      WorkersAfter(s.world, step, now);
      SerialStepKeeps(s.world, step, now);
    case Settle(k, fails) => SettlingIsSerial(s, k, OutcomeOf(s, k, fails));
    case Deliver(m) => DeliveryIsSerial(s, m);
    case Lose(survives) =>
      assert survives ==> s.current.None?;
      FewerWorkers(s.world, s.world.(workers := map[]));
    case Publish(_) =>
  }

  // ---- The exact condition ----------------------------------------------------------------

  /** An insert finds its user without a live reservation. */
  ghost predicate TurnIsDue(s: System, act: Act)
    requires CanHappen(s, act)
  {
    act.Work? ==> InsertIsDue(s.world, act.step)
  }

  ghost predicate TurnsAreDue(s: System, turns: seq<Turn>)
    requires IsHistory(s, turns)
    decreases |turns|
  {
    turns != [] ==> TurnIsDue(s, turns[0].act) && TurnsAreDue(Next(s, turns[0].act, turns[0].now), turns[1..])
  }

  ghost predicate OneLiveAlways(s: System, turns: seq<Turn>)
    requires IsHistory(s, turns)
    decreases |turns|
  {
    && OneLivePerUser(s.world.db)
    && (turns != [] ==> OneLiveAlways(Next(s, turns[0].act, turns[0].now), turns[1..]))
  }

  lemma TurnKeepsOneLiveExactly(s: System, act: Act, now: int)
    requires OneLivePerUser(s.world.db) && CanHappen(s, act)
    ensures OneLivePerUser(Next(s, act, now).world.db) <==> TurnIsDue(s, act)
  {
    match act
    case Work(step, _) =>
      if step.Insert? {
        InsertKeepsOneLiveExactly(s.world, step.worker, step.reservation, step.toleranceMinutes, now);
      } else {
        OtherStepsKeepOneLive(s.world, step, now);
      }
    case Elsewhere(step) => OtherStepsKeepOneLive(s.world, step, now);
    case _ =>
  }

  lemma {:induction false} OneLiveAlwaysExactly(s: System, turns: seq<Turn>)
    requires OneLivePerUser(s.world.db) && IsHistory(s, turns)
    ensures OneLiveAlways(s, turns) <==> TurnsAreDue(s, turns)
    decreases |turns|
  {
    if turns != [] {
      TurnKeepsOneLiveExactly(s, turns[0].act, turns[0].now);
      if OneLivePerUser(Next(s, turns[0].act, turns[0].now).world.db) {
        OneLiveAlwaysExactly(Next(s, turns[0].act, turns[0].now), turns[1..]);
      }
    }
  }

  /** Over any history, handlings that outlive their connections included: users have one live
      reservation at most at every point exactly when every insert finds its user without one. */
  lemma RedeliveryIsHarmlessExactly(start: System, turns: seq<Turn>)
    requires Empty(start) && IsHistory(start, turns)
    ensures OneLiveAlways(start, turns) <==> TurnsAreDue(start, turns)
  {
    OneLiveAlwaysExactly(start, turns);
  }

  lemma {:induction false} SerialTurnsAreDue(s: System, turns: seq<Turn>)
    requires Serial(s) && IsHistory(s, turns) && NoHandlingOutlives(s, turns)
    ensures OneLiveAlways(s, turns)
    decreases |turns|
  {
    if turns != [] {
      NextIsSerial(s, turns[0].act, turns[0].now);
      SerialTurnsAreDue(Next(s, turns[0].act, turns[0].now), turns[1..]);
    }
  }

  /** In particular when no handling outlives its connection, however often messages are delivered again:
      after a crash between the insert and the acknowledgement the second handling finds the
      reservation. */
  lemma RedeliveryIsHarmless(start: System, turns: seq<Turn>)
    requires Empty(start) && IsHistory(start, turns) && NoHandlingOutlives(start, turns)
    ensures OneLiveAlways(start, turns) && TurnsAreDue(start, turns)
  {
    EmptyIsSerial(start);
    SerialTurnsAreDue(start, turns);
    RedeliveryIsHarmlessExactly(start, turns);
  }

  // ---- A history that breaks it ---------------------------------------------------------

  /** The conclusion of the steps below: a history that ends with two live reservations. */
  ghost predicate EndsInTwo(s: System, turns: seq<Turn>) {
    IsHistory(s, turns) && !OneLivePerUser(Finally(s, turns).world.db)
  }

  const UNPLACED := DomainFailure("NO_AVAILABILITY")

  /** If a handling outlives its connection, the same message is delivered again while it is still
      being handled, and one message makes two reservations for its user. */
  lemma SurvivingHandlerReservesTwice(s: System, m: Message, request: Request, a: Id, b: Id) returns (turns: seq<Turn>)
    requires Empty(s) && Parse(m.content) == Some(request)
    requires a != b && IsOnOffer(s.world.db, a, request) && IsOnOffer(s.world.db, b, request)
    ensures EndsInTwo(s, turns) && PublishedIn(turns) == multiset{m}
  {
    var s1 := Next(s, Publish(m), 0);
    var s2 := Next(s1, Deliver(m), 0);
    turns := FirstCheck(s2, m, request, a, b);
    turns := OneTurn(s1, Deliver(m), s2, turns);
    turns := OneTurn(s, Publish(m), s1, turns);
  }

  lemma FirstCheck(s: System, m: Message, request: Request, a: Id, b: Id) returns (turns: seq<Turn>)
    requires Initial(s.world) && s.handlers == map[0 := Waiting] && s.deliveries == [m]
    requires s.bags.ready == multiset{} && s.bags.unacked == multiset{m} && Parse(m.content) == Some(request)
    requires a != b && IsOnOffer(s.world.db, a, request) && IsOnOffer(s.world.db, b, request)
    ensures EndsInTwo(s, turns) && PublishedIn(turns) == multiset{}
  {
    var act := Work(Check(0, request), UNPLACED);
    var s1 := Next(s, act, 0);
    assert s1.world == s.world.(workers := map[0 := Checked(request)]);
    turns := LostWhileHandled(s1, m, request, a, b);
    turns := OneTurn(s, act, s1, turns);
  }

  lemma LostWhileHandled(s: System, m: Message, request: Request, a: Id, b: Id) returns (turns: seq<Turn>)
    requires s.world.workers == map[0 := Checked(request)]
    requires s.world.db.reservations == map[] && s.world.db.sessions == map[]
    requires s.handlers.Keys == {0} && s.deliveries == [m]
    requires s.bags.ready == multiset{} && s.bags.unacked == multiset{m} && Parse(m.content) == Some(request)
    requires a != b && IsOnOffer(s.world.db, a, request) && IsOnOffer(s.world.db, b, request)
    ensures EndsInTwo(s, turns) && PublishedIn(turns) == multiset{}
  {
    var s1 := Next(s, Lose(true), 0);
    var s2 := Next(s1, Deliver(m), 0);
    turns := SecondCheck(s2, m, request, a, b);
    turns := OneTurn(s1, Deliver(m), s2, turns);
    turns := OneTurn(s, Lose(true), s1, turns);
  }

  lemma SecondCheck(s: System, m: Message, request: Request, a: Id, b: Id) returns (turns: seq<Turn>)
    requires s.world.workers == map[0 := Checked(request)]
    requires s.world.db.reservations == map[] && s.world.db.sessions == map[]
    requires s.handlers.Keys == {0, 1} && s.handlers[1] == Waiting && s.deliveries == [m, m]
    requires Parse(m.content) == Some(request)
    requires a != b && IsOnOffer(s.world.db, a, request) && IsOnOffer(s.world.db, b, request)
    ensures EndsInTwo(s, turns) && PublishedIn(turns) == multiset{}
  {
    var act := Work(Check(1, request), UNPLACED);
    var s1 := Next(s, act, 0);
    assert s1.world == s.world.(workers := map[0 := Checked(request), 1 := Checked(request)]);
    turns := FirstClaim(s1, request, a, b);
    turns := OneTurn(s, act, s1, turns);
  }

  lemma FirstClaim(s: System, request: Request, a: Id, b: Id) returns (turns: seq<Turn>)
    requires s.world.workers == map[0 := Checked(request), 1 := Checked(request)]
    requires s.world.db.reservations == map[] && s.handlers.Keys == {0, 1}
    requires a != b && IsOnOffer(s.world.db, a, request) && IsOnOffer(s.world.db, b, request)
    ensures EndsInTwo(s, turns) && PublishedIn(turns) == multiset{}
  {
    var act := Work(Claim(0, Some(a)), UNPLACED);
    var s1 := Next(s, act, 0);
    turns := SecondClaim(s1, request, a, b);
    turns := OneTurn(s, act, s1, turns);
  }

  lemma SecondClaim(s: System, request: Request, a: Id, b: Id) returns (turns: seq<Turn>)
    requires s.world.workers == map[0 := Claimed(request, a), 1 := Checked(request)]
    requires s.world.db.reservations == map[] && s.handlers.Keys == {0, 1} && IsOnOffer(s.world.db, b, request)
    ensures EndsInTwo(s, turns) && PublishedIn(turns) == multiset{}
  {
    var act := Work(Claim(1, Some(b)), UNPLACED);
    var s1 := Next(s, act, 0);
    turns := FirstInsert(s1, request, a, b);
    turns := OneTurn(s, act, s1, turns);
  }

  lemma FirstInsert(s: System, request: Request, a: Id, b: Id) returns (turns: seq<Turn>)
    requires s.world.workers == map[0 := Claimed(request, a), 1 := Claimed(request, b)]
    requires s.world.db.reservations == map[] && s.handlers.Keys == {0, 1}
    ensures EndsInTwo(s, turns) && PublishedIn(turns) == multiset{}
  {
    var act := Work(Insert(0, 0, 20), UNPLACED);
    var s1 := Next(s, act, 0);
    turns := SecondInsert(s1, request, b);
    turns := OneTurn(s, act, s1, turns);
  }

  lemma SecondInsert(s: System, request: Request, b: Id) returns (turns: seq<Turn>)
    requires s.world.workers == map[1 := Claimed(request, b)] && s.world.db.reservations.Keys == {0}
    requires IsLive(s.world.db.reservations[0]) && s.world.db.reservations[0].userId == request.user
    requires s.handlers.Keys == {0, 1}
    ensures EndsInTwo(s, turns) && PublishedIn(turns) == multiset{}
  {
    var act := Work(Insert(1, 1, 20), UNPLACED);
    var s1 := Next(s, act, 0);
    var rs := s1.world.db.reservations;
    assert rs[1].userId == request.user && IsLive(rs[1]) && rs[0] == s.world.db.reservations[0];
    turns := OneTurn(s, act, s1, []);
  }

  lemma OneTurn(s: System, act: Act, s': System, rest: seq<Turn>) returns (turns: seq<Turn>)
    requires CanHappen(s, act) && s' == Next(s, act, 0) && IsHistory(s', rest)
    ensures turns == [Turn(act, 0)] + rest && IsHistory(s, turns) && Finally(s, turns) == Finally(s', rest)
    ensures PublishedIn(turns) == PublishedBy(act) + PublishedIn(rest)
  {
    turns := [Turn(act, 0)] + rest;
    assert turns[1..] == rest;
  }
}
