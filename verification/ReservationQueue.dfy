/** The queue of reservation requests and the handling of its messages.

    Handling a message awaits, so the steps of the reservation it creates are those of
    `Lifecycle.dfy`, taken by the worker that has the number of the delivery.  The broker redelivers
    what was not settled when the connection is lost. */
module ReservationQueue {
  import opened Options
  import opened Parking
  import opened Lifecycle
  import opened MessageBroker

  /** The body of a message: the three fields that must not be empty, and the request they spell. */
  datatype Content = NotJson | Json(requestId: string, userId: string, branchId: string, request: Request)

  datatype Message = Message(number: nat, content: Content)

  function Parse(c: Content): Option<Request> {
    if c.NotJson? || c.requestId == "" || c.userId == "" || c.branchId == "" then None else Some(c.request)
  }

  /** How creating the reservation ended. */
  datatype Outcome =
    | Created(reservation: Id)
    | OtherBranch(branch: Id, distanceKm: real)
    | DomainFailure(code: string)
    | InfrastructureFailure

  /** What becomes of a message: it is dead-lettered if it cannot be read or the infrastructure failed;
      a refusal by the domain is an answer. */
  predicate IsAcknowledged(content: Content, outcome: Outcome) {
    Parse(content).Some? && !outcome.InfrastructureFailure?
  }

  /** The row was made for the request. */
  predicate IsFor(r: Reservation, request: Request) {
    r.userId == request.user && r.branchId == request.branch
  }

  // ---- The system: one consumer with a prefetch of one ----------------------------------

  /** How far the handling of a message has come. */
  datatype Progress = Waiting | Begun | Ended(outcome: Outcome)

  /** What a handling told the user. */
  datatype Answer = Answer(handling: Id, outcome: Outcome)

  /** Handling `k` is of message `deliveries[k]`; `current` is the one whose channel is still open, the
      others outlived theirs; `made` are the rows they inserted, `answers` what they told the users. */
  datatype System = System(
    world: World, bags: Bags<Message>, deliveries: seq<Message>, handlers: map<Id, Progress>, current: Option<Id>,
    made: map<Id, Id>, answers: seq<Answer>)

  datatype Act =
    | Publish(message: Message)
    | Deliver(message: Message)
    | Work(step: Step, unplaced: Outcome)
    | Settle(handling: Id, fails: bool)
    | Lose(survives: bool)
    | Elsewhere(step: Step)

  predicate IsCreation(step: Step) {
    step.Check? || step.Claim? || step.Insert?
  }

  predicate IsUnplaced(outcome: Outcome) {
    outcome.OtherBranch? || outcome == DomainFailure("NO_AVAILABILITY")
  }

  function RequestOf(s: System, k: Id): Option<Request> {
    if k < |s.deliveries| then Parse(s.deliveries[k].content) else None
  }

  /** What can happen: a message is delivered when none is unsettled; a handling checks once, for the
      request of its message, and goes on as the worker it is; it settles at its end, or at any time
      when the infrastructure fails, or at once when the message cannot be read; everything else
      happens elsewhere. */
  predicate CanHappen(s: System, act: Act) {
    match act
    case Publish(_) => true
    case Deliver(m) => m in s.bags.ready && s.bags.unacked == multiset{}
    case Work(step, unplaced) =>
      && IsCreation(step) && Enabled(s.world, step) && step.worker in s.handlers && IsUnplaced(unplaced)
      && (step.Check? ==> s.handlers[step.worker].Waiting? && RequestOf(s, step.worker) == Some(step.request))
    case Settle(k, fails) => k in s.handlers && (fails || RequestOf(s, k).None? || s.handlers[k].Ended?)
    case Lose(_) => true
    case Elsewhere(step) => !IsCreation(step) && !step.Die? && Enabled(s.world, step)
  }

  ghost function Next(s: System, act: Act, now: int): System
    requires CanHappen(s, act)
  {
    match act
    case Publish(m) => s.(bags := Published(s.bags, m))
    case Deliver(m) => AfterDelivery(s, m)
    case Work(step, unplaced) => AfterWork(s, step, ProgressAfter(s, step, unplaced), Apply(s.world, step, now))
    case Settle(k, fails) => AfterSettling(s, k, OutcomeOf(s, k, fails))
    case Lose(survives) => AfterLoss(s, survives)
    case Elsewhere(step) => s.(world := Apply(s.world, step, now))
  }

  function AfterDelivery(s: System, m: Message): System {
    s.(bags := Delivered(s.bags, m), deliveries := s.deliveries + [m],
       handlers := s.handlers[|s.deliveries| := Waiting], current := Some(|s.deliveries|))
  }

  ghost function ProgressAfter(s: System, step: Step, unplaced: Outcome): Progress
    requires IsCreation(step)
  {
    match step
    case Check(_, request) =>
      if MayCreate(s.world.db, request.user) then Begun else Ended(DomainFailure("RESERVATION_ALREADY_ACTIVE"))
    case Claim(_, found) => if found.Some? then Begun else Ended(unplaced)
    case Insert(_, id, _) => Ended(Created(id))
  }

  function AfterWork(s: System, step: Step, progress: Progress, world: World): System
    requires IsCreation(step)
  {
    s.(world := world, handlers := s.handlers[step.worker := progress],
       made := if step.Insert? then s.made[step.worker := step.reservation] else s.made)
  }

  function OutcomeOf(s: System, k: Id, fails: bool): Outcome
    requires k in s.handlers
  {
    if fails || !s.handlers[k].Ended? then InfrastructureFailure else s.handlers[k].outcome
  }

  function WithoutWorker(w: World, k: Id): World {
    w.(workers := w.workers - {k})
  }

  /** The user is told the outcome; the broker hears of it only through the channel of the delivery. */
  function AfterSettling(s: System, k: Id, outcome: Outcome): System {
    var told := k < |s.deliveries| && IsAcknowledged(s.deliveries[k].content, outcome);
    s.(world := WithoutWorker(s.world, k), handlers := s.handlers - {k},
       answers := if told then s.answers + [Answer(k, outcome)] else s.answers,
       current := if s.current == Some(k) then None else s.current,
       bags := if s.current == Some(k) && k < |s.deliveries| then Settled(s.bags, s.deliveries[k], told) else s.bags)
  }

  function AfterLoss(s: System, survives: bool): System {
    var requeued := s.(bags := Requeued(s.bags), current := None);
    if survives then requeued else requeued.(handlers := map[], world := s.world.(workers := map[]))
  }

  datatype Turn = Turn(act: Act, now: int)

  ghost predicate IsHistory(s: System, turns: seq<Turn>)
    decreases |turns|
  {
    turns != [] ==> CanHappen(s, turns[0].act) && IsHistory(Next(s, turns[0].act, turns[0].now), turns[1..])
  }

  ghost function Finally(s: System, turns: seq<Turn>): System
    requires IsHistory(s, turns)
    decreases |turns|
  {
    if turns == [] then s else Finally(Next(s, turns[0].act, turns[0].now), turns[1..])
  }

  function PublishedBy(act: Act): multiset<Message> {
    if act.Publish? then multiset{act.message} else multiset{}
  }

  function PublishedIn(turns: seq<Turn>): multiset<Message> {
    if turns == [] then multiset{} else PublishedBy(turns[0].act) + PublishedIn(turns[1..])
  }

  /** A system with nothing but slots. */
  ghost predicate Empty(s: System) {
    && Initial(s.world) && s.bags == Bags(multiset{}, multiset{}, multiset{}, multiset{})
    && s.deliveries == [] && s.handlers == map[] && s.current == None && s.made == map[] && s.answers == []
  }

  // ---- No message is lost ---------------------------------------------------------------

  /** What is unsettled is the one message the current handler holds; what was acknowledged could be
      read. */
  predicate Tracked(s: System) {
    && (forall k <- s.handlers :: k < |s.deliveries|)
    && (s.current.Some? ==> s.current.value in s.handlers)
    && s.bags.unacked == (if s.current.None? then multiset{} else multiset{s.deliveries[s.current.value]})
    && (forall m <- s.bags.acked :: Parse(m.content).Some?)
  }

  lemma PublishIsTracked(s: System, m: Message)
    requires Tracked(s)
    ensures Tracked(s.(bags := Published(s.bags, m))) && Every(Published(s.bags, m)) == Every(s.bags) + multiset{m}
  {
    BagsAreConserved(s.bags, m, true);
  }

  lemma DeliveryIsTracked(s: System, m: Message)
    requires Tracked(s) && m in s.bags.ready && s.bags.unacked == multiset{}
    ensures Tracked(AfterDelivery(s, m)) && Every(AfterDelivery(s, m).bags) == Every(s.bags)
  {
    BagsAreConserved(s.bags, m, true);
  }

  lemma LossIsTracked(s: System, survives: bool)
    requires Tracked(s)
    ensures Tracked(AfterLoss(s, survives)) && Every(AfterLoss(s, survives).bags) == Every(s.bags)
  {
    assert Every(Requeued(s.bags)) == Every(s.bags);
  }

  lemma WorkIsTracked(s: System, step: Step, progress: Progress, world: World)
    requires Tracked(s) && IsCreation(step) && step.worker in s.handlers
    ensures Tracked(AfterWork(s, step, progress, world))
  {}

  lemma SettlingIsTracked(s: System, k: Id, outcome: Outcome)
    requires Tracked(s) && k in s.handlers
    ensures Tracked(AfterSettling(s, k, outcome)) && Every(AfterSettling(s, k, outcome).bags) == Every(s.bags)
  {
    if s.current == Some(k) {
      var m := s.deliveries[k];
      BagsAreConserved(s.bags, m, IsAcknowledged(m.content, outcome));
      assert s.bags.unacked - multiset{m} == multiset{};
      assert forall n | n in s.bags.acked + multiset{m} :: n in s.bags.acked || n == m;
    }
  }

  lemma NextIsTracked(s: System, act: Act, now: int)
    requires Tracked(s) && CanHappen(s, act)
    ensures Tracked(Next(s, act, now))
    ensures Every(Next(s, act, now).bags) == Every(s.bags) + PublishedBy(act)
  {
    match act
    case Publish(m) => PublishIsTracked(s, m);
    case Deliver(m) => DeliveryIsTracked(s, m);
    case Work(step, unplaced) => WorkIsTracked(s, step, ProgressAfter(s, step, unplaced), Apply(s.world, step, now));
    case Settle(k, fails) => SettlingIsTracked(s, k, OutcomeOf(s, k, fails));
    case Lose(survives) => LossIsTracked(s, survives);
    case Elsewhere(_) =>
  }

  lemma SumOfThree(a: multiset<Message>, b: multiset<Message>, c: multiset<Message>)
    ensures a + b + c == a + (b + c)
  {}

  lemma {:induction false} HistoryIsTracked(s: System, turns: seq<Turn>)
    requires Tracked(s) && IsHistory(s, turns)
    ensures Tracked(Finally(s, turns)) && Every(Finally(s, turns).bags) == Every(s.bags) + PublishedIn(turns)
    decreases |turns|
  {
    if turns != [] {
      var next := Next(s, turns[0].act, turns[0].now);
      NextIsTracked(s, turns[0].act, turns[0].now);
      HistoryIsTracked(next, turns[1..]);
      SumOfThree(Every(s.bags), PublishedBy(turns[0].act), PublishedIn(turns[1..]));
    }
  }

  /** Over any history every message published is ready, unsettled, acknowledged or dead-lettered,
      exactly once; one at most is unsettled, and it is being handled. */
  lemma NoMessageIsLost(s: System, turns: seq<Turn>)
    requires Empty(s) && IsHistory(s, turns)
    ensures var b := Finally(s, turns).bags;
      && b.ready + b.unacked + b.acked + b.dead == PublishedIn(turns)
      && |b.unacked| <= 1
    ensures Tracked(Finally(s, turns))
  {
    HistoryIsTracked(s, turns);
  }
}
