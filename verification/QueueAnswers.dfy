/** What users are told is what happened: rows, handlings and answers belong together. */
module QueueAnswers {
  import opened Options
  import opened Parking
  import opened Lifecycle
  import opened ReservationQueue

  /** The workers are the handlings that have begun and not ended, each for its own request. */
  predicate WorkersLinked(s: System) {
    forall k <- s.world.workers ::
      k in s.handlers && s.handlers[k].Begun? && RequestOf(s, k) == Some(s.world.workers[k].request)
  }

  /** A handling that has not settled inserted a row exactly if it ended with that row. */
  predicate HandlersLinked(s: System) {
    forall k <- s.handlers ::
      && k < |s.deliveries|
      && (k in s.made ==> s.handlers[k] == Ended(Created(s.made[k])))
      && (s.handlers[k].Ended? && s.handlers[k].outcome.Created? ==> k in s.made)
  }

  /** Every row was inserted by exactly one handling, for the request of its message. */
  ghost predicate RowsLinked(s: System) {
    && (forall k <- s.made :: IsRowOf(s, k, s.made[k]))
    && (forall r <- s.world.db.reservations :: r in s.made.Values)
    && (forall k, l | k in s.made && l in s.made :: s.made[k] == s.made[l] ==> k == l)
  }

  predicate IsRowOf(s: System, k: Id, r: Id) {
    && r in s.world.db.reservations && RequestOf(s, k).Some?
    && IsFor(s.world.db.reservations[r], RequestOf(s, k).value)
  }

  /** Every handling answers once at most, after it settled; a row it names is the one it inserted. */
  predicate AnswersLinked(s: System) {
    && (forall a <- s.answers ::
          && a.handling < |s.deliveries| && a.handling !in s.handlers
          && IsAcknowledged(s.deliveries[a.handling].content, a.outcome)
          && (a.outcome.Created? ==> a.handling in s.made && s.made[a.handling] == a.outcome.reservation))
    && (forall i, j | 0 <= i < j < |s.answers| :: s.answers[i].handling != s.answers[j].handling)
  }

  ghost predicate Linked(s: System) {
    WorkersLinked(s) && HandlersLinked(s) && RowsLinked(s) && AnswersLinked(s)
  }

  lemma EmptyIsLinked(s: System)
    requires Empty(s)
    ensures Linked(s)
  {}

  lemma DeliveryIsLinked(s: System, m: Message)
    requires Linked(s)
    ensures Linked(AfterDelivery(s, m))
  {
    var s' := AfterDelivery(s, m);
    assert forall k: nat | k < |s.deliveries| :: RequestOf(s', k) == RequestOf(s, k);
    assert forall k <- s.made :: IsRowOf(s, k, s.made[k]) && k < |s.deliveries|;
  }

  /** A step that leaves the rows and their owners as they are. */
  predicate KeepsRows(db: Db, db': Db) {
    && db'.reservations.Keys == db.reservations.Keys
    && forall r <- db.reservations ::
         && db'.reservations[r].userId == db.reservations[r].userId
         && db'.reservations[r].branchId == db.reservations[r].branchId
  }

  lemma RowsStay(s: System, s': System)
    requires RowsLinked(s) && s'.made == s.made && s'.deliveries == s.deliveries && KeepsRows(s.world.db, s'.world.db)
    ensures RowsLinked(s')
  {
    forall k <- s'.made
      ensures IsRowOf(s', k, s'.made[k])
    {
      assert IsRowOf(s, k, s.made[k]);
    }
  }

  lemma OtherStepsKeepRows(w: World, step: Step, now: int)
    requires Enabled(w, step) && !step.Insert?
    ensures KeepsRows(w.db, Apply(w, step, now).db)
    ensures !IsCreation(step) && !step.Die? ==> Apply(w, step, now).workers == w.workers
  {}

  lemma CheckIsLinked(s: System, step: Step, unplaced: Outcome, now: int)
    requires Linked(s) && CanHappen(s, Work(step, unplaced)) && step.Check?
    ensures Linked(Next(s, Work(step, unplaced), now))
  {
    var s' := Next(s, Work(step, unplaced), now);
    RowsStay(s, s');
  }

  lemma ClaimIsLinked(s: System, step: Step, unplaced: Outcome, now: int)
    requires Linked(s) && CanHappen(s, Work(step, unplaced)) && step.Claim?
    ensures Linked(Next(s, Work(step, unplaced), now))
  {
    var s' := Next(s, Work(step, unplaced), now);
    RowsStay(s, s');
  }

  /** An insert is the first of its handling. */
  lemma InsertIsLinked(s: System, step: Step, unplaced: Outcome, now: int)
    requires Linked(s) && CanHappen(s, Work(step, unplaced)) && step.Insert?
    ensures step.worker !in s.made
    ensures Linked(Next(s, Work(step, unplaced), now))
  {
    var s' := Next(s, Work(step, unplaced), now);
    var k, id := step.worker, step.reservation;
    assert s.handlers[k].Begun?;
    InsertedRow(s.world, k, id, step.toleranceMinutes, now);
    InsertLinksRow(s, s', k, id);
  }

  lemma InsertedRow(w: World, k: Id, id: Id, toleranceMinutes: int, now: int)
    requires Enabled(w, Insert(k, id, toleranceMinutes))
    ensures var w' := Apply(w, Insert(k, id, toleranceMinutes), now);
      && w'.db.reservations.Keys == w.db.reservations.Keys + {id}
      && (forall r <- w.db.reservations :: w'.db.reservations[r] == w.db.reservations[r])
      && IsFor(w'.db.reservations[id], w.workers[k].request)
      && w'.workers == w.workers - {k}
  {}

  lemma InsertLinksRow(s: System, s': System, k: Id, id: Id)
    requires RowsLinked(s) && k !in s.made && id !in s.world.db.reservations
    requires s'.made == s.made[k := id] && s'.deliveries == s.deliveries && RequestOf(s, k).Some?
    requires s'.world.db.reservations.Keys == s.world.db.reservations.Keys + {id}
    requires forall r <- s.world.db.reservations :: s'.world.db.reservations[r] == s.world.db.reservations[r]
    requires IsFor(s'.world.db.reservations[id], RequestOf(s, k).value)
    ensures RowsLinked(s')
  {
    forall l <- s'.made
      ensures IsRowOf(s', l, s'.made[l])
      ensures l != k ==> s'.made[l] != id
    {
      assert l != k ==> IsRowOf(s, l, s.made[l]);
    }
    forall r <- s'.world.db.reservations
      ensures r in s'.made.Values
    {
      if r == id {
        assert s'.made[k] == r;
      } else {
        var l :| l in s.made && s.made[l] == r;
        assert s'.made[l] == r;
      }
    }
  }

  lemma SettlingIsLinked(s: System, k: Id, fails: bool)
    requires Linked(s) && k in s.handlers && (fails || RequestOf(s, k).None? || s.handlers[k].Ended?)
    ensures Linked(AfterSettling(s, k, OutcomeOf(s, k, fails)))
  {
    var s' := AfterSettling(s, k, OutcomeOf(s, k, fails));
    RowsStay(s, s');
    assert forall l: Id :: RequestOf(s', l) == RequestOf(s, l);
  }

  lemma LossIsLinked(s: System, survives: bool)
    requires Linked(s)
    ensures Linked(AfterLoss(s, survives))
  {
    RowsStay(s, AfterLoss(s, survives));
    assert forall l: Id :: RequestOf(AfterLoss(s, survives), l) == RequestOf(s, l);
  }

  lemma ElsewhereIsLinked(s: System, step: Step, now: int)
    requires Linked(s) && CanHappen(s, Elsewhere(step))
    ensures Linked(Next(s, Elsewhere(step), now))
  {
    OtherStepsKeepRows(s.world, step, now);
    RowsStay(s, Next(s, Elsewhere(step), now));
  }

  lemma NextIsLinked(s: System, act: Act, now: int)
    requires Linked(s) && CanHappen(s, act)
    ensures Linked(Next(s, act, now))
  {
    match act
    case Publish(_) => RowsStay(s, Next(s, act, now));
    case Deliver(m) => DeliveryIsLinked(s, m);
    case Work(step, unplaced) =>
      if step.Check? {
        CheckIsLinked(s, step, unplaced, now);
      } else if step.Claim? {
        ClaimIsLinked(s, step, unplaced, now);
      } else {
        InsertIsLinked(s, step, unplaced, now);
      }
    case Settle(k, fails) => SettlingIsLinked(s, k, fails);
    case Lose(survives) => LossIsLinked(s, survives);
    case Elsewhere(step) => ElsewhereIsLinked(s, step, now);
  }

  lemma {:induction false} HistoryIsLinked(s: System, turns: seq<Turn>)
    requires Linked(s) && IsHistory(s, turns)
    ensures Linked(Finally(s, turns))
    decreases |turns|
  {
    if turns != [] {
      NextIsLinked(s, turns[0].act, turns[0].now);
      HistoryIsLinked(Next(s, turns[0].act, turns[0].now), turns[1..]);
    }
  }

  /** Over any history, redeliveries and outliving handlers included: an answer that names a reservation
      names a row that this handling inserted for the user and branch of its message; every row was
      inserted by a handling, by no two, and no handling inserted two; no handling answers twice. */
  lemma AnswersAreTrue(start: System, turns: seq<Turn>)
    requires Empty(start) && IsHistory(start, turns)
    ensures var s := Finally(start, turns);
      && (forall a <- s.answers :: a.outcome.Created? ==>
            && a.handling in s.made && s.made[a.handling] == a.outcome.reservation
            && IsRowOf(s, a.handling, a.outcome.reservation))
      && s.made.Values == s.world.db.reservations.Keys
      && (forall k, l | k in s.made && l in s.made :: s.made[k] == s.made[l] ==> k == l)
      && (forall i, j | 0 <= i < j < |s.answers| :: s.answers[i].handling != s.answers[j].handling)
  {
    EmptyIsLinked(start);
    HistoryIsLinked(start, turns);
    var s := Finally(start, turns);
    assert forall k <- s.made :: IsRowOf(s, k, s.made[k]);
  }
}
