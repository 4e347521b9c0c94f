/** Paying for a session over its whole life, across the two services.

    A pay call waits for its quote, for the look-up of the stored payment, for the charge and for the
    two statements of the store; quotes, calls and exits interleave at those points. */
module PaymentRuns {
  import opened Options
  import opened Pricing
  import opened Parking
  import opened Payments

  /** A call under way: it looked the payment up and something is due; it charged; it read the row again
      to raise its amount. */
  datatype Call =
    | Looked(quote: Quote, seen: Option<Payment>, at: int)
    | Charged(quote: Quote, seen: Option<Payment>, at: int, approved: bool, reference: nat)
    | Read(quote: Quote, seen: Option<Payment>, at: int, reference: nat, row: Payment)

  /** A session between the services: when it was left, the payment stored for it and the amount of the
      charge it was created with if that was refused, the quotes given, the charges made and the calls
      under way. */
  datatype Stay = Stay(
    exitAt: Option<int>, clock: int, payment: Option<Payment>, refused: int, quotes: seq<Quote>,
    charges: seq<Charge>, calls: map<Id, Call>)

  datatype Terms = Terms(session: Id, user: Id, branch: Id, entryAt: int, pricePerHour: int)

  datatype Step =
    | AskQuote(now: int)
    | Look(call: Id, quote: nat, now: int)
    | MakeCharge(call: Id, approved: bool, reference: nat, now: int)
    | ReadAgain(call: Id, now: int)
    | Store(call: Id, now: int)
    | Abandon(call: Id, now: int)
    | TryExit(now: int)

  function Start(now: int): Stay {
    Stay(None, now, None, 0, [], [], map[])
  }

  /** The price at a moment: the time counts only until the exit. */
  function PriceAt(t: Terms, s: Stay, now: int): int {
    Price(t.pricePerHour, t.entryAt, if s.exitAt.Some? then s.exitAt.value else now)
  }

  function Seen(p: Option<Payment>): Option<PaymentView> {
    if p.None? then None else Some(PaymentView(p.value.approved, p.value.amount))
  }

  /** What a call has to charge. */
  function Owed(call: Call): int {
    if Due(call.seen, call.quote.amount).Some? then Due(call.seen, call.quote.amount).value else 0
  }

  /** What a call has collected and not stored yet. */
  function Held(call: Call): int {
    if call.Read? || (call.Charged? && call.approved) then Owed(call) else 0
  }

  predicate Enabled(s: Stay, step: Step) {
    && step.now >= s.clock
    && match step
       case Look(k, q, _) => k !in s.calls && q < |s.quotes|
       case MakeCharge(k, _, _, _) => k in s.calls && s.calls[k].Looked?
       case ReadAgain(k, _) =>
         k in s.calls && s.calls[k].Charged? && s.calls[k].approved && s.calls[k].seen.Some? && s.payment.Some?
       case Store(k, _) => k in s.calls && (s.calls[k].Read? || (s.calls[k].Charged? && s.calls[k].seen.None?))
       case Abandon(k, _) => k in s.calls
       case _ => true
  }

  function Apply(t: Terms, s: Stay, step: Step): Stay
    requires Enabled(s, step)
  {
    var s' := s.(clock := step.now);
    match step
    case AskQuote(now) => s'.(quotes := s.quotes + [Quote(t.session, t.user, t.branch, PriceAt(t, s, now))])
    case Look(k, q, now) =>
      if Due(s.payment, s.quotes[q].amount).None? then s'
      else s'.(calls := s.calls[k := Looked(s.quotes[q], s.payment, now)])
    case MakeCharge(k, approved, reference, _) => AfterMaking(s', k, approved, reference)
    case ReadAgain(k, _) =>
      var c := s.calls[k];
      s'.(calls := s.calls[k := Read(c.quote, c.seen, c.at, c.reference, s.payment.value)])
    case Store(k, _) => AfterStoring(s', k)
    case Abandon(k, _) => s'.(calls := s.calls - {k})
    case TryExit(now) =>
      if s.exitAt.None? && PaymentError(Seen(s.payment), PriceAt(t, s, now)).None? then s'.(exitAt := Some(now)) else s'
  }

  /** A refused top-up ends its call; a refused first charge is stored. */
  function AfterMaking(s: Stay, k: Id, approved: bool, reference: nat): Stay
    requires k in s.calls && s.calls[k].Looked?
  {
    var c := s.calls[k];
    s.(charges := s.charges + [Charge(Owed(c), approved)],
       calls := if c.seen.Some? && !approved then s.calls - {k}
                else s.calls[k := Charged(c.quote, c.seen, c.at, approved, reference)])
  }

  /** An insert meets the unique key if there is a payment by now; a raise writes the row that was read,
      with the new amount. */
  function AfterStoring(s: Stay, k: Id): Stay
    requires k in s.calls && (s.calls[k].Read? || (s.calls[k].Charged? && s.calls[k].seen.None?))
  {
    var c := s.calls[k];
    var rest := s.(calls := s.calls - {k});
    if c.Read? then
      rest.(payment := Some(c.row.(amount := c.row.amount + Owed(c), approved := true,
                                   references := c.row.references + [c.reference], paidAt := Some(c.at))))
    else if s.payment.Some? then rest
    else rest.(payment := AfterCall(None, c.quote, c.approved, c.reference, c.at),
               refused := if c.approved then 0 else c.quote.amount)
  }

  function Collected(charges: seq<Charge>): int {
    if charges == [] then 0
    else
      var last := charges[|charges| - 1];
      Collected(charges[..|charges| - 1]) + (if last.approved then last.amount else 0)
  }

  lemma OneMoreCollected(charges: seq<Charge>, c: Charge)
    ensures Collected(charges + [c]) == Collected(charges) + (if c.approved then c.amount else 0)
  {
    var all := charges + [c];
    assert all[|all| - 1] == c && all[..|all| - 1] == charges;
  }

  // ---- Runs -----------------------------------------------------------------------------

  ghost predicate IsRun(t: Terms, s: Stay, steps: seq<Step>)
    decreases |steps|
  {
    steps != [] ==> Enabled(s, steps[0]) && IsRun(t, Apply(t, s, steps[0]), steps[1..])
  }

  ghost function After(t: Terms, s: Stay, steps: seq<Step>): Stay
    requires IsRun(t, s, steps)
    decreases |steps|
  {
    if steps == [] then s else After(t, Apply(t, s, steps[0]), steps[1..])
  }

  /** No call looks while another is under way, and none ends with something collected but not stored. */
  predicate IsOrderly(s: Stay, step: Step) {
    (step.Look? ==> s.calls == map[]) && (step.Abandon? && step.call in s.calls ==> Held(s.calls[step.call]) == 0)
  }

  ghost predicate AllOrderly(t: Terms, s: Stay, steps: seq<Step>)
    requires IsRun(t, s, steps)
    decreases |steps|
  {
    steps != [] ==> IsOrderly(s, steps[0]) && AllOrderly(t, Apply(t, s, steps[0]), steps[1..])
  }

  lemma {:induction false} RunOfParts(t: Terms, s: Stay, first: seq<Step>, second: seq<Step>)
    ensures IsRun(t, s, first + second) <==> IsRun(t, s, first) && IsRun(t, After(t, s, first), second)
    ensures IsRun(t, s, first + second) ==>
      && After(t, s, first + second) == After(t, After(t, s, first), second)
      && (AllOrderly(t, s, first + second) <==> AllOrderly(t, s, first) && AllOrderly(t, After(t, s, first), second))
    decreases |first|
  {
    if first == [] {
      assert first + second == second;
    } else {
      assert (first + second)[1..] == first[1..] + second;
      if Enabled(s, first[0]) {
        RunOfParts(t, Apply(t, s, first[0]), first[1..], second);
      }
    }
  }

  lemma RunOfOne(t: Terms, s: Stay, step: Step)
    requires Enabled(s, step)
    ensures IsRun(t, s, [step]) && After(t, s, [step]) == Apply(t, s, step)
    ensures AllOrderly(t, s, [step]) <==> IsOrderly(s, step)
  {
    assert [step][1..] == [];
    assert IsRun(t, Apply(t, s, step), []) && After(t, Apply(t, s, step), []) == Apply(t, s, step);
  }

  // ---- What is in flight ----------------------------------------------------------------

  /** What the calls under way have collected and not stored yet. */
  ghost function InFlight(calls: map<Id, Call>): int {
    if calls == map[] then 0
    else
      var k :| k in calls;
      Held(calls[k]) + InFlight(calls - {k})
  }

  lemma {:induction false} OneLessInFlight(calls: map<Id, Call>, k: Id)
    requires k in calls
    ensures InFlight(calls) == Held(calls[k]) + InFlight(calls - {k})
    decreases |calls|
  {
    var l :| l in calls && InFlight(calls) == Held(calls[l]) + InFlight(calls - {l});
    if l != k {
      OneLessInFlight(calls - {l}, k);
      OneLessInFlight(calls - {k}, l);
      assert calls - {l} - {k} == calls - {k} - {l};
    }
  }

  lemma CallChanged(calls: map<Id, Call>, k: Id, call: Call)
    ensures InFlight(calls[k := call]) == Held(call) + InFlight(calls - {k})
  {
    OneLessInFlight(calls[k := call], k);
    assert calls[k := call] - {k} == calls - {k};
  }

  // ---- Conservation, for any interleaving and any decisions -----------------------------

  function StoredAmount(s: Stay): int {
    if s.payment.None? then 0 else s.payment.value.amount
  }

  /** What was collected is stored or in flight; a refused first charge is stored besides. */
  ghost predicate Balanced(s: Stay) {
    StoredAmount(s) == Collected(s.charges) - InFlight(s.calls) + s.refused
  }

  /** A step that loses count of money: an insert that comes after another call's, a raise of a row that
      was written since it was read, or the end of a call that had collected something. */
  predicate Loses(s: Stay, step: Step) {
    match step
    case Store(k, _) =>
      k in s.calls &&
        if s.calls[k].Read? then StoredAmount(s) != s.calls[k].row.amount
        else s.payment.Some? && Held(s.calls[k]) != 0
    case Abandon(k, _) => k in s.calls && Held(s.calls[k]) != 0
    case _ => false
  }

  /** No payment, nothing of it refused. */
  predicate IsFresh(s: Stay) {
    s.payment.None? ==> s.refused == 0
  }

  lemma ChargeBalances(s: Stay, k: Id, approved: bool, reference: nat)
    requires Balanced(s) && k in s.calls && s.calls[k].Looked?
    ensures Balanced(AfterMaking(s, k, approved, reference))
  {
    var c := s.calls[k];
    OneMoreCollected(s.charges, Charge(Owed(c), approved));
    OneLessInFlight(s.calls, k);
    CallChanged(s.calls, k, Charged(c.quote, c.seen, c.at, approved, reference));
  }

  lemma StoreBalancesExactly(s: Stay, k: Id, now: int)
    requires Balanced(s) && IsFresh(s) && Enabled(s, Store(k, now))
    ensures Balanced(AfterStoring(s, k)) <==> !Loses(s, Store(k, now))
  {
    OneLessInFlight(s.calls, k);
  }

  /** A step keeps the balance exactly if it is none of those. */
  lemma StepBalancesExactly(t: Terms, s: Stay, step: Step)
    requires Balanced(s) && IsFresh(s) && Enabled(s, step)
    ensures IsFresh(Apply(t, s, step))
    ensures Balanced(Apply(t, s, step)) <==> !Loses(s, step)
  {
    var s' := s.(clock := step.now);
    match step
    case Look(k, q, now) =>
      CallChanged(s.calls, k, Looked(s.quotes[q], s.payment, now));
      assert s.calls - {k} == s.calls;
    case MakeCharge(k, approved, reference, _) => ChargeBalances(s', k, approved, reference);
    case ReadAgain(k, _) =>
      OneLessInFlight(s.calls, k);
      CallChanged(s.calls, k, Apply(t, s, step).calls[k]);
    case Store(k, now) => StoreBalancesExactly(s', k, now);
    case Abandon(k, _) => OneLessInFlight(s.calls, k);
    case _ =>
  }

  ghost predicate NothingIsLost(t: Terms, s: Stay, steps: seq<Step>)
    requires IsRun(t, s, steps)
    decreases |steps|
  {
    steps != [] ==> !Loses(s, steps[0]) && NothingIsLost(t, Apply(t, s, steps[0]), steps[1..])
  }

  ghost predicate BalancedThroughout(t: Terms, s: Stay, steps: seq<Step>)
    requires IsRun(t, s, steps)
    decreases |steps|
  {
    Balanced(s) && (steps != [] ==> BalancedThroughout(t, Apply(t, s, steps[0]), steps[1..]))
  }

  /** For any number of calls, any decisions of the payment methods and any interleaving: what was
      collected is stored or in flight throughout a run exactly when no step loses any of it. */
  lemma {:induction false} BalancedExactly(t: Terms, s: Stay, steps: seq<Step>)
    requires Balanced(s) && IsFresh(s) && IsRun(t, s, steps)
    ensures BalancedThroughout(t, s, steps) <==> NothingIsLost(t, s, steps)
    decreases |steps|
  {
    if steps != [] {
      StepBalancesExactly(t, s, steps[0]);
      if Balanced(Apply(t, s, steps[0])) {
        BalancedExactly(t, Apply(t, s, steps[0]), steps[1..]);
      }
    }
  }

  lemma StartIsBalanced(now: int)
    ensures Balanced(Start(now)) && IsFresh(Start(now))
  {}

  // ---- Calls one at a time --------------------------------------------------------------

  function LatestQuote(s: Stay): int {
    if s.quotes == [] then 0 else s.quotes[|s.quotes| - 1].amount
  }

  /** What the one call under way saw is still so, and something is due. */
  predicate IsCurrent(s: Stay, call: Call) {
    && call.seen == s.payment && Due(call.seen, call.quote.amount).Some?
    && (call.Read? ==> s.payment == Some(call.row))
    && 0 <= call.quote.amount <= LatestQuote(s)
  }

  ghost predicate AtMostOne(s: Stay) {
    && (forall k, l | k in s.calls && l in s.calls :: k == l)
    && (forall k <- s.calls :: IsCurrent(s, s.calls[k]))
  }

  /** No quote and no stored amount exceeds the latest quote, nor that quote the price now. */
  ghost predicate Capped(t: Terms, s: Stay) {
    && LatestQuote(s) <= PriceAt(t, s, s.clock)
    && (forall q <- s.quotes :: 0 <= q.amount <= LatestQuote(s))
    && 0 <= StoredAmount(s) <= LatestQuote(s)
  }

  /** A session that was left had paid its price, but for the cent to spare, and no call is under way. */
  ghost predicate IsSettled(t: Terms, s: Stay) {
    s.exitAt.Some? ==>
      && s.payment.Some? && s.payment.value.approved
      && PriceAt(t, s, s.clock) - OVERSTAY_TOLERANCE <= s.payment.value.amount
      && s.calls == map[]
  }

  ghost predicate Inv(t: Terms, s: Stay) {
    Balanced(s) && IsFresh(s) && AtMostOne(s) && Capped(t, s) && IsSettled(t, s)
  }

  lemma StartHolds(t: Terms, now: int)
    requires t.pricePerHour >= 0
    ensures Inv(t, Start(now))
  {
    PriceIsNotNegative(t, Start(now), now);
  }

  lemma PriceKeepsRising(t: Terms, s: Stay, step: Step)
    requires t.pricePerHour >= 0 && Enabled(s, step)
    ensures PriceAt(t, s, s.clock) <= PriceAt(t, s, step.now) == PriceAt(t, Apply(t, s, step), step.now)
    ensures Apply(t, s, step).clock == step.now
  {
    if s.exitAt.None? {
      PriceIsMonotone(t.pricePerHour, t.entryAt, s.clock, step.now);
    }
  }

  lemma QuoteKeeps(t: Terms, s: Stay, now: int)
    requires t.pricePerHour >= 0 && Inv(t, s) && now >= s.clock
    ensures Inv(t, Apply(t, s, AskQuote(now)))
  {
    var s' := Apply(t, s, AskQuote(now));
    PriceKeepsRising(t, s, AskQuote(now));
    PriceIsNotNegative(t, s, now);
    forall q <- s'.quotes
      ensures 0 <= q.amount <= LatestQuote(s')
    {
      assert q in s.quotes || q == s'.quotes[|s.quotes|];
    }
  }

  lemma PriceIsNotNegative(t: Terms, s: Stay, now: int)
    requires t.pricePerHour >= 0
    ensures PriceAt(t, s, now) >= 0
  {
    var h := BillableHours(t.entryAt, if s.exitAt.Some? then s.exitAt.value else now);
    assert h * t.pricePerHour >= 0;
  }

  lemma LookKeeps(t: Terms, s: Stay, k: Id, q: nat, now: int)
    requires t.pricePerHour >= 0 && Inv(t, s) && Enabled(s, Look(k, q, now)) && s.calls == map[]
    ensures Inv(t, Apply(t, s, Look(k, q, now)))
    ensures s.exitAt.Some? ==> Apply(t, s, Look(k, q, now)).calls == map[]
  {
    StepBalancesExactly(t, s, Look(k, q, now));
    PriceKeepsRising(t, s, Look(k, q, now));
    assert s.quotes[q] in s.quotes;
  }

  /** The one call under way: nothing was left, and what it saw is current. */
  lemma UnderWay(t: Terms, s: Stay, k: Id)
    requires Inv(t, s) && k in s.calls
    ensures s.exitAt.None? && IsCurrent(s, s.calls[k]) && s.calls - {k} == map[]
    ensures Owed(s.calls[k]) >= 0 && (s.payment.None? ==> Owed(s.calls[k]) == s.calls[k].quote.amount)
  {
    assert IsCurrent(s, s.calls[k]);
    assert forall l <- s.calls :: l == k;
  }

  lemma MakeChargeKeeps(t: Terms, s: Stay, step: Step)
    requires t.pricePerHour >= 0 && Inv(t, s) && Enabled(s, step) && step.MakeCharge?
    ensures Inv(t, Apply(t, s, step))
  {
    StepBalancesExactly(t, s, step);
    PriceKeepsRising(t, s, step);
    UnderWay(t, s, step.call);
  }

  lemma ReadKeeps(t: Terms, s: Stay, k: Id, now: int)
    requires t.pricePerHour >= 0 && Inv(t, s) && Enabled(s, ReadAgain(k, now))
    ensures Inv(t, Apply(t, s, ReadAgain(k, now)))
  {
    StepBalancesExactly(t, s, ReadAgain(k, now));
    PriceKeepsRising(t, s, ReadAgain(k, now));
    UnderWay(t, s, k);
  }

  lemma StoreKeeps(t: Terms, s: Stay, k: Id, now: int)
    requires t.pricePerHour >= 0 && Inv(t, s) && Enabled(s, Store(k, now))
    ensures Inv(t, Apply(t, s, Store(k, now)))
    ensures StoredAmount(s) <= StoredAmount(Apply(t, s, Store(k, now))) == s.calls[k].quote.amount
  {
    UnderWay(t, s, k);
    StepBalancesExactly(t, s, Store(k, now));
    PriceKeepsRising(t, s, Store(k, now));
  }

  lemma AbandonKeeps(t: Terms, s: Stay, k: Id, now: int)
    requires t.pricePerHour >= 0 && Inv(t, s) && Enabled(s, Abandon(k, now)) && Held(s.calls[k]) == 0
    ensures Inv(t, Apply(t, s, Abandon(k, now)))
  {
    StepBalancesExactly(t, s, Abandon(k, now));
    PriceKeepsRising(t, s, Abandon(k, now));
    UnderWay(t, s, k);
  }

  /** With something due no exit is granted, so none is granted while a call is under way. */
  lemma NoExitDuringCall(t: Terms, s: Stay, k: Id, now: int)
    requires t.pricePerHour >= 0 && Inv(t, s) && now >= s.clock && s.exitAt.None? && k in s.calls
    ensures PaymentError(Seen(s.payment), PriceAt(t, s, now)).Some?
  {
    PriceKeepsRising(t, s, TryExit(now));
    assert IsCurrent(s, s.calls[k]);
  }

  lemma ExitKeeps(t: Terms, s: Stay, now: int)
    requires t.pricePerHour >= 0 && Inv(t, s) && now >= s.clock
    ensures Inv(t, Apply(t, s, TryExit(now)))
  {
    PriceKeepsRising(t, s, TryExit(now));
    if s.exitAt.None? {
      forall k <- s.calls
        ensures PaymentError(Seen(s.payment), PriceAt(t, s, now)).Some?
      {
        NoExitDuringCall(t, s, k, now);
      }
      assert s.calls == map[] || PaymentError(Seen(s.payment), PriceAt(t, s, now)).Some?;
    }
  }

  lemma StepKeeps(t: Terms, s: Stay, step: Step)
    requires t.pricePerHour >= 0 && Inv(t, s) && Enabled(s, step) && IsOrderly(s, step)
    ensures Inv(t, Apply(t, s, step)) && StoredAmount(s) <= StoredAmount(Apply(t, s, step))
    ensures s.exitAt.Some? ==> Apply(t, s, step).charges == s.charges && Apply(t, s, step).exitAt == s.exitAt
  {
    match step
    case AskQuote(now) => QuoteKeeps(t, s, now);
    case TryExit(now) => ExitKeeps(t, s, now);
    case Look(k, q, now) => LookKeeps(t, s, k, q, now);
    case MakeCharge(k, _, _, _) =>
      UnderWay(t, s, k);
      MakeChargeKeeps(t, s, step);
    case ReadAgain(k, now) => ReadKeeps(t, s, k, now);
    case Store(k, now) => StoreKeeps(t, s, k, now);
    case Abandon(k, now) => AbandonKeeps(t, s, k, now);
  }

  /** In every run with calls one at a time, for any decisions of the payment methods, between quotes and
      exits in any order: the money is balanced, the stored amount never falls nor exceeds the latest quote,
      and after the exit no call charges. */
  lemma {:induction false} RunKeeps(t: Terms, s: Stay, steps: seq<Step>)
    requires t.pricePerHour >= 0 && Inv(t, s) && IsRun(t, s, steps) && AllOrderly(t, s, steps)
    ensures Inv(t, After(t, s, steps)) && StoredAmount(s) <= StoredAmount(After(t, s, steps))
    ensures s.exitAt.Some? ==> After(t, s, steps).charges == s.charges && After(t, s, steps).exitAt == s.exitAt
    decreases |steps|
  {
    if steps != [] {
      StepKeeps(t, s, steps[0]);
      RunKeeps(t, Apply(t, s, steps[0]), steps[1..]);
    }
  }

  /** So calls one at a time lose nothing: a call finds what it saw, and nobody else stores. */
  lemma {:induction false} OrderlyLosesNothing(t: Terms, s: Stay, steps: seq<Step>)
    requires t.pricePerHour >= 0 && Inv(t, s) && IsRun(t, s, steps) && AllOrderly(t, s, steps)
    ensures NothingIsLost(t, s, steps)
    decreases |steps|
  {
    if steps != [] {
      StepKeeps(t, s, steps[0]);
      StepBalancesExactly(t, s, steps[0]);
      OrderlyLosesNothing(t, Apply(t, s, steps[0]), steps[1..]);
    }
  }

  /** What the exit makes sure of for any decisions of the payment methods: what was collected and the
      refused first charge together are the price or one cent less.  So the price was collected to the
      cent exactly when that charge was approved or for nothing, or was for the cent to spare in a
      payment that covers the whole price. */
  lemma ReleaseIsCollectedExactly(t: Terms, now: int, before: seq<Step>, exit: Step)
    requires t.pricePerHour >= 0 && exit.TryExit?
    requires IsRun(t, Start(now), before) && AllOrderly(t, Start(now), before)
    requires Enabled(After(t, Start(now), before), exit) && After(t, Start(now), before).exitAt.None?
    requires Apply(t, After(t, Start(now), before), exit).exitAt.Some?
    ensures var s := After(t, Start(now), before);
      var price := Price(t.pricePerHour, t.entryAt, exit.now);
      && s.payment.Some? && s.payment.value.approved && s.calls == map[]
      && s.payment.value.amount == Collected(s.charges) + s.refused
      && price - OVERSTAY_TOLERANCE <= s.payment.value.amount <= price
      && (price - OVERSTAY_TOLERANCE <= Collected(s.charges) <==>
            || s.refused <= 0
            || (s.refused == OVERSTAY_TOLERANCE && s.payment.value.amount == price))
  {
    StartHolds(t, now);
    RunKeeps(t, Start(now), before);
    var s := After(t, Start(now), before);
    StepKeeps(t, s, exit);
    PriceKeepsRising(t, s, exit);
    assert InFlight(map[]) == 0;
  }

  // ---- With payment methods that approve exactly positive amounts -------------------------

  /** The decision of every payment method of the repository: refuse only what is not positive. */
  predicate Decides(s: Stay, step: Step) {
    step.MakeCharge? && step.call in s.calls ==> (step.approved <==> Owed(s.calls[step.call]) > 0)
  }

  ghost predicate AllDecide(t: Terms, s: Stay, steps: seq<Step>)
    requires IsRun(t, s, steps)
    decreases |steps|
  {
    steps != [] ==> Decides(s, steps[0]) && AllDecide(t, Apply(t, s, steps[0]), steps[1..])
  }

  /** Quotes are positive and no charge was refused. */
  ghost predicate Fair(s: Stay) {
    && (forall q <- s.quotes :: q.amount > 0)
    && s.refused == 0
    && (forall c <- s.charges :: c.approved)
    && (forall k <- s.calls :: Owed(s.calls[k]) > 0 && (s.calls[k].Charged? ==> s.calls[k].approved))
  }

  lemma PriceIsPositive(t: Terms, s: Stay, now: int)
    requires t.pricePerHour > 0
    ensures PriceAt(t, s, now) > 0
  {
    var h := BillableHours(t.entryAt, if s.exitAt.Some? then s.exitAt.value else now);
    assert (h - 1) * t.pricePerHour >= 0;
  }

  lemma StepIsFair(t: Terms, s: Stay, step: Step)
    requires t.pricePerHour > 0 && Fair(s) && Enabled(s, step) && Decides(s, step)
    ensures Fair(Apply(t, s, step))
  {
    var s' := Apply(t, s, step);
    PriceIsPositive(t, s, step.now);
    if step.AskQuote? {
      assert forall q <- s'.quotes :: q in s.quotes || q == s'.quotes[|s.quotes|];
    } else if step.Look? {
      assert s.quotes[step.quote] in s.quotes;
    } else if step.MakeCharge? {
      assert forall c <- s'.charges :: c in s.charges || c == s'.charges[|s.charges|];
    }
  }

  /** Then no charge of any call is refused, however the calls interleave. */
  lemma {:induction false} RunIsFair(t: Terms, s: Stay, steps: seq<Step>)
    requires t.pricePerHour > 0 && Fair(s) && IsRun(t, s, steps) && AllDecide(t, s, steps)
    ensures Fair(After(t, s, steps))
    decreases |steps|
  {
    if steps != [] {
      StepIsFair(t, s, steps[0]);
      RunIsFair(t, Apply(t, s, steps[0]), steps[1..]);
    }
  }

  /** What a released session has paid: it is approved, it was collected to the cent, it is the price at
      the exit or one cent less, and whatever calls come later charge nothing. */
  lemma ReleasedSessionHasPaid(t: Terms, now: int, before: seq<Step>, exit: Step, later: seq<Step>)
    requires t.pricePerHour > 0 && exit.TryExit?
    requires IsRun(t, Start(now), before) && AllOrderly(t, Start(now), before) && AllDecide(t, Start(now), before)
    requires Enabled(After(t, Start(now), before), exit) && After(t, Start(now), before).exitAt.None?
    requires var left := Apply(t, After(t, Start(now), before), exit);
      left.exitAt.Some? && IsRun(t, left, later) && AllOrderly(t, left, later)
    ensures var left := Apply(t, After(t, Start(now), before), exit);
      var price := Price(t.pricePerHour, t.entryAt, exit.now);
      && left.payment.Some? && left.payment.value.approved
      && price - 1 <= left.payment.value.amount <= price
      && left.payment.value.amount == Collected(left.charges)
      && After(t, left, later).charges == left.charges
  {
    var s := After(t, Start(now), before);
    ReleaseIsCollectedExactly(t, now, before, exit);
    RunIsFair(t, Start(now), before);
    StartHolds(t, now);
    RunKeeps(t, Start(now), before);
    StepKeeps(t, s, exit);
    RunKeeps(t, Apply(t, s, exit), later);
  }

  // ---- One call alone, and two that overlap ---------------------------------------------

  /** A run extended by a step. */
  lemma OneMoreStep(t: Terms, s: Stay, steps: seq<Step>, step: Step) returns (more: seq<Step>)
    requires IsRun(t, s, steps) && Enabled(After(t, s, steps), step)
    ensures more == steps + [step] && IsRun(t, s, more) && After(t, s, more) == Apply(t, After(t, s, steps), step)
    ensures AllOrderly(t, s, steps) && IsOrderly(After(t, s, steps), step) ==> AllOrderly(t, s, more)
  {
    more := steps + [step];
    RunOfOne(t, After(t, s, steps), step);
    RunOfParts(t, s, steps, [step]);
  }

  /** The stay after a call with something due that nothing overlaps. */
  function AfterAlone(s: Stay, q: Quote, approved: bool, reference: nat, now: int): Stay
    requires Due(s.payment, q.amount).Some?
  {
    s.(clock := now, payment := AfterCall(s.payment, q, approved, reference, now),
       refused := if s.payment.None? && !approved then q.amount else if s.payment.None? then 0 else s.refused,
       charges := s.charges + [Charge(Due(s.payment, q.amount).value, approved)])
  }

  /** A call that nothing overlaps does what one `Execute` does. */
  lemma AloneIsAtomic(t: Terms, s: Stay, q: nat, approved: bool, reference: nat, now: int) returns (steps: seq<Step>)
    requires s.calls == map[] && q < |s.quotes| && now >= s.clock && Due(s.payment, s.quotes[q].amount).Some?
    ensures IsRun(t, s, steps) && AllOrderly(t, s, steps)
    ensures After(t, s, steps) == AfterAlone(s, s.quotes[q], approved, reference, now)
  {
    steps := OneMoreStep(t, s, [], Look(0, q, now));
    steps := OneMoreStep(t, s, steps, MakeCharge(0, approved, reference, now));
    if s.payment.None? {
      steps := OneMoreStep(t, s, steps, Store(0, now));
    } else if approved {
      steps := OneMoreStep(t, s, steps, ReadAgain(0, now));
      steps := OneMoreStep(t, s, steps, Store(0, now));
    }
  }

  /** Paying opens the exit: after an approved call for the price of the moment, or with that much paid
      and approved before, an exit is granted as long as no further hour has begun. */
  lemma PayingOpensTheExit(t: Terms, s: Stay, q: nat, reference: nat, now: int, exit: Step)
    requires s.exitAt.None? && q < |s.quotes| && exit.TryExit? && exit.now >= now >= s.clock
    requires s.quotes[q].amount == Price(t.pricePerHour, t.entryAt, now)
    requires BillableHours(t.entryAt, exit.now) == BillableHours(t.entryAt, now)
    ensures
      var due := Due(s.payment, s.quotes[q].amount);
      var s' := if due.Some? then AfterAlone(s, s.quotes[q], true, reference, now) else s;
      Apply(t, s', exit).exitAt == Some(exit.now) <==> due.Some? || s.payment.value.approved
  {}

  /** Two first calls that overlap both charge the price, and the payment knows of one. */
  lemma OverlappingCallsChargeTwice(t: Terms, now: int) returns (steps: seq<Step>)
    requires t.pricePerHour > 0
    ensures var s0 := Start(now);
      && IsRun(t, s0, steps) && AllDecide(t, s0, steps)
      && var s := After(t, s0, steps);
         && s.calls == map[] && Collected(s.charges) == 2 * PriceAt(t, s0, now)
         && StoredAmount(s) == PriceAt(t, s0, now)
  {
    var s0 := Start(now);
    PriceIsPositive(t, s0, now);
    var s1 := Apply(t, s0, AskQuote(now));
    var s2 := Apply(t, s1, Look(0, 0, now));
    var s3 := Apply(t, s2, Look(1, 0, now));
    steps := BothCharge(t, s3, s1.quotes[0], now);
    steps := OneStepBefore(t, s2, Look(1, 0, now), s3, steps);
    steps := OneStepBefore(t, s1, Look(0, 0, now), s2, steps);
    steps := OneStepBefore(t, s0, AskQuote(now), s1, steps);
  }

  lemma BothCharge(t: Terms, s: Stay, q: Quote, now: int) returns (steps: seq<Step>)
    requires s.clock == now && s.payment.None? && s.charges == [] && q.amount > 0
    requires s.calls == map[0 := Looked(q, None, now), 1 := Looked(q, None, now)]
    ensures IsRun(t, s, steps) && AllDecide(t, s, steps)
    ensures var s' := After(t, s, steps);
      s'.calls == map[] && Collected(s'.charges) == 2 * q.amount && StoredAmount(s') == q.amount
  {
    var s1 := Apply(t, s, MakeCharge(0, true, 0, now));
    var s2 := Apply(t, s1, MakeCharge(1, true, 1, now));
    OneMoreCollected([], Charge(q.amount, true));
    OneMoreCollected(s1.charges, Charge(q.amount, true));
    assert s1.charges == [] + [Charge(q.amount, true)];
    steps := BothStore(t, s2, q, now);
    steps := OneStepBefore(t, s1, MakeCharge(1, true, 1, now), s2, steps);
    steps := OneStepBefore(t, s, MakeCharge(0, true, 0, now), s1, steps);
  }

  lemma BothStore(t: Terms, s: Stay, q: Quote, now: int) returns (steps: seq<Step>)
    requires s.clock == now && s.payment.None?
    requires s.calls == map[0 := Charged(q, None, now, true, 0), 1 := Charged(q, None, now, true, 1)]
    ensures IsRun(t, s, steps) && AllDecide(t, s, steps)
    ensures var s' := After(t, s, steps); s'.calls == map[] && s'.charges == s.charges && StoredAmount(s') == q.amount
  {
    var s1 := Apply(t, s, Store(0, now));
    var s2 := Apply(t, s1, Store(1, now));
    assert s2.calls == map[];
    steps := OneStepBefore(t, s1, Store(1, now), s2, []);
    steps := OneStepBefore(t, s, Store(0, now), s1, steps);
  }

  lemma OneStepBefore(t: Terms, s: Stay, step: Step, s': Stay, rest: seq<Step>) returns (steps: seq<Step>)
    requires Enabled(s, step) && s' == Apply(t, s, step) && IsRun(t, s', rest)
    ensures steps == [step] + rest && IsRun(t, s, steps) && After(t, s, steps) == After(t, s', rest)
    ensures Decides(s, step) && AllDecide(t, s', rest) ==> AllDecide(t, s, steps)
    ensures IsOrderly(s, step) && AllOrderly(t, s', rest) ==> AllOrderly(t, s, steps)
  {
    steps := [step] + rest;
    assert steps[1..] == rest;
  }

  /** With a payment method that refuses a positive first charge, calls one at a time: after an overstay
      the top-up approves the payment for the difference alone, and the session is released having paid
      for one of its two hours. */
  lemma RefusedFirstChargeIsForgiven(t: Terms) returns (steps: seq<Step>)
    requires t.pricePerHour > 1
    ensures IsRun(t, Start(t.entryAt), steps) && AllOrderly(t, Start(t.entryAt), steps)
    ensures var s := After(t, Start(t.entryAt), steps);
      && s.exitAt.Some? && Price(t.pricePerHour, t.entryAt, s.exitAt.value) == 2 * t.pricePerHour
      && Collected(s.charges) == t.pricePerHour
  {
    var early, late, p := t.entryAt, t.entryAt + MS_PER_HOUR + 1, t.pricePerHour;
    BilledHours(t.entryAt, early, 1);
    BilledHours(t.entryAt, late, 2);
    var s0 := Start(early);
    steps := OneMoreStep(t, s0, [], AskQuote(early));
    var s1 := After(t, s0, steps);
    var call := AloneIsAtomic(t, s1, 0, false, 0, early);
    RunOfParts(t, s0, steps, call);
    steps := OneMoreStep(t, s0, steps + call, AskQuote(late));
    var s2 := After(t, s0, steps);
    assert s2.quotes[1].amount == 2 * p && s2.payment.value.amount == p;
    call := AloneIsAtomic(t, s2, 1, true, 1, late);
    RunOfParts(t, s0, steps, call);
    steps := OneMoreStep(t, s0, steps + call, TryExit(late));
    CollectedOfTwo(Charge(p, false), Charge(p, true));
  }

  lemma CollectedOfTwo(a: Charge, b: Charge)
    ensures Collected([a, b]) == (if a.approved then a.amount else 0) + (if b.approved then b.amount else 0)
  {
    OneMoreCollected([], a);
    OneMoreCollected([a], b);
    assert [a, b] == [a] + [b] && [a] == [] + [a];
  }
}
