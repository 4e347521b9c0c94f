/** Charging a session, in cents: one call, with the first payment and the top-up. */
module Payments {
  import opened Options
  import opened Pricing
  import opened Parking

  const TOLERANCE := 1

  /** A quote of the backend for a session at some moment. */
  datatype Quote = Quote(session: Id, user: Id, branch: Id, amount: int)

  datatype Payment = Payment(
    user: Id, branch: Id, amount: int, approved: bool, references: seq<nat>, paidAt: Option<int>)

  /** One attempt to charge. */
  datatype Charge = Charge(amount: int, approved: bool)

  // ---- One call -------------------------------------------------------------------------

  /** What a call has to charge: everything if nothing was paid yet, else what is missing beyond the
      tolerance. */
  function Due(p: Option<Payment>, amount: int): Option<int> {
    if p.None? then Some(amount)
    else if amount - p.value.amount <= TOLERANCE then None
    else Some(amount - p.value.amount)
  }

  /** The stored payment after the charge of what is due. */
  function AfterCharge(p: Option<Payment>, q: Quote, approved: bool, reference: nat, now: int): Payment
    requires Due(p, q.amount).Some?
  {
    if p.None? then
      Payment(q.user, q.branch, q.amount, approved, [reference], if approved then Some(now) else None)
    else if !approved then p.value
    else p.value.(amount := p.value.amount + (q.amount - p.value.amount), approved := true,
                  references := p.value.references + [reference], paidAt := Some(now))
  }

  class PaymentTable {
    var rows: map<Id, Payment>

    constructor ()
      ensures rows == map[]
    {
      rows := map[];
    }

    method Create(session: Id, p: Payment)
      requires session !in rows
      modifies this
      ensures rows == old(rows)[session := p]
    {
      rows := rows[session := p];
    }

    method IncreaseAmount(session: Id, additional: int, reference: nat, now: int)
      requires session in rows
      modifies this
      ensures var p := old(rows)[session];
        rows == old(rows)[session := p.(amount := p.amount + additional, approved := true,
                                        references := p.references + [reference], paidAt := Some(now))]
    {
      var p := rows[session];
      rows := rows[session := p.(amount := p.amount + additional, approved := true,
                                 references := p.references + [reference], paidAt := Some(now))];
    }
  }

  /** The payment methods behind the router: all of them decide on the amount alone. */
  class Gateway {
    var charges: seq<Charge>
    const approves: int -> bool

    constructor (approves: int -> bool)
      ensures charges == [] && this.approves == approves
    {
      charges, this.approves := [], approves;
    }

    method DoCharge(amount: int) returns (approved: bool)
      modifies this
      ensures approved == approves(amount)
      ensures charges == old(charges) + [Charge(amount, approved)]
    {
      approved := approves(amount);
      charges := charges + [Charge(amount, approved)];
    }
  }

  class RegisterPayment {
    const payments: PaymentTable
    const gateway: Gateway

    constructor (payments: PaymentTable, gateway: Gateway)
      ensures this.payments == payments && this.gateway == gateway
    {
      this.payments, this.gateway := payments, gateway;
    }

    ghost function Stored(session: Id): Option<Payment>
      reads payments
    {
      if session in payments.rows then Some(payments.rows[session]) else None
    }

    /** One pay call, for the quote the backend gave. */
    method Execute(q: Quote, user: Id, reference: nat, now: int) returns (error: Option<Error>)
      modifies payments, gateway
      ensures error == if q.user != user then Some(NotFound) else None
      ensures var due := Due(old(Stored(q.session)), q.amount);
        if error.Some? || due.None? then payments.rows == old(payments.rows) && gateway.charges == old(gateway.charges)
        else
          var approved := gateway.approves(due.value);
          && gateway.charges == old(gateway.charges) + [Charge(due.value, approved)]
          && payments.rows ==
               old(payments.rows)[q.session := AfterCharge(old(Stored(q.session)), q, approved, reference, now)]
    {
      if q.user != user {
        return Some(NotFound);
      }
      if q.session in payments.rows {
        TopUpIfInsufficient(q, reference, now);
        return None;
      }
      var approved := gateway.DoCharge(q.amount);
      payments.Create(q.session,
        Payment(q.user, q.branch, q.amount, approved, [reference], if approved then Some(now) else None));
      return None;
    }

    method TopUpIfInsufficient(q: Quote, reference: nat, now: int)
      requires q.session in payments.rows
      modifies payments, gateway
      ensures var due := Due(old(Stored(q.session)), q.amount);
        if due.None? then payments.rows == old(payments.rows) && gateway.charges == old(gateway.charges)
        else
          var approved := gateway.approves(due.value);
          && gateway.charges == old(gateway.charges) + [Charge(due.value, approved)]
          && payments.rows ==
               old(payments.rows)[q.session := AfterCharge(old(Stored(q.session)), q, approved, reference, now)]
    {
      var missing := q.amount - payments.rows[q.session].amount;
      if missing <= TOLERANCE {
        return;
      }
      var approved := gateway.DoCharge(missing);
      if !approved {
        return;
      }
      payments.IncreaseAmount(q.session, missing, reference, now);
    }
  }

  /** What a call that nothing overlaps makes of the stored payment. */
  function AfterCall(p: Option<Payment>, q: Quote, approved: bool, reference: nat, now: int): Option<Payment> {
    if Due(p, q.amount).None? then p else Some(AfterCharge(p, q, approved, reference, now))
  }

  /** What a call leaves behind covers its quote but for a cent, if it was approved; a refused top-up
      changes nothing, and a refused first charge is stored as refused. */
  lemma CallCovers(p: Option<Payment>, q: Quote, approved: bool, reference: nat, now: int)
    ensures var p' := AfterCall(p, q, approved, reference, now);
      && (p' != p ==>
            && p'.Some? && p'.value.amount == q.amount && p'.value.approved == approved
            && p'.value.references == (if p.Some? then p.value.references else []) + [reference]
            && p'.value.paidAt == if approved then Some(now) else None)
      && (p' != p && p.None? ==> p'.value.user == q.user && p'.value.branch == q.branch)
      && (p' != p && p.Some? ==> approved && p'.value.user == p.value.user && p'.value.branch == p.value.branch)
      && (approved ==> p'.Some? && q.amount - p'.value.amount <= 1)
  {}

  /** A second call within the same billed hour finds nothing due, unless the first one was a top-up that
      was refused: a refused first charge is not tried again before the price rises. */
  lemma SameHourChargesOnce(
    p: Option<Payment>, first: Quote, again: Quote, approved: bool, reference: nat, now: int, entryAt: int,
    pricePerHour: int, t1: int, t2: int)
    requires first.amount == Price(pricePerHour, entryAt, t1) && again.amount == Price(pricePerHour, entryAt, t2)
    requires BillableHours(entryAt, t1) == BillableHours(entryAt, t2)
    ensures var onlyOnce := approved || p.None? || Due(p, first.amount).None?;
      Due(AfterCall(p, first, approved, reference, now), again.amount).None? <==> onlyOnce
  {}
}
