/** The hourly tariff of a branch, in cents. */
module Pricing {

  const MS_PER_HOUR := 3_600_000

  function Max(a: int, b: int): int {
    if a < b then b else a
  }

  /** `Math.ceil(n / MS_PER_HOUR)` for a duration. */
  function CeilHours(durationMs: nat): nat {
    (durationMs + MS_PER_HOUR - 1) / MS_PER_HOUR
  }

  function BillableHours(entryAt: int, exitAt: int): int {
    Max(CeilHours(Max(exitAt - entryAt, 0)), 1)
  }

  function Price(pricePerHour: int, entryAt: int, exitAt: int): int {
    BillableHours(entryAt, exitAt) * pricePerHour
  }

  /** An hour begun is billed, no hour is billed before it begins, and a stay of any length is
      billed at least one hour. */
  lemma BilledHours(entryAt: int, exitAt: int, hours: int)
    requires hours >= 1
    ensures BillableHours(entryAt, exitAt) == hours
       <==> (hours == 1 || entryAt + (hours - 1) * MS_PER_HOUR < exitAt) && exitAt <= entryAt + hours * MS_PER_HOUR
  {}

  /** The first hour costs the hourly price, however little of it was used. */
  lemma FirstHourPrice(pricePerHour: int, entryAt: int, exitAt: int)
    requires exitAt <= entryAt + 3_600_000
    ensures Price(pricePerHour, entryAt, exitAt) == pricePerHour
  {
    assert BillableHours(entryAt, exitAt) == 1;
  }

  /** Every further hour costs the hourly price again. */
  lemma FurtherHoursPrice(pricePerHour: int, entryAt: int, exitAt: int, hours: nat)
    requires exitAt > entryAt
    ensures Price(pricePerHour, entryAt, exitAt + hours * 3_600_000)
         == Price(pricePerHour, entryAt, exitAt) + hours * pricePerHour
  {
    FurtherHours(entryAt, exitAt, hours);
    assert (BillableHours(entryAt, exitAt) + hours) * pricePerHour
        == BillableHours(entryAt, exitAt) * pricePerHour + hours * pricePerHour;
  }

  lemma {:induction false} FurtherHours(entryAt: int, exitAt: int, hours: nat)
    requires exitAt > entryAt
    ensures BillableHours(entryAt, exitAt + hours * 3_600_000) == BillableHours(entryAt, exitAt) + hours
    decreases hours
  {
    if hours > 0 {
      FurtherHours(entryAt, exitAt, hours - 1);
      assert hours * 3_600_000 == (hours - 1) * 3_600_000 + 3_600_000;
    }
  }

  /** The price never falls as time passes. */
  lemma PriceIsMonotone(pricePerHour: int, entryAt: int, exitAt: int, later: int)
    requires pricePerHour >= 0 && exitAt <= later
    ensures Price(pricePerHour, entryAt, exitAt) <= Price(pricePerHour, entryAt, later)
  {
    var a, b := BillableHours(entryAt, exitAt), BillableHours(entryAt, later);
    assert a <= b;
    assert (b - a) * pricePerHour >= 0;
  }
}
