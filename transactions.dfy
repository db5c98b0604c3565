/**
 * The input of the position-snapshot engine: the buy and sell records of one
 * instrument, with the small vocabulary every later step shares (the
 * (Date, Id) order, the calendar-day projection and Math.Sign).
 */
module Transactions {

  datatype Option<T> = None | Some(value: T)

  /** Operation codes of a security transaction: a buy is -1, a sell is +1. */
  const Buy: int := -1
  const Sell: int := 1

  /** DateTime ticks (100 ns each) in one calendar day. */
  const TicksPerDay: nat := 864_000_000_000

  /**
   * A security transaction log record, reduced to the fields the engine reads.
   * `Id` is the rank of the record's identifier in the order the identifiers
   * sort in; `Date` is the timestamp in ticks. The caller fills in
   * `CategoryMultiplier` from reference data (1 when there is none).
   */
  datatype Transaction = Transaction(
    Id: nat,
    Date: nat,
    OperationId: int,
    ProductCategoryId: int,
    ProductId: int,
    Quantity: int,
    Price: real,
    Fees: real,
    CategoryMultiplier: real)

  /** The calendar day of a timestamp (what `DateTime.Date` keeps), as a day number. */
  function Day(date: nat): (d: nat)
    ensures d * TicksPerDay <= date < (d + 1) * TicksPerDay
  {
    date / TicksPerDay
  }

  /** `a` comes no later than `b` in (Date, Id) order. */
  predicate KeyLe(a: Transaction, b: Transaction)
  {
    a.Date < b.Date || (a.Date == b.Date && a.Id <= b.Id)
  }

  /** A later timestamp never falls on an earlier day. */
  lemma DayMonotone(a: nat, b: nat)
    requires a <= b
    ensures Day(a) <= Day(b)
  {
  }

  /** Math.Sign on integers. */
  function Sign(x: int): (s: int)
    ensures -1 <= s <= 1
    ensures s > 0 <==> x > 0
    ensures s < 0 <==> x < 0
  {
    if x > 0 then 1 else if x < 0 then -1 else 0
  }
}
