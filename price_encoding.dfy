/**
 * The unit value of a transaction's price. The bond future (product
 * category 3, product 5) is quoted in points and 32nds, `117.18` meaning
 * 117 points and 18/32; its price becomes a dollar value per contract, 1000
 * per point. Every other price is already a unit value.
 */
module PriceEncoding {
  import opened Transactions

  const BondFutureCategoryId: int := 3
  const BondFutureProductId: int := 5

  predicate IsBondFuture(categoryId: int, productId: int)
  {
    categoryId == BondFutureCategoryId && productId == BondFutureProductId
  }

  /** The encoded unit price the running totals are built from. */
  function UnitValue(price: real, categoryId: int, productId: int): (r: real)
    ensures !IsBondFuture(categoryId, productId) ==> r == price
    ensures IsBondFuture(categoryId, productId) ==>
              price.Floor as real * 1000.0 <= r < (price.Floor as real + 3.125) * 1000.0
    ensures IsBondFuture(categoryId, productId) && price == price.Floor as real ==> r == price * 1000.0
  {
    if IsBondFuture(categoryId, productId) then
      var points := price.Floor as real;
      (points + (price - points) * 100.0 / 32.0) * 1000.0
    else
      price
  }

  /** The unit value of one transaction. */
  function TxUnitValue(t: Transaction): real
  {
    UnitValue(t.Price, t.ProductCategoryId, t.ProductId)
  }

  /** The quote written `points.ticks`, with two digits of ticks. */
  function Quote(points: int, ticks: nat): real
    requires ticks < 100
  {
    points as real + ticks as real / 100.0
  }

  /**
   * The quote a unit value of the bond future stands for: whole points, and
   * the 32nds of the remainder written as hundredths. Not part of the engine:
   * it is the inverse the encoding is checked against.
   */
  function QuoteOf(value: real): real
  {
    var points := value / 1000.0;
    var whole := points.Floor as real;
    whole + (points - whole) * 32.0 / 100.0
  }

  lemma FloorIs(r: real, n: int)
    requires n as real <= r < n as real + 1.0
    ensures r.Floor == n
  {
  }

  /** Any price of any other instrument is its own unit value. */
  lemma OtherPricesUnchanged(price: real, categoryId: int, productId: int)
    requires !IsBondFuture(categoryId, productId)
    ensures UnitValue(price, categoryId, productId) == price
  {
  }

  /** `points.ticks` of the bond future is worth 1000 per point and 1000/32 per tick. */
  lemma {:induction false} BondFutureUnitValue(points: int, ticks: nat)
    requires ticks < 100
    ensures UnitValue(Quote(points, ticks), BondFutureCategoryId, BondFutureProductId)
            == 1000.0 * points as real + 1000.0 * ticks as real / 32.0
  {
    var p := Quote(points, ticks);
    FloorIs(p, points);
  }

  /** Reading back a quote with 0 to 31 ticks gives the quote itself. */
  lemma {:induction false} QuoteRoundTrip(points: int, ticks: nat)
    requires ticks < 32
    ensures QuoteOf(UnitValue(Quote(points, ticks), BondFutureCategoryId, BondFutureProductId))
            == Quote(points, ticks)
  {
    BondFutureUnitValue(points, ticks);
    var v := UnitValue(Quote(points, ticks), BondFutureCategoryId, BondFutureProductId);
    assert v / 1000.0 == points as real + ticks as real / 32.0;
    FloorIs(v / 1000.0, points);
  }

  /**
   * A quote with 32 to 99 ticks is not rejected: it is worth exactly as much
   * as the quote one point higher with 32 ticks fewer.
   */
  lemma {:induction false} TicksPastThirtyOneCarry(points: int, ticks: nat)
    requires 32 <= ticks < 100
    ensures UnitValue(Quote(points, ticks), BondFutureCategoryId, BondFutureProductId)
            == UnitValue(Quote(points + 1, ticks - 32), BondFutureCategoryId, BondFutureProductId)
  {
    BondFutureUnitValue(points, ticks);
    BondFutureUnitValue(points + 1, ticks - 32);
  }

  /** On quotes with 0 to 31 ticks the encoding keeps the order of prices. */
  lemma {:induction false} BondFutureUnitValueMonotone(p1: int, t1: nat, p2: int, t2: nat)
    requires t1 < 32 && t2 < 32
    requires Quote(p1, t1) < Quote(p2, t2)
    ensures UnitValue(Quote(p1, t1), BondFutureCategoryId, BondFutureProductId)
            < UnitValue(Quote(p2, t2), BondFutureCategoryId, BondFutureProductId)
  {
    BondFutureUnitValue(p1, t1);
    BondFutureUnitValue(p2, t2);
    assert p1 < p2 || (p1 == p2 && t1 < t2);
  }

  /** The worked example: 117.18 is 117 points and 18/32, worth 117562.5. */
  lemma ExampleQuote()
    ensures UnitValue(117.18, BondFutureCategoryId, BondFutureProductId) == 117562.5
    ensures QuoteOf(117562.5) == 117.18
  {
    assert Quote(117, 18) == 117.18;
    BondFutureUnitValue(117, 18);
    QuoteRoundTrip(117, 18);
  }
}
