/**
 * Step 4 of the engine and its entry point. The per-transaction states are
 * grouped by calendar day; each day yields one snapshot, built from the
 * day's latest state: its open quantity, its commission, an average price
 * that depends on the direction of the position, and the cost.
 */
module DailySnapshots {
  import opened Transactions
  import opened PriceEncoding
  import opened Grouping
  import opened LotAssignment
  import opened RunningState

  /** The end-of-day position of one instrument. `SnapshotDate` is midnight of the day, in ticks. */
  datatype PositionSnapshot = PositionSnapshot(
    UserId: int,
    ClientId: int,
    ProductCategoryId: int,
    ProductId: int,
    ProductSymbol: string,
    SnapshotDate: nat,
    Quantity: int,
    Cost: real,
    Commission: real,
    AveragePrice: real)

  /** The day a state's transaction falls on. */
  function StateDay(s: PerTransactionState): int
  {
    Day(s.Tx.Date)
  }

  function StateLot(s: PerTransactionState): int
  {
    s.LotGroupId
  }

  /**
   * The first of `g[..n]` in descending (Date, Id) order: the latest state,
   * the earlier one in `g` on a tie, as a stable descending sort puts it.
   */
  function LatestIn(g: seq<PerTransactionState>, n: nat): (j: nat)
    requires 0 < n <= |g|
    ensures j < n
    ensures forall i :: 0 <= i < n ==> KeyLe(g[i].Tx, g[j].Tx)
    ensures forall i :: 0 <= i < j ==> !KeyLe(g[j].Tx, g[i].Tx)
  {
    if n == 1 then 0
    else
      var j := LatestIn(g, n - 1);
      if KeyLe(g[n - 1].Tx, g[j].Tx) then j else n - 1
  }

  /**
   * The first of `g[..n]` in ascending (Date, Id) order: the earliest state,
   * the earlier one in `g` on a tie, as a stable ascending sort puts it.
   */
  function EarliestIn(g: seq<PerTransactionState>, n: nat): (j: nat)
    requires 0 < n <= |g|
    ensures j < n
    ensures forall i :: 0 <= i < n ==> KeyLe(g[j].Tx, g[i].Tx)
    ensures forall i :: 0 <= i < j ==> !KeyLe(g[i].Tx, g[j].Tx)
  {
    if n == 1 then 0
    else
      var j := EarliestIn(g, n - 1);
      if KeyLe(g[j].Tx, g[n - 1].Tx) then j else n - 1
  }

  /** The states of lot `lot`, in the order the states come. */
  function LotStates(states: seq<PerTransactionState>, lot: int): seq<PerTransactionState>
  {
    Where(states, StateLot, lot)
  }

  /** The states of day `day`, in the order the states come. */
  function DayStates(states: seq<PerTransactionState>, day: int): seq<PerTransactionState>
  {
    Where(states, StateDay, day)
  }

  lemma LotStatesHoldLast(states: seq<PerTransactionState>, last: PerTransactionState)
    requires last in states
    ensures |LotStates(states, last.LotGroupId)| > 0
  {
    WhereHoldsItsKey(states, StateLot, last.LotGroupId);
  }

  /**
   * The average price of the position `last` stands for: the lot's average
   * buy price when long, the lot's opening sell price when short, 0 when flat
   * or when there is nothing to divide by.
   */
  function AveragePrice(states: seq<PerTransactionState>, last: PerTransactionState): (r: real)
    requires last in states
    ensures last.OpenQuantity == 0 ==> r == 0.0
    ensures last.OpenQuantity > 0 && last.TotalBuyQuantity > 0 ==> r * last.TotalBuyQuantity as real == last.TotalBuyValue
    ensures last.OpenQuantity > 0 && last.TotalBuyQuantity <= 0 ==> r == 0.0
  {
    if last.OpenQuantity > 0 then
      if last.TotalBuyQuantity > 0 then last.TotalBuyValue / last.TotalBuyQuantity as real else 0.0
    else if last.OpenQuantity < 0 then
      var lot := LotStates(states, last.LotGroupId);
      LotStatesHoldLast(states, last);
      var first := lot[EarliestIn(lot, |lot|)];
      if first.TotalSellQuantity > 0 then first.TotalSellValue / first.TotalSellQuantity as real else 0.0
    else
      0.0
  }

  /** The category multiplier: 1 for the bond future, whose unit value already holds it. */
  function Multiplier(t: Transaction): (m: real)
    ensures IsBondFuture(t.ProductCategoryId, t.ProductId) ==> m == 1.0
    ensures !IsBondFuture(t.ProductCategoryId, t.ProductId) ==> m == t.CategoryMultiplier
  {
    if IsBondFuture(t.ProductCategoryId, t.ProductId) then 1.0 else t.CategoryMultiplier
  }

  /** The snapshot built from the day's latest state `last`. */
  function SnapshotOf(userId: int, clientId: int, productSymbol: string,
                      states: seq<PerTransactionState>, last: PerTransactionState): (snapshot: PositionSnapshot)
    requires last in states
    ensures snapshot.SnapshotDate % TicksPerDay == 0
    ensures snapshot.SnapshotDate <= last.Tx.Date < snapshot.SnapshotDate + TicksPerDay
    ensures snapshot.UserId == userId && snapshot.ClientId == clientId && snapshot.ProductSymbol == productSymbol
    ensures snapshot.ProductCategoryId == last.Tx.ProductCategoryId && snapshot.ProductId == last.Tx.ProductId
    ensures snapshot.Quantity == last.OpenQuantity && snapshot.Commission == last.TotalCommission
    ensures snapshot.Cost == snapshot.Quantity as real * snapshot.AveragePrice * Multiplier(last.Tx)
    ensures snapshot.Quantity == 0 ==> snapshot.AveragePrice == 0.0 && snapshot.Cost == 0.0
  {
    var averagePrice := AveragePrice(states, last);
    PositionSnapshot(
      userId, clientId, last.Tx.ProductCategoryId, last.Tx.ProductId, productSymbol,
      Day(last.Tx.Date) * TicksPerDay,
      last.OpenQuantity,
      last.OpenQuantity as real * averagePrice * Multiplier(last.Tx),
      last.TotalCommission,
      averagePrice)
  }

  /** The latest state of day `day`. */
  function LastStateOfDay(states: seq<PerTransactionState>, day: int): (last: PerTransactionState)
    requires |DayStates(states, day)| > 0
    ensures last in states && StateDay(last) == day
  {
    var g := DayStates(states, day);
    WhereHoldsItsKey(states, StateDay, day);
    g[LatestIn(g, |g|)]
  }

  /** One snapshot per listed day. */
  function SnapshotsOfDays(userId: int, clientId: int, productSymbol: string,
                           states: seq<PerTransactionState>, days: seq<int>): seq<PositionSnapshot>
    requires forall i :: 0 <= i < |days| ==> |DayStates(states, days[i])| > 0
  {
    seq(|days|, i requires 0 <= i < |days| =>
      SnapshotOf(userId, clientId, productSymbol, states, LastStateOfDay(states, days[i])))
  }

  /** Group the states by day, in order of first occurrence, and take one snapshot per day. */
  function Snapshots(userId: int, clientId: int, productSymbol: string,
                     states: seq<PerTransactionState>): (snapshots: seq<PositionSnapshot>)
    ensures |snapshots| == |Keys(states, StateDay)|
    ensures snapshots == [] <==> states == []
  {
    KeysHaveGroups(states, StateDay);
    SnapshotsOfDays(userId, clientId, productSymbol, states, Keys(states, StateDay))
  }

  /** The per-transaction states of a set of transactions: steps 1 to 3. */
  function StatesOf(transactions: seq<Transaction>): seq<PerTransactionState>
  {
    PerTransactionStates(AssignLots(transactions))
  }

  /** The whole engine: no snapshots for a missing or empty input. */
  function CalculateSnapshots(userId: int, clientId: int, productSymbol: string,
                              transactions: Option<seq<Transaction>>): seq<PositionSnapshot>
  {
    match transactions
    case None => []
    case Some(txs) => if txs == [] then [] else Snapshots(userId, clientId, productSymbol, StatesOf(txs))
  }

  /** The engine's entry point: lots, then running states, then one snapshot per day. */
  method Calculate(userId: int, clientId: int, productSymbol: string,
                   transactions: Option<seq<Transaction>>) returns (snapshots: seq<PositionSnapshot>)
    ensures snapshots == CalculateSnapshots(userId, clientId, productSymbol, transactions)
  {
    if transactions.None? || transactions.value == [] {
      return [];
    }
    var tradesWithLots := AssignLotGroups(transactions.value);
    var perTransactionState := CalculatePerTransactionState(tradesWithLots);
    snapshots := Snapshots(userId, clientId, productSymbol, perTransactionState);
  }

  // ----- One snapshot per day -----

  /** Snapshot `i` is dated midnight of the `i`-th distinct day. */
  lemma {:induction false} SnapshotDates(userId: int, clientId: int, productSymbol: string,
                                         states: seq<PerTransactionState>)
    ensures |Snapshots(userId, clientId, productSymbol, states)| == |Keys(states, StateDay)|
    ensures forall i :: 0 <= i < |Keys(states, StateDay)| ==>
              Snapshots(userId, clientId, productSymbol, states)[i].SnapshotDate
              == Keys(states, StateDay)[i] * TicksPerDay
  {
    var ks := Keys(states, StateDay);
    KeysHaveGroups(states, StateDay);
    forall i | 0 <= i < |ks|
      ensures Snapshots(userId, clientId, productSymbol, states)[i].SnapshotDate == ks[i] * TicksPerDay
    {
      var g := DayStates(states, ks[i]);
      WhereHoldsItsKey(states, StateDay, ks[i]);
      assert StateDay(g[LatestIn(g, |g|)]) == ks[i];
    }
  }

  /**
   * There is exactly one snapshot per calendar day on which a transaction
   * falls: every snapshot's date is such a day, every such day has a
   * snapshot, and no two snapshots share a date.
   */
  lemma OneSnapshotPerDay(userId: int, clientId: int, productSymbol: string, states: seq<PerTransactionState>)
    ensures var snapshots := Snapshots(userId, clientId, productSymbol, states);
            && (forall i :: 0 <= i < |snapshots| ==>
                  exists j :: 0 <= j < |states| && snapshots[i].SnapshotDate == Day(states[j].Tx.Date) * TicksPerDay)
            && (forall j :: 0 <= j < |states| ==>
                  exists i :: 0 <= i < |snapshots| && snapshots[i].SnapshotDate == Day(states[j].Tx.Date) * TicksPerDay)
            && (forall i, i' :: 0 <= i < i' < |snapshots| ==> snapshots[i].SnapshotDate != snapshots[i'].SnapshotDate)
  {
    SnapshotDates(userId, clientId, productSymbol, states);
    DatedByDistinctDays(states, Snapshots(userId, clientId, productSymbol, states));
  }

  lemma DatedByDistinctDays(states: seq<PerTransactionState>, snapshots: seq<PositionSnapshot>)
    requires |snapshots| == |Keys(states, StateDay)|
    requires forall i :: 0 <= i < |snapshots| ==> snapshots[i].SnapshotDate == Keys(states, StateDay)[i] * TicksPerDay
    ensures forall i :: 0 <= i < |snapshots| ==>
              exists j :: 0 <= j < |states| && snapshots[i].SnapshotDate == Day(states[j].Tx.Date) * TicksPerDay
    ensures forall j :: 0 <= j < |states| ==>
              exists i :: 0 <= i < |snapshots| && snapshots[i].SnapshotDate == Day(states[j].Tx.Date) * TicksPerDay
    ensures forall i, i' :: 0 <= i < i' < |snapshots| ==> snapshots[i].SnapshotDate != snapshots[i'].SnapshotDate
  {
    var ks := Keys(states, StateDay);
    KeysAreDistinctKeys(states, StateDay);
    forall i | 0 <= i < |snapshots|
      ensures exists j :: 0 <= j < |states| && snapshots[i].SnapshotDate == Day(states[j].Tx.Date) * TicksPerDay
    {
      assert ks[i] in ks;
      var j :| 0 <= j < |states| && StateDay(states[j]) == ks[i];
      assert snapshots[i].SnapshotDate == Day(states[j].Tx.Date) * TicksPerDay;
    }
    forall j | 0 <= j < |states|
      ensures exists i :: 0 <= i < |snapshots| && snapshots[i].SnapshotDate == Day(states[j].Tx.Date) * TicksPerDay
    {
      assert StateDay(states[j]) in ks;
      var i :| 0 <= i < |ks| && ks[i] == StateDay(states[j]);
      assert snapshots[i].SnapshotDate == Day(states[j].Tx.Date) * TicksPerDay;
    }
    forall i, i' | 0 <= i < i' < |snapshots|
      ensures snapshots[i].SnapshotDate != snapshots[i'].SnapshotDate
    {
      MidnightsDiffer(ks[i], ks[i']);
    }
  }

  /** Distinct days have distinct midnights, in the same order. */
  lemma MidnightsDiffer(d: int, d': int)
    requires d != d'
    ensures d < d' ==> d * TicksPerDay < d' * TicksPerDay
    ensures d * TicksPerDay != d' * TicksPerDay
  {
    if d < d' {
      assert d' * TicksPerDay == d * TicksPerDay + (d' - d) * TicksPerDay;
    } else {
      assert d * TicksPerDay == d' * TicksPerDay + (d - d') * TicksPerDay;
    }
  }

  /** The latest state of a day is a state of that day that no other state of the day comes after. */
  lemma LatestOfDay(states: seq<PerTransactionState>, day: int)
    requires |DayStates(states, day)| > 0
    ensures var last := LastStateOfDay(states, day);
            && last in states && StateDay(last) == day
            && forall k :: 0 <= k < |states| && StateDay(states[k]) == day ==> KeyLe(states[k].Tx, last.Tx)
  {
    var g := DayStates(states, day);
    WhereHoldsItsKey(states, StateDay, day);
    forall k | 0 <= k < |states| && StateDay(states[k]) == day
      ensures KeyLe(states[k].Tx, LastStateOfDay(states, day).Tx)
    {
      assert states[k] in g;
    }
  }

  /**
   * Snapshot `i` is built from the latest state of its day: it carries that
   * state's open quantity, commission and instrument, the caller's user,
   * client and symbol, and a cost of quantity times average price times
   * multiplier; a flat position has neither average price nor cost.
   */
  lemma SnapshotFromLatestState(userId: int, clientId: int, productSymbol: string,
                                states: seq<PerTransactionState>, i: nat)
    requires i < |Keys(states, StateDay)|
    ensures |Snapshots(userId, clientId, productSymbol, states)| == |Keys(states, StateDay)|
    ensures |DayStates(states, Keys(states, StateDay)[i])| > 0
    ensures var last, snapshot := LastStateOfDay(states, Keys(states, StateDay)[i]),
                                  Snapshots(userId, clientId, productSymbol, states)[i];
            && last in states
            && StateDay(last) == Keys(states, StateDay)[i]
            && (forall k :: 0 <= k < |states| && StateDay(states[k]) == StateDay(last) ==> KeyLe(states[k].Tx, last.Tx))
            && snapshot.UserId == userId && snapshot.ClientId == clientId
            && snapshot.ProductSymbol == productSymbol
            && snapshot.ProductCategoryId == last.Tx.ProductCategoryId
            && snapshot.ProductId == last.Tx.ProductId
            && snapshot.Quantity == last.OpenQuantity
            && snapshot.Commission == last.TotalCommission
            && snapshot.AveragePrice == AveragePrice(states, last)
            && snapshot.Cost == snapshot.Quantity as real * snapshot.AveragePrice * Multiplier(last.Tx)
            && (snapshot.Quantity == 0 ==> snapshot.AveragePrice == 0.0 && snapshot.Cost == 0.0)
  {
    var ks := Keys(states, StateDay);
    SnapshotDates(userId, clientId, productSymbol, states);
    KeysHaveGroups(states, StateDay);
    LatestOfDay(states, ks[i]);
  }

  /**
   * A long position with no sell in its lot yet costs what its buys cost,
   * times the multiplier.
   */
  lemma LongCostIsBuyCost(userId: int, clientId: int, productSymbol: string,
                          states: seq<PerTransactionState>, last: PerTransactionState)
    requires last in states
    requires last.OpenQuantity > 0 && last.TotalBuyQuantity == last.OpenQuantity
    ensures SnapshotOf(userId, clientId, productSymbol, states, last).Cost
            == last.TotalBuyValue * Multiplier(last.Tx)
  {
    var q := last.OpenQuantity as real;
    assert q * (last.TotalBuyValue / q) == last.TotalBuyValue;
  }
}
