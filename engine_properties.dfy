/**
 * Properties of the whole engine, from the transactions to the snapshots:
 * the states follow the (Date, Id) order, snapshots come in date order, one
 * per trading day, and a short position is valued at the price that opened it.
 */
module EngineProperties {
  import opened Transactions
  import opened PriceEncoding
  import opened Ordering
  import opened Grouping
  import opened LotAssignment
  import opened RunningState
  import opened DailySnapshots

  lemma AssignLotsSorted(transactions: seq<Transaction>)
    ensures |AssignLots(transactions)| == |transactions|
    ensures LotSorted(AssignLots(transactions))
  {
    AssignLotsOrder(transactions);
    AssignLotsIds(transactions);
  }

  /**
   * The `i`-th state is the `i`-th transaction in (Date, Id) order, in the lot
   * the lot loop gave it; lot ids never decrease along the states.
   */
  lemma StatesFollowOrder(transactions: seq<Transaction>)
    ensures |StatesOf(transactions)| == |AssignLots(transactions)| == |transactions|
    ensures forall i :: 0 <= i < |transactions| ==>
              StatesOf(transactions)[i].Tx == SortByDateId(transactions)[i]
              && StatesOf(transactions)[i].LotGroupId == AssignLots(transactions)[i].LotGroupId
    ensures forall i, j :: 0 <= i <= j < |transactions| ==>
              StatesOf(transactions)[i].LotGroupId <= StatesOf(transactions)[j].LotGroupId
  {
    var trades := AssignLots(transactions);
    AssignLotsSorted(transactions);
    AssignLotsOrder(transactions);
    StatesAreLotPrefixSums(trades);
  }

  /** Transactions of non-negative quantities give trades with non-negative buy and sell sides. */
  lemma AssignLotsNonNegative(transactions: seq<Transaction>)
    requires forall t :: t in transactions ==> t.Quantity >= 0
    ensures NonNegativeSides(AssignLots(transactions))
  {
    var trades, sorted := AssignLots(transactions), SortByDateId(transactions);
    AssignLotsOrder(transactions);
    forall k | 0 <= k < |trades|
      ensures trades[k].Trade.BuyQuantity >= 0 && trades[k].Trade.SellQuantity >= 0
    {
      assert sorted[k] in multiset(sorted);
      assert sorted[k] in transactions;
    }
  }

  /**
   * With non-negative quantities, each state's total bought and total sold
   * quantities are non-negative and do not go down from one state of a lot
   * to the next.
   */
  lemma LotQuantitiesNeverShrink(transactions: seq<Transaction>, i: nat)
    requires forall t :: t in transactions ==> t.Quantity >= 0
    requires i < |transactions|
    ensures |StatesOf(transactions)| == |transactions|
    ensures StatesOf(transactions)[i].TotalBuyQuantity >= 0 && StatesOf(transactions)[i].TotalSellQuantity >= 0
    ensures 0 < i && StatesOf(transactions)[i - 1].LotGroupId == StatesOf(transactions)[i].LotGroupId ==>
              StatesOf(transactions)[i - 1].TotalBuyQuantity <= StatesOf(transactions)[i].TotalBuyQuantity
              && StatesOf(transactions)[i - 1].TotalSellQuantity <= StatesOf(transactions)[i].TotalSellQuantity
  {
    var trades := AssignLots(transactions);
    StatesFollowOrder(transactions);
    AssignLotsSorted(transactions);
    AssignLotsNonNegative(transactions);
    LotQuantitiesGrow(trades, i);
  }

  /** The engine returns no snapshot exactly when it is given no transaction. */
  lemma NoSnapshotsIffNoTransactions(userId: int, clientId: int, productSymbol: string,
                                     transactions: Option<seq<Transaction>>)
    ensures CalculateSnapshots(userId, clientId, productSymbol, transactions) == []
            <==> transactions.None? || transactions.value == []
  {
    if transactions.Some? && transactions.value != [] {
      var states := StatesOf(transactions.value);
      StatesFollowOrder(transactions.value);
      KeysAreDistinctKeys(states, StateDay);
      assert StateDay(states[0]) in Keys(states, StateDay);
      SnapshotDates(userId, clientId, productSymbol, states);
    }
  }

  /** The states come in (Date, Id) order. */
  lemma StatesSorted(transactions: seq<Transaction>)
    ensures forall i, j :: 0 <= i < j < |StatesOf(transactions)| ==>
              KeyLe(StatesOf(transactions)[i].Tx, StatesOf(transactions)[j].Tx)
  {
    var sorted := SortByDateId(transactions);
    StatesFollowOrder(transactions);
    assert Sorted(sorted);
  }

  /** The days of the states never go back. */
  lemma StateDaysNonDecreasing(transactions: seq<Transaction>)
    ensures forall i, j :: 0 <= i <= j < |StatesOf(transactions)| ==>
              StateDay(StatesOf(transactions)[i]) <= StateDay(StatesOf(transactions)[j])
  {
    StatesSorted(transactions);
    DaysFollowKeys(StatesOf(transactions));
  }

  lemma DaysFollowKeys(states: seq<PerTransactionState>)
    requires forall i, j :: 0 <= i < j < |states| ==> KeyLe(states[i].Tx, states[j].Tx)
    ensures forall i, j :: 0 <= i <= j < |states| ==> StateDay(states[i]) <= StateDay(states[j])
  {
    forall i, j | 0 <= i <= j < |states|
      ensures StateDay(states[i]) <= StateDay(states[j])
    {
      if i < j {
        DayMonotone(states[i].Tx.Date, states[j].Tx.Date);
      }
    }
  }

  /** Snapshots come in strictly increasing date order. */
  lemma SnapshotsInDateOrder(userId: int, clientId: int, productSymbol: string, transactions: seq<Transaction>)
    ensures var snapshots := CalculateSnapshots(userId, clientId, productSymbol, Some(transactions));
            forall i, j :: 0 <= i < j < |snapshots| ==> snapshots[i].SnapshotDate < snapshots[j].SnapshotDate
  {
    if transactions != [] {
      var states := StatesOf(transactions);
      var snapshots := Snapshots(userId, clientId, productSymbol, states);
      var ks := Keys(states, StateDay);
      StateDaysNonDecreasing(transactions);
      KeysIncreasing(states, StateDay);
      SnapshotDates(userId, clientId, productSymbol, states);
      forall i, j | 0 <= i < j < |snapshots|
        ensures snapshots[i].SnapshotDate < snapshots[j].SnapshotDate
      {
        MidnightsDiffer(ks[i], ks[j]);
      }
    }
  }

  // ----- The average price of a short position -----

  /** Every state has a first state in its lot. */
  lemma {:induction false} FirstOfLot(states: seq<PerTransactionState>, j: nat) returns (m: nat)
    requires j < |states|
    ensures m <= j && states[m].LotGroupId == states[j].LotGroupId
    ensures forall i :: 0 <= i < m ==> states[i].LotGroupId != states[j].LotGroupId
  {
    if exists i :: 0 <= i < j && states[i].LotGroupId == states[j].LotGroupId {
      var i :| 0 <= i < j && states[i].LotGroupId == states[j].LotGroupId;
      m := FirstOfLot(states, i);
    } else {
      m := j;
    }
  }

  /** In states sorted by (Date, Id), the earliest state of a lot, as the engine picks it, is the lot's first state. */
  lemma EarliestOfLotIsFirst(states: seq<PerTransactionState>, m: nat)
    requires forall i, j :: 0 <= i < j < |states| ==> KeyLe(states[i].Tx, states[j].Tx)
    requires m < |states|
    requires forall i :: 0 <= i < m ==> states[i].LotGroupId != states[m].LotGroupId
    ensures var lot := LotStates(states, states[m].LotGroupId);
            |lot| > 0 && lot[EarliestIn(lot, |lot|)] == states[m]
  {
    var k := states[m].LotGroupId;
    var lot := LotStates(states, k);
    WhereStartsAtFirst(states, StateLot, m);
    WhereHoldsItsKey(states, StateLot, k);
    forall i | 0 <= i < |lot|
      ensures KeyLe(lot[0].Tx, lot[i].Tx)
    {
      var p :| 0 <= p < |states| && states[p] == lot[i];
      assert m <= p;
    }
    var e := EarliestIn(lot, |lot|);
    if e != 0 {
      assert false;
    }
  }

  /** The first state of a lot holds the totals of its first trade alone. */
  lemma FirstOfLotTotals(transactions: seq<Transaction>, m: nat)
    requires m < |StatesOf(transactions)|
    requires forall i :: 0 <= i < m ==> StatesOf(transactions)[i].LotGroupId != StatesOf(transactions)[m].LotGroupId
    ensures m < |AssignLots(transactions)|
    ensures TotalsOf(StatesOf(transactions)[m]) == Add(Zero, AssignLots(transactions)[m])
  {
    var states, trades := StatesOf(transactions), AssignLots(transactions);
    StatesFollowOrder(transactions);
    AssignLotsSorted(transactions);
    StateAt(trades, m);
    LotTotalsReset(trades, m);
    if m > 0 {
      assert states[m - 1].LotGroupId != states[m].LotGroupId;
      assert trades[m - 1].LotGroupId != trades[m].LotGroupId;
    }
  }

  /** The sell-side average of one trade alone is its unit value when it is a sell of a positive quantity. */
  lemma OneTradeSellAverage(t: Transaction)
    ensures var p := Priced(t);
            (if p.SellQuantity > 0 then p.SellValue / p.SellQuantity as real else 0.0)
            == if t.OperationId == Sell && t.Quantity > 0 then TxUnitValue(t) else 0.0
  {
    var p := Priced(t);
    if p.SellQuantity > 0 {
      var q := p.SellQuantity as real;
      assert p.SellValue == q * TxUnitValue(t);
      assert (q * TxUnitValue(t)) / q == TxUnitValue(t);
    }
  }

  /** The short-position average of `last` when its lot opens with the state of one trade `t`. */
  lemma ShortAverageOfOpening(states: seq<PerTransactionState>, last: PerTransactionState, m: nat,
                              t: Transaction, trade: TradeWithLot)
    requires last in states && last.OpenQuantity < 0
    requires m < |states| && states[m].LotGroupId == last.LotGroupId
    requires var lot := LotStates(states, last.LotGroupId); |lot| > 0 && lot[EarliestIn(lot, |lot|)] == states[m]
    requires TotalsOf(states[m]) == Add(Zero, trade) && trade.Trade == Priced(t)
    ensures AveragePrice(states, last) == if t.OperationId == Sell && t.Quantity > 0 then TxUnitValue(t) else 0.0
  {
    OneTradeSellAverage(t);
  }

  /**
   * A short position is valued at the unit price of the trade that opened its
   * lot when that trade is a sell of a positive quantity, and at 0 otherwise.
   */
  lemma ShortAverageIsOpeningSellPrice(transactions: seq<Transaction>, last: PerTransactionState)
    requires last in StatesOf(transactions) && last.OpenQuantity < 0
    ensures exists m :: 0 <= m < |StatesOf(transactions)|
              && StatesOf(transactions)[m].LotGroupId == last.LotGroupId
              && (forall i :: 0 <= i < m ==> StatesOf(transactions)[i].LotGroupId != last.LotGroupId)
              && var opening := StatesOf(transactions)[m].Tx;
                 AveragePrice(StatesOf(transactions), last)
                 == if opening.OperationId == Sell && opening.Quantity > 0 then TxUnitValue(opening) else 0.0
  {
    var states := StatesOf(transactions);
    var j :| 0 <= j < |states| && states[j] == last;
    var m := FirstOfLot(states, j);
    OpeningOfLot(transactions, m);
    ShortAverageOfOpening(states, last, m, states[m].Tx, AssignLots(transactions)[m]);
  }

  /** What the engine knows about the first state `m` of a lot. */
  lemma OpeningOfLot(transactions: seq<Transaction>, m: nat)
    requires m < |StatesOf(transactions)|
    requires forall i :: 0 <= i < m ==> StatesOf(transactions)[i].LotGroupId != StatesOf(transactions)[m].LotGroupId
    ensures m < |AssignLots(transactions)|
    ensures var states := StatesOf(transactions);
            var lot := LotStates(states, states[m].LotGroupId);
            |lot| > 0 && lot[EarliestIn(lot, |lot|)] == states[m]
    ensures TotalsOf(StatesOf(transactions)[m]) == Add(Zero, AssignLots(transactions)[m])
    ensures AssignLots(transactions)[m].Trade == Priced(StatesOf(transactions)[m].Tx)
  {
    var states, trades, sorted := StatesOf(transactions), AssignLots(transactions), SortByDateId(transactions);
    StatesFollowOrder(transactions);
    AssignLotsOrder(transactions);
    StatesSorted(transactions);
    EarliestOfLotIsFirst(states, m);
    FirstOfLotTotals(transactions, m);
    assert states[m].Tx == sorted[m];
  }
}
