/**
 * Step 3 of the engine: the running totals of every trade. The tagged trades
 * are grouped by lot id; in each group six accumulators start at zero and
 * take in the group's trades one by one, and each trade records their values
 * after it.
 */
module RunningState {
  import opened Transactions
  import opened Ordering
  import opened LotAssignment
  import opened Grouping

  /** The six running totals of a lot. */
  datatype Totals = Totals(
    Quantity: int,
    BuyValue: real,
    BuyQuantity: int,
    SellValue: real,
    SellQuantity: int,
    Fees: real)

  const Zero := Totals(0, 0.0, 0, 0.0, 0, 0.0)

  /** A buy or a sell: its signed quantity is what it buys less what it sells. */
  predicate Balanced(t: TradeWithLot)
  {
    t.Trade.SignedQuantity == t.Trade.BuyQuantity - t.Trade.SellQuantity
  }

  /** The totals after taking in one more trade. */
  function Add(acc: Totals, t: TradeWithLot): Totals
  {
    Totals(
      acc.Quantity + t.Trade.SignedQuantity,
      acc.BuyValue + t.Trade.BuyValue,
      acc.BuyQuantity + t.Trade.BuyQuantity,
      acc.SellValue + t.Trade.SellValue,
      acc.SellQuantity + t.Trade.SellQuantity,
      acc.Fees + t.Trade.Tx.Fees)
  }

  /** The totals of a run of trades, taken in from zero. */
  function Accumulate(run: seq<TradeWithLot>): Totals
  {
    if run == [] then Zero else Add(Accumulate(run[..|run| - 1]), run[|run| - 1])
  }

  /**
   * Taking in a buy or a sell keeps the gap between the open quantity and the
   * quantity bought less sold; taking in a trade with non-negative sides never
   * lowers the bought or sold quantity.
   */
  lemma AddKeepsOpenGap(acc: Totals, t: TradeWithLot)
    ensures Balanced(t) ==>
              Add(acc, t).Quantity - (Add(acc, t).BuyQuantity - Add(acc, t).SellQuantity)
              == acc.Quantity - (acc.BuyQuantity - acc.SellQuantity)
    ensures t.Trade.BuyQuantity >= 0 && t.Trade.SellQuantity >= 0 ==>
              acc.BuyQuantity <= Add(acc, t).BuyQuantity && acc.SellQuantity <= Add(acc, t).SellQuantity
  {
  }

  /** Over buys and sells only, the open quantity is the quantity bought less the quantity sold. */
  lemma {:induction false} OpenIsBoughtLessSold(run: seq<TradeWithLot>)
    requires forall k :: 0 <= k < |run| ==> Balanced(run[k])
    ensures Accumulate(run).Quantity == Accumulate(run).BuyQuantity - Accumulate(run).SellQuantity
  {
    if run != [] {
      OpenIsBoughtLessSold(run[..|run| - 1]);
      AddKeepsOpenGap(Accumulate(run[..|run| - 1]), run[|run| - 1]);
    }
  }

  /** A trade with the running totals of its lot after it. */
  datatype PerTransactionState = PerTransactionState(
    Tx: Transaction,
    LotGroupId: int,
    OpenQuantity: int,
    TotalBuyValue: real,
    TotalBuyQuantity: int,
    TotalSellValue: real,
    TotalSellQuantity: int,
    TotalCommission: real)

  function StateOf(t: TradeWithLot, acc: Totals): PerTransactionState
  {
    PerTransactionState(t.Trade.Tx, t.LotGroupId, acc.Quantity, acc.BuyValue, acc.BuyQuantity,
                        acc.SellValue, acc.SellQuantity, acc.Fees)
  }

  function TotalsOf(s: PerTransactionState): Totals
  {
    Totals(s.OpenQuantity, s.TotalBuyValue, s.TotalBuyQuantity, s.TotalSellValue, s.TotalSellQuantity,
           s.TotalCommission)
  }

  function LotOf(t: TradeWithLot): int
  {
    t.LotGroupId
  }

  /** Trades whose lot ids never decrease, as the lot loop produces them. */
  predicate LotSorted(trades: seq<TradeWithLot>)
  {
    forall i, j :: 0 <= i <= j < |trades| ==> trades[i].LotGroupId <= trades[j].LotGroupId
  }

  /** The states of one lot group: each trade with the group's totals up to it. */
  function RunLot(lot: seq<TradeWithLot>): seq<PerTransactionState>
  {
    if lot == [] then [] else RunLot(lot[..|lot| - 1]) + [StateOf(lot[|lot| - 1], Accumulate(lot))]
  }

  /** The states of the groups with keys `ks`, one group after another. */
  function StatesOfLots(trades: seq<TradeWithLot>, ks: seq<int>): seq<PerTransactionState>
  {
    if ks == [] then []
    else StatesOfLots(trades, ks[..|ks| - 1]) + RunLot(Where(trades, LotOf, ks[|ks| - 1]))
  }

  /** Group by lot id, then the running states of each group. */
  function PerTransactionStates(trades: seq<TradeWithLot>): seq<PerTransactionState>
  {
    StatesOfLots(trades, Keys(trades, LotOf))
  }

  /** The body run for one lot group: six accumulators from zero, one state per trade. */
  method RunLotGroup(lot: seq<TradeWithLot>) returns (lotStates: seq<PerTransactionState>)
    ensures lotStates == RunLot(lot)
  {
    var runningQty, runningBuyValue, runningBuyQty, runningSellValue, runningSellQty, runningFees
      := 0, 0.0, 0, 0.0, 0, 0.0;
    lotStates := [];
    for m := 0 to |lot|
      invariant Totals(runningQty, runningBuyValue, runningBuyQty, runningSellValue, runningSellQty, runningFees)
                == Accumulate(lot[..m])
      invariant lotStates == RunLot(lot[..m])
    {
      var t := lot[m];
      runningQty := runningQty + t.Trade.SignedQuantity;
      runningBuyValue := runningBuyValue + t.Trade.BuyValue;
      runningBuyQty := runningBuyQty + t.Trade.BuyQuantity;
      runningSellValue := runningSellValue + t.Trade.SellValue;
      runningSellQty := runningSellQty + t.Trade.SellQuantity;
      runningFees := runningFees + t.Trade.Tx.Fees;
      assert lot[..m + 1] == lot[..m] + [t];
      RunLotSnoc(lot[..m], t);
      lotStates := lotStates + [PerTransactionState(t.Trade.Tx, t.LotGroupId, runningQty, runningBuyValue,
                                                    runningBuyQty, runningSellValue, runningSellQty, runningFees)];
    }
    assert lot[..|lot|] == lot;
  }

  /** Group the tagged trades by lot id and run each group. */
  method CalculatePerTransactionState(tradesWithLots: seq<TradeWithLot>) returns (states: seq<PerTransactionState>)
    ensures states == PerTransactionStates(tradesWithLots)
  {
    var lots := Keys(tradesWithLots, LotOf);
    states := [];
    for g := 0 to |lots|
      invariant states == StatesOfLots(tradesWithLots, lots[..g])
    {
      var lotStates := RunLotGroup(Where(tradesWithLots, LotOf, lots[g]));
      assert lots[..g + 1][..g] == lots[..g];
      states := states + lotStates;
    }
    assert lots[..|lots|] == lots;
  }

  // ----- Grouping a lot-sorted run -----

  lemma SplitLast<T>(s: seq<T>)
    requires s != []
    ensures s == s[..|s| - 1] + [s[|s| - 1]]
  {
  }

  lemma RunLotSnoc(lot: seq<TradeWithLot>, x: TradeWithLot)
    ensures RunLot(lot + [x]) == RunLot(lot) + [StateOf(x, Accumulate(lot + [x]))]
  {
    assert (lot + [x])[..|lot|] == lot;
  }

  /** Groups of other keys do not see an appended trade. */
  lemma {:induction false} StatesOfOtherLots(trades: seq<TradeWithLot>, x: TradeWithLot, ks: seq<int>)
    requires x.LotGroupId !in ks
    ensures StatesOfLots(trades + [x], ks) == StatesOfLots(trades, ks)
  {
    if ks != [] {
      var front, k := ks[..|ks| - 1], ks[|ks| - 1];
      assert k != x.LotGroupId;
      StatesOfOtherLots(trades, x, front);
      WhereSnoc(trades, x, LotOf, k);
      assert Where(trades + [x], LotOf, k) == Where(trades, LotOf, k);
    }
  }

  /** In a lot-sorted run the last distinct lot id is the last trade's. */
  lemma {:induction false} LastKeyIsLastLot(trades: seq<TradeWithLot>)
    requires LotSorted(trades) && trades != []
    ensures var ks := Keys(trades, LotOf); |ks| > 0 && ks[|ks| - 1] == trades[|trades| - 1].LotGroupId
  {
    var front, x := trades[..|trades| - 1], trades[|trades| - 1];
    assert trades == front + [x];
    KeysSnoc(front, x, LotOf);
    if front != [] && x.LotGroupId in Keys(front, LotOf) {
      LastKeyIsLastLot(front);
      KeysAreDistinctKeys(front, LotOf);
      var i :| 0 <= i < |front| && LotOf(front[i]) == x.LotGroupId;
      assert front[i] == trades[i] && front[|front| - 1] == trades[|front| - 1];
    }
  }

  lemma StatesOfLotsSnoc(trades: seq<TradeWithLot>, ks: seq<int>, k: int)
    ensures StatesOfLots(trades, ks + [k]) == StatesOfLots(trades, ks) + RunLot(Where(trades, LotOf, k))
  {
    assert (ks + [k])[..|ks|] == ks;
  }

  lemma NewLotKeys(trades: seq<TradeWithLot>, x: TradeWithLot)
    requires forall i :: 0 <= i < |trades| ==> trades[i].LotGroupId != x.LotGroupId
    ensures x.LotGroupId !in Keys(trades, LotOf)
    ensures Keys(trades + [x], LotOf) == Keys(trades, LotOf) + [x.LotGroupId]
    ensures Where(trades + [x], LotOf, x.LotGroupId) == [x]
  {
    KeysAreDistinctKeys(trades, LotOf);
    KeysSnoc(trades, x, LotOf);
    WhereSnoc(trades, x, LotOf, x.LotGroupId);
    WhereAbsent(trades, LotOf, x.LotGroupId);
  }

  /** Appending a trade whose lot is new appends exactly its own state. */
  lemma AppendToNewLot(trades: seq<TradeWithLot>, x: TradeWithLot)
    requires forall i :: 0 <= i < |trades| ==> trades[i].LotGroupId != x.LotGroupId
    ensures PerTransactionStates(trades + [x])
            == PerTransactionStates(trades) + [StateOf(x, Accumulate(Where(trades + [x], LotOf, x.LotGroupId)))]
  {
    var whole, k, ks := trades + [x], x.LotGroupId, Keys(trades, LotOf);
    var last := StateOf(x, Accumulate([x]));
    NewLotKeys(trades, x);
    assert StatesOfLots(whole, ks) == StatesOfLots(trades, ks) by {
      StatesOfOtherLots(trades, x, ks);
    }
    assert StatesOfLots(whole, ks + [k]) == StatesOfLots(whole, ks) + RunLot([x]) by {
      StatesOfLotsSnoc(whole, ks, k);
    }
    assert RunLot([x]) == [last] by {
      RunLotSnoc([], x);
    }
    assert StatesOfLots(whole, ks + [k]) == StatesOfLots(trades, ks) + [last];
  }

  lemma LastLotKeys(trades: seq<TradeWithLot>, x: TradeWithLot)
    requires trades != [] && Keys(trades, LotOf)[|Keys(trades, LotOf)| - 1] == x.LotGroupId
    ensures var ks := Keys(trades, LotOf); x.LotGroupId !in ks[..|ks| - 1]
    ensures Keys(trades + [x], LotOf) == Keys(trades, LotOf)
    ensures Where(trades + [x], LotOf, x.LotGroupId) == Where(trades, LotOf, x.LotGroupId) + [x]
  {
    KeysAreDistinctKeys(trades, LotOf);
    KeysSnoc(trades, x, LotOf);
    WhereSnoc(trades, x, LotOf, x.LotGroupId);
  }

  /** Appending a trade to the last lot appends exactly its own state. */
  lemma AppendToLastLot(trades: seq<TradeWithLot>, x: TradeWithLot)
    requires trades != [] && Keys(trades, LotOf)[|Keys(trades, LotOf)| - 1] == x.LotGroupId
    ensures PerTransactionStates(trades + [x])
            == PerTransactionStates(trades) + [StateOf(x, Accumulate(Where(trades + [x], LotOf, x.LotGroupId)))]
  {
    var whole, k, ks := trades + [x], x.LotGroupId, Keys(trades, LotOf);
    var front, group := ks[..|ks| - 1], Where(trades, LotOf, k);
    var last := StateOf(x, Accumulate(group + [x]));
    LastLotKeys(trades, x);
    SplitLast(ks);
    var a, b := StatesOfLots(trades, front), RunLot(group);
    assert StatesOfLots(whole, ks) == a + (b + [last]) by {
      StatesOfOtherLots(trades, x, front);
      StatesOfLotsSnoc(whole, front, k);
      RunLotSnoc(group, x);
    }
    assert StatesOfLots(trades, ks) == a + b by {
      StatesOfLotsSnoc(trades, front, k);
    }
    assert a + (b + [last]) == (a + b) + [last];
  }

  /** Appending a trade to a lot-sorted run appends exactly its own state. */
  lemma PerTransactionStatesSnoc(trades: seq<TradeWithLot>, x: TradeWithLot)
    requires LotSorted(trades + [x])
    ensures PerTransactionStates(trades + [x])
            == PerTransactionStates(trades) + [StateOf(x, Accumulate(Where(trades + [x], LotOf, x.LotGroupId)))]
  {
    var whole := trades + [x];
    if exists i :: 0 <= i < |trades| && trades[i].LotGroupId == x.LotGroupId {
      var i :| 0 <= i < |trades| && trades[i].LotGroupId == x.LotGroupId;
      assert LotSorted(trades) by {
        forall i, j | 0 <= i <= j < |trades|
          ensures trades[i].LotGroupId <= trades[j].LotGroupId
        {
          assert whole[i] == trades[i] && whole[j] == trades[j];
        }
      }
      LastKeyIsLastLot(trades);
      var n := |trades|;
      assert whole[i] == trades[i] && whole[n - 1] == trades[n - 1] && whole[n] == x;
      assert whole[i].LotGroupId <= whole[n - 1].LotGroupId <= whole[n].LotGroupId;
      AppendToLastLot(trades, x);
    } else {
      AppendToNewLot(trades, x);
    }
  }

  lemma LotSortedPrefix(trades: seq<TradeWithLot>, n: nat)
    requires LotSorted(trades) && n <= |trades|
    ensures LotSorted(trades[..n])
  {
    forall i, j | 0 <= i <= j < n
      ensures trades[..n][i].LotGroupId <= trades[..n][j].LotGroupId
    {
      assert trades[..n][i] == trades[i] && trades[..n][j] == trades[j];
    }
  }

  /** Grouping a lot-sorted run yields one state per trade. */
  lemma {:induction false} StatesLength(trades: seq<TradeWithLot>)
    requires LotSorted(trades)
    ensures |PerTransactionStates(trades)| == |trades|
  {
    if trades != [] {
      var front, x := trades[..|trades| - 1], trades[|trades| - 1];
      assert trades == front + [x];
      LotSortedPrefix(trades, |trades| - 1);
      StatesLength(front);
      PerTransactionStatesSnoc(front, x);
    }
  }

  /** The `i`-th trade with the totals of the trades up to it that share its lot. */
  function StateSoFar(trades: seq<TradeWithLot>, i: nat): PerTransactionState
    requires i < |trades|
  {
    StateOf(trades[i], Accumulate(Where(trades[..i + 1], LotOf, trades[i].LotGroupId)))
  }

  lemma StateSoFarPrefix(trades: seq<TradeWithLot>, n: nat, i: nat)
    requires i < n <= |trades|
    ensures StateSoFar(trades[..n], i) == StateSoFar(trades, i)
  {
    assert trades[..n][..i + 1] == trades[..i + 1];
  }

  lemma LastStateSoFar(trades: seq<TradeWithLot>)
    requires LotSorted(trades) && trades != []
    ensures PerTransactionStates(trades)
            == PerTransactionStates(trades[..|trades| - 1]) + [StateSoFar(trades, |trades| - 1)]
  {
    var front, x := trades[..|trades| - 1], trades[|trades| - 1];
    SplitLast(trades);
    assert trades[..|trades|] == trades;
    PerTransactionStatesSnoc(front, x);
  }

  /**
   * For lot-sorted trades, grouping keeps the input order: the `i`-th state is
   * the `i`-th trade with the totals of the trades so far that share its lot.
   */
  lemma {:induction false} StateAt(trades: seq<TradeWithLot>, i: nat)
    requires LotSorted(trades) && i < |trades|
    ensures |PerTransactionStates(trades)| == |trades|
    ensures PerTransactionStates(trades)[i] == StateSoFar(trades, i)
  {
    var n := |trades| - 1;
    if i < n {
      EarlierStateKept(trades, i);
      LotSortedPrefix(trades, n);
      StateAt(trades[..n], i);
      StateSoFarPrefix(trades, n, i);
    } else {
      LastState(trades);
    }
  }

  /** The last state of a lot-sorted run belongs to its last trade. */
  lemma LastState(trades: seq<TradeWithLot>)
    requires LotSorted(trades) && trades != []
    ensures |PerTransactionStates(trades)| == |trades|
    ensures PerTransactionStates(trades)[|trades| - 1] == StateSoFar(trades, |trades| - 1)
  {
    LotSortedPrefix(trades, |trades| - 1);
    StatesLength(trades[..|trades| - 1]);
    LastStateSoFar(trades);
  }

  /** Appending trades to a lot-sorted run leaves the earlier states as they were. */
  lemma EarlierStateKept(trades: seq<TradeWithLot>, i: nat)
    requires LotSorted(trades) && i < |trades| - 1
    ensures |PerTransactionStates(trades)| == |trades|
    ensures |PerTransactionStates(trades[..|trades| - 1])| == |trades| - 1
    ensures PerTransactionStates(trades)[i] == PerTransactionStates(trades[..|trades| - 1])[i]
  {
    LotSortedPrefix(trades, |trades| - 1);
    StatesLength(trades[..|trades| - 1]);
    LastStateSoFar(trades);
  }

  /**
   * The totals of a trade's lot so far: reset to that trade alone at the first
   * trade of a lot, and the previous trade's totals plus this trade inside one.
   */
  lemma LotTotalsReset(trades: seq<TradeWithLot>, i: nat)
    requires LotSorted(trades) && i < |trades|
    ensures Accumulate(Where(trades[..i + 1], LotOf, trades[i].LotGroupId))
            == if i == 0 || trades[i - 1].LotGroupId != trades[i].LotGroupId then Add(Zero, trades[i])
               else Add(Accumulate(Where(trades[..i], LotOf, trades[i - 1].LotGroupId)), trades[i])
  {
    var k := trades[i].LotGroupId;
    assert trades[..i + 1] == trades[..i] + [trades[i]];
    WhereSnoc(trades[..i], trades[i], LotOf, k);
    assert trades[..i + 1][..i] == trades[..i];
    if i == 0 || trades[i - 1].LotGroupId != k {
      forall j | 0 <= j < i
        ensures LotOf(trades[..i][j]) != k
      {
        assert trades[j].LotGroupId <= trades[i - 1].LotGroupId <= k;
      }
      WhereAbsent(trades[..i], LotOf, k);
      assert [trades[i]][..0] == [];
    }
  }

  /**
   * Running totals are prefix sums within a lot: each state of a lot-sorted run
   * keeps its trade and lot, and its totals are that trade's alone at the lot's
   * first trade and the previous state's totals plus the trade after it.
   */
  lemma StatesAreLotPrefixSums(trades: seq<TradeWithLot>)
    requires LotSorted(trades)
    ensures |PerTransactionStates(trades)| == |trades|
    ensures forall i :: 0 <= i < |trades| ==>
              PerTransactionStates(trades)[i].Tx == trades[i].Trade.Tx
              && PerTransactionStates(trades)[i].LotGroupId == trades[i].LotGroupId
    ensures forall i :: 0 <= i < |trades| ==>
              TotalsOf(PerTransactionStates(trades)[i])
              == if i == 0 || trades[i - 1].LotGroupId != trades[i].LotGroupId
                 then Add(Zero, trades[i])
                 else Add(TotalsOf(PerTransactionStates(trades)[i - 1]), trades[i])
  {
    StatesLength(trades);
    var states := PerTransactionStates(trades);
    forall i | 0 <= i < |trades|
      ensures states[i].Tx == trades[i].Trade.Tx && states[i].LotGroupId == trades[i].LotGroupId
      ensures TotalsOf(PerTransactionStates(trades)[i])
              == if i == 0 || trades[i - 1].LotGroupId != trades[i].LotGroupId
                 then Add(Zero, trades[i])
                 else Add(TotalsOf(PerTransactionStates(trades)[i - 1]), trades[i])
    {
      StateAt(trades, i);
      assert TotalsOf(states[i]) == Accumulate(Where(trades[..i + 1], LotOf, trades[i].LotGroupId));
      if i > 0 {
        StateAt(trades, i - 1);
        assert TotalsOf(states[i - 1]) == Accumulate(Where(trades[..i], LotOf, trades[i - 1].LotGroupId));
      }
      LotTotalsReset(trades, i);
    }
  }

  /** Trades that buy and sell non-negative quantities. */
  predicate NonNegativeSides(trades: seq<TradeWithLot>)
  {
    forall k :: 0 <= k < |trades| ==> trades[k].Trade.BuyQuantity >= 0 && trades[k].Trade.SellQuantity >= 0
  }

  lemma {:induction false} AccumulateNonNegative(run: seq<TradeWithLot>)
    requires NonNegativeSides(run)
    ensures Accumulate(run).BuyQuantity >= 0 && Accumulate(run).SellQuantity >= 0
  {
    if run != [] {
      AccumulateNonNegative(run[..|run| - 1]);
    }
  }

  lemma GroupNonNegative(trades: seq<TradeWithLot>, n: nat, k: int)
    requires NonNegativeSides(trades) && n <= |trades|
    ensures NonNegativeSides(Where(trades[..n], LotOf, k))
  {
    var g := Where(trades[..n], LotOf, k);
    WhereHoldsItsKey(trades[..n], LotOf, k);
    forall m | 0 <= m < |g|
      ensures g[m].Trade.BuyQuantity >= 0 && g[m].Trade.SellQuantity >= 0
    {
      var j :| 0 <= j < n && trades[..n][j] == g[m];
    }
  }

  /**
   * With non-negative buy and sell quantities, a state's total bought and
   * total sold quantities are never negative and never go down inside a lot.
   */
  lemma LotQuantitiesGrow(trades: seq<TradeWithLot>, i: nat)
    requires LotSorted(trades) && NonNegativeSides(trades) && i < |trades|
    ensures |PerTransactionStates(trades)| == |trades|
    ensures PerTransactionStates(trades)[i].TotalBuyQuantity >= 0
    ensures PerTransactionStates(trades)[i].TotalSellQuantity >= 0
    ensures 0 < i && trades[i - 1].LotGroupId == trades[i].LotGroupId ==>
              PerTransactionStates(trades)[i - 1].TotalBuyQuantity <= PerTransactionStates(trades)[i].TotalBuyQuantity
              && PerTransactionStates(trades)[i - 1].TotalSellQuantity <= PerTransactionStates(trades)[i].TotalSellQuantity
  {
    TotalsNonNegative(trades, i);
    if 0 < i && trades[i - 1].LotGroupId == trades[i].LotGroupId {
      TotalsStep(trades, i);
    }
  }

  /** With non-negative sides, a state's bought and sold quantities are not negative. */
  lemma TotalsNonNegative(trades: seq<TradeWithLot>, i: nat)
    requires LotSorted(trades) && NonNegativeSides(trades) && i < |trades|
    ensures |PerTransactionStates(trades)| == |trades|
    ensures PerTransactionStates(trades)[i].TotalBuyQuantity >= 0
    ensures PerTransactionStates(trades)[i].TotalSellQuantity >= 0
  {
    var group := Where(trades[..i + 1], LotOf, trades[i].LotGroupId);
    StateAt(trades, i);
    GroupNonNegative(trades, i + 1, trades[i].LotGroupId);
    AccumulateNonNegative(group);
  }

  /** Inside a lot, with non-negative sides, bought and sold quantities never go down. */
  lemma TotalsStep(trades: seq<TradeWithLot>, i: nat)
    requires LotSorted(trades) && NonNegativeSides(trades) && 0 < i < |trades|
    requires trades[i - 1].LotGroupId == trades[i].LotGroupId
    ensures |PerTransactionStates(trades)| == |trades|
    ensures PerTransactionStates(trades)[i - 1].TotalBuyQuantity <= PerTransactionStates(trades)[i].TotalBuyQuantity
    ensures PerTransactionStates(trades)[i - 1].TotalSellQuantity <= PerTransactionStates(trades)[i].TotalSellQuantity
  {
    var states := PerTransactionStates(trades);
    assert |states| == |trades| && TotalsOf(states[i]) == Add(TotalsOf(states[i - 1]), trades[i]) by {
      StateAt(trades, i);
      StateAt(trades, i - 1);
      LotTotalsReset(trades, i);
    }
    AddKeepsOpenGap(TotalsOf(states[i - 1]), trades[i]);
  }

}
