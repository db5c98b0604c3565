/**
 * Worked examples: small histories run through the whole engine, with the
 * snapshots they produce.
 */
module Scenarios {
  import opened Transactions
  import opened PriceEncoding
  import opened Ordering
  import opened Grouping
  import opened LotAssignment
  import opened RunningState
  import opened DailySnapshots
  import opened EngineProperties

  /** A record of instrument (1, 1), multiplier 1, on day `day`, `offset` ticks after midnight. */
  function Record(id: nat, day: nat, offset: nat, operationId: int, quantity: int, price: real, fees: real): Transaction
  {
    Transaction(id, day * TicksPerDay + offset, operationId, 1, 1, quantity, price, fees, 1.0)
  }

  /** Lot ids of two transactions in (Date, Id) order: the second opens lot 2 if the lot test says so. */
  lemma TwoTradeLots(a: Transaction, b: Transaction)
    requires KeyLe(a, b)
    ensures var pa, pb := Priced(a), Priced(b);
            AssignLots([a, b])
            == [TradeWithLot(pa, 1),
                TradeWithLot(pb, if StartsNewLot(pa.SignedQuantity, pb.SignedQuantity) then 2 else 1)]
  {
    var txs := [a, b];
    SortKeepsSortedInput(txs);
    var ps := Ordered(txs);
    assert ps == [Priced(a), Priced(b)];
    assert ps[..1] == [Priced(a)];
    assert Position(ps[..1]) == Priced(a).SignedQuantity;
    TaggedAt(ps, 2);
  }

  /** A single trade has the state of its own totals. */
  lemma OneTradeState(ta: TradeWithLot)
    ensures PerTransactionStates([ta]) == [StateOf(ta, Add(Zero, ta))]
  {
    var one := [ta];
    assert PerTransactionStates(one)
           == PerTransactionStates([]) + [StateOf(ta, Accumulate(Where(one, LotOf, ta.LotGroupId)))] by {
      assert one == [] + [ta];
      AppendToNewLot([], ta);
    }
    assert Where(one, LotOf, ta.LotGroupId) == one by {
      assert one == [] + [ta];
      WhereSnoc([], ta, LotOf, ta.LotGroupId);
    }
    assert Accumulate(one) == Add(Zero, ta) by {
      assert one[..0] == [];
    }
  }

  /** The totals of the second trade's lot after two trades. */
  lemma SecondTradeTotals(ta: TradeWithLot, tb: TradeWithLot)
    ensures Accumulate(Where([ta, tb], LotOf, tb.LotGroupId))
            == if ta.LotGroupId == tb.LotGroupId then Add(Add(Zero, ta), tb) else Add(Zero, tb)
  {
    var one, two := [ta], [ta, tb];
    assert two == one + [tb] && one == [] + [ta];
    WhereSnoc([], ta, LotOf, tb.LotGroupId);
    WhereSnoc(one, tb, LotOf, tb.LotGroupId);
    assert Accumulate(one) == Add(Zero, ta) by {
      assert one[..0] == [];
    }
    if ta.LotGroupId == tb.LotGroupId {
      assert Where(two, LotOf, tb.LotGroupId) == two;
      assert two[..1] == one;
    } else {
      assert Where(two, LotOf, tb.LotGroupId) == [tb];
      assert [tb][..0] == [];
    }
  }

  /** The states of two lot-sorted trades: one lot's running totals, or two fresh ones. */
  lemma TwoTradeStates(ta: TradeWithLot, tb: TradeWithLot)
    requires ta.LotGroupId <= tb.LotGroupId
    ensures PerTransactionStates([ta, tb])
            == [StateOf(ta, Add(Zero, ta)),
                StateOf(tb, if ta.LotGroupId == tb.LotGroupId then Add(Add(Zero, ta), tb) else Add(Zero, tb))]
  {
    assert [ta, tb] == [ta] + [tb];
    assert LotSorted([ta] + [tb]);
    PerTransactionStatesSnoc([ta], tb);
    OneTradeState(ta);
    SecondTradeTotals(ta, tb);
  }

  /** Two transactions in (Date, Id) order: their lots and their states. */
  lemma TwoTrades(a: Transaction, b: Transaction)
    requires KeyLe(a, b)
    ensures var pa, pb := Priced(a), Priced(b);
            var lotB := if StartsNewLot(pa.SignedQuantity, pb.SignedQuantity) then 2 else 1;
            var ta, tb := TradeWithLot(pa, 1), TradeWithLot(pb, lotB);
            && AssignLots([a, b]) == [ta, tb]
            && StatesOf([a, b]) == [StateOf(ta, Add(Zero, ta)),
                                    StateOf(tb, if lotB == 1 then Add(Add(Zero, ta), tb) else Add(Zero, tb))]
  {
    TwoTradeLots(a, b);
    var pa, pb := Priced(a), Priced(b);
    var lotB := if StartsNewLot(pa.SignedQuantity, pb.SignedQuantity) then 2 else 1;
    TwoTradeStates(TradeWithLot(pa, 1), TradeWithLot(pb, lotB));
  }

  /** Midnight of the next day is one day of ticks later. */
  lemma NextMidnight(day: nat)
    ensures (day + 1) * TicksPerDay == day * TicksPerDay + TicksPerDay
  {
  }

  /** A trade placed `offset` ticks after midnight of `day` falls on `day`. */
  lemma TradeDay(day: nat, offset: nat)
    requires offset < TicksPerDay
    ensures Day(day * TicksPerDay + offset) == day
  {
  }

  /** Two states of one day, the second strictly later: one snapshot, from the second. */
  lemma SameDaySnapshots(userId: int, clientId: int, productSymbol: string,
                         s0: PerTransactionState, s1: PerTransactionState)
    requires StateDay(s0) == StateDay(s1) && !KeyLe(s1.Tx, s0.Tx)
    ensures var states := [s0, s1];
            Snapshots(userId, clientId, productSymbol, states)
            == [SnapshotOf(userId, clientId, productSymbol, states, s1)]
  {
    var states := [s0, s1];
    OneThenOne(s0, s1, StateDay(s0), s0.LotGroupId);
  }

  /** Two states of two days: one snapshot per state. */
  lemma TwoDaySnapshots(userId: int, clientId: int, productSymbol: string,
                        s0: PerTransactionState, s1: PerTransactionState)
    requires StateDay(s0) != StateDay(s1)
    ensures var states := [s0, s1];
            Snapshots(userId, clientId, productSymbol, states)
            == [SnapshotOf(userId, clientId, productSymbol, states, s0),
                SnapshotOf(userId, clientId, productSymbol, states, s1)]
  {
    var states := [s0, s1];
    OneThenOne(s0, s1, StateDay(s0), s0.LotGroupId);
    OneThenOne(s0, s1, StateDay(s1), s1.LotGroupId);
  }

  /** A short second state that opened its own lot is valued at its own sell price. */
  lemma ShortOpenedBySecond(s0: PerTransactionState, s1: PerTransactionState)
    requires s1.OpenQuantity < 0 && s0.LotGroupId != s1.LotGroupId
    ensures AveragePrice([s0, s1], s1)
            == if s1.TotalSellQuantity > 0 then s1.TotalSellValue / s1.TotalSellQuantity as real else 0.0
  {
    OneThenOne(s0, s1, StateDay(s1), s1.LotGroupId);
    assert LotStates([s0, s1], s1.LotGroupId) == [s1];
  }

  /** The day keys and one day's group of two states, element by element. */
  lemma OneThenOne(s0: PerTransactionState, s1: PerTransactionState, day: int, lot: int)
    ensures Keys([s0, s1], StateDay)
            == if StateDay(s0) == StateDay(s1) then [StateDay(s0)] else [StateDay(s0), StateDay(s1)]
    ensures DayStates([s0, s1], day)
            == (if StateDay(s0) == day then [s0] else []) + (if StateDay(s1) == day then [s1] else [])
    ensures LotStates([s0, s1], lot)
            == (if s0.LotGroupId == lot then [s0] else []) + (if s1.LotGroupId == lot then [s1] else [])
  {
    assert [s0, s1] == [s0] + [s1];
    assert [s0] == [] + [s0];
    KeysSnoc([], s0, StateDay);
    KeysSnoc([s0], s1, StateDay);
    WhereSnoc([], s0, StateDay, day);
    WhereSnoc([s0], s1, StateDay, day);
    WhereSnoc([], s0, StateLot, lot);
    WhereSnoc([s0], s1, StateLot, lot);
  }

  // ----- Three histories -----

  /** Buy 10 at 100, then sell 10 at 110 later the same day, each with a fee of 1. */
  function RoundTrip(day: nat): seq<Transaction>
  {
    [Record(1, day, 0, Buy, 10, 100.0, 1.0), Record(2, day, 1, Sell, 10, 110.0, 1.0)]
  }

  function RoundTripRun(day: nat): seq<PerTransactionState>
  {
    var txs := RoundTrip(day);
    [PerTransactionState(txs[0], 1, 10, 1000.0, 10, 0.0, 0, 1.0),
     PerTransactionState(txs[1], 1, 0, 1000.0, 10, 1100.0, 10, 2.0)]
  }

  /** The sell returns the lot to flat and stays in it. */
  lemma RoundTripStates(day: nat)
    ensures StatesOf(RoundTrip(day)) == RoundTripRun(day)
  {
    var txs := RoundTrip(day);
    TwoTrades(txs[0], txs[1]);
  }

  lemma RoundTripSnapshots(userId: int, clientId: int, productSymbol: string, day: nat)
    ensures Snapshots(userId, clientId, productSymbol, RoundTripRun(day))
            == [PositionSnapshot(userId, clientId, 1, 1, productSymbol, day * TicksPerDay, 0, 0.0, 2.0, 0.0)]
  {
    var states := RoundTripRun(day);
    TradeDay(day, 0);
    TradeDay(day, 1);
    SameDaySnapshots(userId, clientId, productSymbol, states[0], states[1]);
    assert states == [states[0], states[1]];
  }

  /** The day ends flat: no average price, no cost, both fees as commission. */
  lemma RoundTripInOneDay(userId: int, clientId: int, productSymbol: string, day: nat)
    ensures CalculateSnapshots(userId, clientId, productSymbol, Some(RoundTrip(day)))
            == [PositionSnapshot(userId, clientId, 1, 1, productSymbol, day * TicksPerDay, 0, 0.0, 2.0, 0.0)]
  {
    RoundTripStates(day);
    RoundTripSnapshots(userId, clientId, productSymbol, day);
  }

  /** Buy 5 at 50, then 5 at 60 later the same day, each with a fee of 0.5. */
  function TwoBuys(day: nat): seq<Transaction>
  {
    [Record(1, day, 0, Buy, 5, 50.0, 0.5), Record(2, day, 1, Buy, 5, 60.0, 0.5)]
  }

  function TwoBuysRun(day: nat): seq<PerTransactionState>
  {
    var txs := TwoBuys(day);
    [PerTransactionState(txs[0], 1, 5, 250.0, 5, 0.0, 0, 0.5),
     PerTransactionState(txs[1], 1, 10, 550.0, 10, 0.0, 0, 1.0)]
  }

  /** The second buy adds to the first one's lot. */
  lemma TwoBuysStates(day: nat)
    ensures StatesOf(TwoBuys(day)) == TwoBuysRun(day)
  {
    var txs := TwoBuys(day);
    TwoTrades(txs[0], txs[1]);
  }

  lemma TwoBuysSnapshots(userId: int, clientId: int, productSymbol: string, day: nat)
    ensures Snapshots(userId, clientId, productSymbol, TwoBuysRun(day))
            == [PositionSnapshot(userId, clientId, 1, 1, productSymbol, day * TicksPerDay, 10, 550.0, 1.0, 55.0)]
  {
    var states := TwoBuysRun(day);
    TradeDay(day, 0);
    TradeDay(day, 1);
    SameDaySnapshots(userId, clientId, productSymbol, states[0], states[1]);
    assert states == [states[0], states[1]];
    assert 550.0 / 10.0 == 55.0;
  }

  /** The day ends long 10 at the average buy price 55, costing 550. */
  lemma TwoBuysInOneDay(userId: int, clientId: int, productSymbol: string, day: nat)
    ensures CalculateSnapshots(userId, clientId, productSymbol, Some(TwoBuys(day)))
            == [PositionSnapshot(userId, clientId, 1, 1, productSymbol, day * TicksPerDay, 10, 550.0, 1.0, 55.0)]
  {
    TwoBuysStates(day);
    TwoBuysSnapshots(userId, clientId, productSymbol, day);
  }

  /** Buy 10 at 100 on one day, sell 15 at 90 the next, each with a fee of 1. */
  function Flip(day: nat): seq<Transaction>
  {
    [Record(1, day, 0, Buy, 10, 100.0, 1.0), Record(2, day + 1, 0, Sell, 15, 90.0, 1.0)]
  }

  function FlipRun(day: nat): seq<PerTransactionState>
  {
    var txs := Flip(day);
    [PerTransactionState(txs[0], 1, 10, 1000.0, 10, 0.0, 0, 1.0),
     PerTransactionState(txs[1], 2, -15, 0.0, 0, 1350.0, 15, 1.0)]
  }

  /** The buy opens lot 1; the sell would flip the position to short, so it opens lot 2. */
  lemma FlipLots(day: nat)
    ensures var txs := Flip(day);
            AssignLots(txs) == [TradeWithLot(Priced(txs[0]), 1), TradeWithLot(Priced(txs[1]), 2)]
  {
    var txs := Flip(day);
    NextMidnight(day);
    assert Priced(txs[0]).SignedQuantity == 10 && Priced(txs[1]).SignedQuantity == -15;
    assert StartsNewLot(10, -15);
    assert txs == [txs[0], txs[1]];
    TwoTradeLots(txs[0], txs[1]);
  }

  /** The net position of the two trades is short 5. */
  lemma FlipNetPosition(day: nat)
    ensures Position(PricedAll(Flip(day))) == -5
  {
    var txs := Flip(day);
    var ps := PricedAll(txs);
    assert ps[0].SignedQuantity == 10 && ps[1].SignedQuantity == -15;
    assert ps[..1][..0] == [];
    assert Position(ps[..1]) == 10;
    assert Position(ps) == Position(ps[..1]) + ps[1].SignedQuantity;
  }

  /** The whole sell opens lot 2 with fresh totals. */
  lemma FlipStates(day: nat)
    ensures StatesOf(Flip(day)) == FlipRun(day)
  {
    var txs := Flip(day);
    var ta, tb := TradeWithLot(Priced(txs[0]), 1), TradeWithLot(Priced(txs[1]), 2);
    var expected := FlipRun(day);
    assert StatesOf(txs) == PerTransactionStates([ta, tb]) by {
      FlipLots(day);
    }
    assert PerTransactionStates([ta, tb]) == [StateOf(ta, Add(Zero, ta)), StateOf(tb, Add(Zero, tb))] by {
      TwoTradeStates(ta, tb);
    }
    assert StateOf(ta, Add(Zero, ta)) == expected[0];
    assert StateOf(tb, Add(Zero, tb)) == expected[1] by {
      assert Add(Zero, tb).SellValue == 1350.0;
    }
  }

  lemma FlipSnapshots(userId: int, clientId: int, productSymbol: string, day: nat)
    ensures Snapshots(userId, clientId, productSymbol, FlipRun(day))
            == [PositionSnapshot(userId, clientId, 1, 1, productSymbol, day * TicksPerDay, 10, 1000.0, 1.0, 100.0),
                PositionSnapshot(userId, clientId, 1, 1, productSymbol, (day + 1) * TicksPerDay, -15, -1350.0, 1.0, 90.0)]
  {
    var states := FlipRun(day);
    var s0, s1 := states[0], states[1];
    NextMidnight(day);
    TradeDay(day, 0);
    TradeDay(day + 1, 0);
    TwoDaySnapshots(userId, clientId, productSymbol, s0, s1);
    assert states == [s0, s1];
    assert AveragePrice(states, s0) == 100.0 by {
      assert 1000.0 / 10.0 == 100.0;
    }
    assert AveragePrice(states, s1) == 90.0 by {
      ShortOpenedBySecond(s0, s1);
      assert 1350.0 / 15.0 == 90.0;
    }
  }

  /**
   * The first day ends long 10 at 100. The second ends short the full 15 at
   * the sell price 90, costing -1350, with only the sell's fee as commission,
   * although the net position of the two trades is short 5.
   */
  lemma FlipOpensLotWithWholeTrade(userId: int, clientId: int, productSymbol: string, day: nat)
    ensures Position(PricedAll(Flip(day))) == -5
    ensures CalculateSnapshots(userId, clientId, productSymbol, Some(Flip(day)))
            == [PositionSnapshot(userId, clientId, 1, 1, productSymbol, day * TicksPerDay, 10, 1000.0, 1.0, 100.0),
                PositionSnapshot(userId, clientId, 1, 1, productSymbol, (day + 1) * TicksPerDay, -15, -1350.0, 1.0, 90.0)]
  {
    FlipNetPosition(day);
    FlipStates(day);
    FlipSnapshots(userId, clientId, productSymbol, day);
  }
}
