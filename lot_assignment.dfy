/**
 * Steps 1 and 2 of the engine: order the transactions, give each a signed
 * quantity and a buy or sell value, and split the ordered run into lots. A
 * new lot starts whenever the running position before a trade is flat, or
 * the trade would flip it from long to short or back.
 */
module LotAssignment {
  import opened Transactions
  import opened PriceEncoding
  import opened Ordering

  /** A transaction with its signed quantity and its buy and sell contributions. */
  datatype PricedTrade = PricedTrade(
    Tx: Transaction,
    SignedQuantity: int,
    BuyValue: real,
    BuyQuantity: int,
    SellValue: real,
    SellQuantity: int)

  /** A priced trade tagged with the lot it belongs to. */
  datatype TradeWithLot = TradeWithLot(Trade: PricedTrade, LotGroupId: int)

  /**
   * A buy adds its quantity to the position and anything else takes it away;
   * only a buy has a buy side and only a sell a sell side, each worth its
   * quantity times the unit value.
   */
  function Priced(t: Transaction): (p: PricedTrade)
    ensures p.Tx == t
    ensures p.SignedQuantity == if t.OperationId == Buy then t.Quantity else -t.Quantity
    ensures t.OperationId == Buy || t.OperationId == Sell ==> p.SignedQuantity == p.BuyQuantity - p.SellQuantity
    ensures p.BuyQuantity != 0 ==> t.OperationId == Buy
    ensures p.SellQuantity != 0 ==> t.OperationId == Sell
    ensures p.BuyValue == p.BuyQuantity as real * TxUnitValue(t)
    ensures p.SellValue == p.SellQuantity as real * TxUnitValue(t)
  {
    var unitValue := TxUnitValue(t);
    PricedTrade(
      t,
      if t.OperationId == Buy then t.Quantity else -t.Quantity,
      if t.OperationId == Buy then t.Quantity as real * unitValue else 0.0,
      if t.OperationId == Buy then t.Quantity else 0,
      if t.OperationId == Sell then t.Quantity as real * unitValue else 0.0,
      if t.OperationId == Sell then t.Quantity else 0)
  }

  function PricedAll(s: seq<Transaction>): (ps: seq<PricedTrade>)
    ensures |ps| == |s| && forall i :: 0 <= i < |s| ==> ps[i] == Priced(s[i])
  {
    seq(|s|, i requires 0 <= i < |s| => Priced(s[i]))
  }

  /** The ordered, priced trades the lot loop walks over. */
  function Ordered(transactions: seq<Transaction>): seq<PricedTrade>
  {
    PricedAll(SortByDateId(transactions))
  }

  /** The net signed quantity of a run of trades. */
  function Position(ps: seq<PricedTrade>): (q: int)
  {
    if ps == [] then 0 else Position(ps[..|ps| - 1]) + ps[|ps| - 1].SignedQuantity
  }

  /** The lot test, applied before a trade of `signedQuantity` with `running` held. */
  predicate StartsNewLot(running: int, signedQuantity: int): (b: bool)
    ensures b <==> running == 0 || (running > 0 && running + signedQuantity < 0)
                   || (running < 0 && running + signedQuantity > 0)
  {
    running == 0 || Sign(running) * Sign(running + signedQuantity) == -1
  }

  /** The lot id of the `i`-th ordered trade: 1 for the first, one more at each new lot. */
  function LotIdAt(ps: seq<PricedTrade>, i: nat): (id: int)
    requires i < |ps|
    ensures 1 <= id <= i + 1
  {
    if i == 0 then 1
    else LotIdAt(ps, i - 1) + (if StartsNewLot(Position(ps[..i]), ps[i].SignedQuantity) then 1 else 0)
  }

  /** The first `n` ordered trades, each tagged with its lot id. */
  function Tagged(ps: seq<PricedTrade>, n: nat): seq<TradeWithLot>
    requires n <= |ps|
  {
    if n == 0 then [] else Tagged(ps, n - 1) + [TradeWithLot(ps[n - 1], LotIdAt(ps, n - 1))]
  }

  /** Every transaction in (Date, Id) order, tagged with its lot. */
  function AssignLots(transactions: seq<Transaction>): seq<TradeWithLot>
  {
    var ps := Ordered(transactions);
    Tagged(ps, |ps|)
  }

  /** Order the transactions, price them, then run the lot loop over them. */
  method AssignLotGroups(transactions: seq<Transaction>) returns (tradesWithLots: seq<TradeWithLot>)
    ensures tradesWithLots == AssignLots(transactions)
  {
    var orderedTrades := Ordered(transactions);
    tradesWithLots := TagLots(orderedTrades);
  }

  /**
   * The lot loop: walk the ordered trades keeping the running quantity, and
   * move to the next lot id when the test says so, except at the first trade.
   */
  method TagLots(orderedTrades: seq<PricedTrade>) returns (tradesWithLots: seq<TradeWithLot>)
    ensures tradesWithLots == Tagged(orderedTrades, |orderedTrades|)
  {
    tradesWithLots := [];
    var lotGroupId := 1;
    var runningQuantity := 0;
    for i := 0 to |orderedTrades|
      invariant |tradesWithLots| == i
      invariant runningQuantity == Position(orderedTrades[..i])
      invariant lotGroupId == if i == 0 then 1 else LotIdAt(orderedTrades, i - 1)
      invariant tradesWithLots == Tagged(orderedTrades, i)
    {
      var t := orderedTrades[i];
      if runningQuantity == 0 || Sign(runningQuantity) * Sign(runningQuantity + t.SignedQuantity) == -1 {
        if |tradesWithLots| > 0 {
          lotGroupId := lotGroupId + 1;
        }
      }
      LotIdStep(orderedTrades, i, runningQuantity);
      tradesWithLots := tradesWithLots + [TradeWithLot(t, lotGroupId)];
      PositionSnoc(orderedTrades, i);
      runningQuantity := runningQuantity + t.SignedQuantity;
    }
  }

  // ----- Lot ids -----

  lemma LotIdStep(ps: seq<PricedTrade>, i: nat, running: int)
    requires i < |ps| && running == Position(ps[..i])
    ensures LotIdAt(ps, i) == if i == 0 then 1
                              else LotIdAt(ps, i - 1) + (if StartsNewLot(running, ps[i].SignedQuantity) then 1 else 0)
  {
  }

  /** Lot ids never go down and go up by at most one per trade. */
  lemma {:induction false} LotIdsNonDecreasing(ps: seq<PricedTrade>, i: nat, j: nat)
    requires i <= j < |ps|
    ensures LotIdAt(ps, i) <= LotIdAt(ps, j) <= LotIdAt(ps, i) + (j - i)
  {
    if i < j {
      LotIdsNonDecreasing(ps, i, j - 1);
    }
  }

  /** Every id from 1 to the last trade's id is the id of some trade: lot ids have no gaps. */
  lemma {:induction false} LotIdsConsecutive(ps: seq<PricedTrade>, n: nat, k: int)
    requires n < |ps|
    requires 1 <= k <= LotIdAt(ps, n)
    ensures exists i :: 0 <= i <= n && LotIdAt(ps, i) == k
  {
    if k < LotIdAt(ps, n) {
      assert n > 0;
      LotIdsConsecutive(ps, n - 1, k);
    }
  }

  lemma PositionSnoc(ps: seq<PricedTrade>, i: nat)
    requires i < |ps|
    ensures Position(ps[..i + 1]) == Position(ps[..i]) + ps[i].SignedQuantity
  {
    assert ps[..i + 1][..i] == ps[..i];
  }

  /** Trades that only add to the position never leave it short, and trades that only take away never leave it long. */
  lemma {:induction false} PositionOneSided(ps: seq<PricedTrade>)
    ensures (forall k :: 0 <= k < |ps| ==> ps[k].SignedQuantity >= 0) ==> Position(ps) >= 0
    ensures (forall k :: 0 <= k < |ps| ==> ps[k].SignedQuantity <= 0) ==> Position(ps) <= 0
  {
    if ps != [] {
      PositionOneSided(ps[..|ps| - 1]);
    }
  }

  /**
   * The lot changes exactly when the position before the trade is flat, or the
   * positions before and after the trade are both non-zero with opposite signs.
   */
  lemma NewLotExactlyAtFlatOrFlip(ps: seq<PricedTrade>, i: nat)
    requires 0 < i < |ps|
    ensures var before, after := Position(ps[..i]), Position(ps[..i + 1]);
            LotIdAt(ps, i) == LotIdAt(ps, i - 1) + 1
            <==> before == 0 || (before > 0 && after < 0) || (before < 0 && after > 0)
    ensures LotIdAt(ps, i) == LotIdAt(ps, i - 1) || LotIdAt(ps, i) == LotIdAt(ps, i - 1) + 1
  {
    PositionSnoc(ps, i);
  }

  /** A trade that brings a held position back to exactly zero stays in the current lot. */
  lemma ClosingTradeStaysInLot(ps: seq<PricedTrade>, i: nat)
    requires 0 < i < |ps|
    requires Position(ps[..i]) != 0 && Position(ps[..i + 1]) == 0
    ensures LotIdAt(ps, i) == LotIdAt(ps, i - 1)
  {
    NewLotExactlyAtFlatOrFlip(ps, i);
  }

  /** Between two trades of one lot, no trade starts a new lot. */
  lemma LotIdUnchangedInside(ps: seq<PricedTrade>, i: nat, j: nat, k: nat)
    requires i < k <= j < |ps| && LotIdAt(ps, i) == LotIdAt(ps, j)
    ensures LotIdAt(ps, k) == LotIdAt(ps, k - 1)
  {
    LotIdsNonDecreasing(ps, i, k - 1);
    LotIdsNonDecreasing(ps, k - 1, k);
    LotIdsNonDecreasing(ps, k, j);
  }

  lemma NoFlipInsideLot(ps: seq<PricedTrade>, k: nat)
    requires 0 < k < |ps| && LotIdAt(ps, k) == LotIdAt(ps, k - 1)
    ensures Position(ps[..k]) != 0
    ensures Position(ps[..k + 1]) == 0 || Sign(Position(ps[..k + 1])) == Sign(Position(ps[..k]))
  {
    NewLotExactlyAtFlatOrFlip(ps, k);
  }

  lemma {:induction false} HeldInsideLot(ps: seq<PricedTrade>, i: nat, j: nat, k: nat)
    requires i < k <= j < |ps| && LotIdAt(ps, i) == LotIdAt(ps, j)
    ensures Position(ps[..k]) != 0 && Sign(Position(ps[..k])) == Sign(Position(ps[..i + 1]))
  {
    LotIdUnchangedInside(ps, i, j, k);
    NoFlipInsideLot(ps, k);
    if k > i + 1 {
      HeldInsideLot(ps, i, j, k - 1);
      LotIdUnchangedInside(ps, i, j, k - 1);
      NoFlipInsideLot(ps, k - 1);
    }
  }

  /**
   * A lot is one holding period in one direction: after each of its trades but
   * the last, the position is non-zero and has the sign it had after the first.
   */
  lemma LotHoldsOneDirection(ps: seq<PricedTrade>, i: nat, j: nat)
    requires i < j < |ps|
    requires LotIdAt(ps, i) == LotIdAt(ps, j)
    ensures forall k :: i < k <= j ==>
              Position(ps[..k]) != 0 && Sign(Position(ps[..k])) == Sign(Position(ps[..i + 1]))
  {
    forall k | i < k <= j
      ensures Position(ps[..k]) != 0 && Sign(Position(ps[..k])) == Sign(Position(ps[..i + 1]))
    {
      HeldInsideLot(ps, i, j, k);
    }
  }

  // ----- The final position -----

  lemma {:induction false} PositionCons(p: PricedTrade, ps: seq<PricedTrade>)
    ensures Position([p] + ps) == p.SignedQuantity + Position(ps)
  {
    if ps != [] {
      var front := ps[..|ps| - 1];
      assert ([p] + ps)[..|ps|] == [p] + front;
      PositionCons(p, front);
    }
  }

  lemma PricedAllCons(t: Transaction, s: seq<Transaction>)
    ensures PricedAll([t] + s) == [Priced(t)] + PricedAll(s)
  {
  }

  lemma {:induction false} InsertPosition(t: Transaction, s: seq<Transaction>)
    requires Sorted(s)
    ensures Position(PricedAll(Insert(t, s))) == Priced(t).SignedQuantity + Position(PricedAll(s))
  {
    if s == [] || KeyLe(t, s[0]) {
      PricedAllCons(t, s);
      PositionCons(Priced(t), PricedAll(s));
    } else {
      var rest := Insert(t, s[1..]);
      assert Insert(t, s) == [s[0]] + rest;
      InsertPosition(t, s[1..]);
      PricedAllCons(s[0], rest);
      PricedAllCons(s[0], s[1..]);
      assert s == [s[0]] + s[1..];
      PositionCons(Priced(s[0]), PricedAll(rest));
      PositionCons(Priced(s[0]), PricedAll(s[1..]));
    }
  }

  /**
   * The running quantity after the last ordered trade is the net signed
   * quantity of the transactions, whatever order they came in.
   */
  lemma {:induction false} FinalPositionIsNetQuantity(transactions: seq<Transaction>)
    ensures Position(Ordered(transactions)) == Position(PricedAll(transactions))
  {
    if transactions != [] {
      var t, rest := transactions[0], transactions[1..];
      assert transactions == [t] + rest;
      FinalPositionIsNetQuantity(rest);
      InsertPosition(t, SortByDateId(rest));
      PricedAllCons(t, rest);
      PositionCons(Priced(t), PricedAll(rest));
    }
  }

  // ----- The tagged trades -----

  lemma {:induction false} TaggedAt(ps: seq<PricedTrade>, n: nat)
    requires n <= |ps|
    ensures |Tagged(ps, n)| == n
    ensures forall i :: 0 <= i < n ==> Tagged(ps, n)[i] == TradeWithLot(ps[i], LotIdAt(ps, i))
  {
    if n > 0 {
      TaggedAt(ps, n - 1);
    }
  }

  /** The loop's output: one tagged trade per transaction, in (Date, Id) order. */
  lemma AssignLotsOrder(transactions: seq<Transaction>)
    ensures |AssignLots(transactions)| == |transactions|
    ensures forall i :: 0 <= i < |transactions| ==>
              AssignLots(transactions)[i].Trade == Priced(SortByDateId(transactions)[i])
  {
    TaggedAt(Ordered(transactions), |transactions|);
  }

  /**
   * The loop's lot ids: the first trade is in lot 1, and ids never go down
   * and go up by at most one from one trade to the next.
   */
  lemma AssignLotsIds(transactions: seq<Transaction>)
    ensures var r := AssignLots(transactions);
            && (|r| > 0 ==> r[0].LotGroupId == 1)
            && (forall i, j :: 0 <= i <= j < |r| ==> r[i].LotGroupId <= r[j].LotGroupId)
            && (forall i :: 0 < i < |r| ==> r[i].LotGroupId <= r[i - 1].LotGroupId + 1)
  {
    var ps := Ordered(transactions);
    var r := Tagged(ps, |ps|);
    TaggedAt(ps, |ps|);
    forall i, j | 0 <= i <= j < |r|
      ensures r[i].LotGroupId <= r[j].LotGroupId
    {
      LotIdsNonDecreasing(ps, i, j);
    }
    forall i | 0 < i < |r|
      ensures r[i].LotGroupId <= r[i - 1].LotGroupId + 1
    {
      LotIdsNonDecreasing(ps, i - 1, i);
    }
  }
}
