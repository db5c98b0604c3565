# Position snapshots, verified

A Dafny model of the position-snapshot engine of a trading journal
(`PositionSnapshotCalculator` in `finance/BusinessLogic/PositionSnapshotCalculator.cs`),
with proofs of what it computes.

The engine takes one instrument's buy and sell records and works in four steps:

1. It sorts them by date, then by id.
2. It prices each record. The signed quantity is positive for a buy (operation
   -1) and negative otherwise. The buy and sell sides are worth quantity times
   unit value. The bond future (category 3, product 5) is quoted in points and
   32nds, and its quote becomes a dollar value. The engine then walks the
   records and gives each one a lot id. A new lot starts when the position
   before the trade is flat, or when the trade flips it from long to short or
   back.
3. Within each lot it keeps six running totals: open quantity, bought value
   and quantity, sold value and quantity, and fees.
4. It groups the states by calendar day. Each day yields one snapshot, built
   from the day's latest state:
   - its open quantity and commission;
   - an average price: the lot's average buy price when long, the sell price of
     the lot's opening state when short, 0 when flat;
   - a cost of quantity × average price × multiplier.

Modules, one file each:

- `Transactions`: the record, the (Date, Id) order, the calendar day and `Sign`.
- `PriceEncoding`: the unit value and the bond-future quote.
- `Ordering`: the stable (Date, Id) sort.
- `Grouping`: LINQ `GroupBy` and `Where`.
- `LotAssignment`: step 2, with the lot loop as a method.
- `RunningState`: step 3, with the two accumulator loops as methods.
- `DailySnapshots`: step 4 and the `Calculate` entry point.
- `EngineProperties`: properties of the whole pipeline.
- `Scenarios`: three small histories run through the whole engine, with the
  snapshots they produce.

Each loop of the source is a method proved equal to a pure reference function.
The properties are proved about those functions:

| method | function |
|---|---|
| `AssignLotGroups` | `AssignLots` |
| `TagLots` | `Tagged` |
| `RunLotGroup` | `RunLot` |
| `CalculatePerTransactionState` | `PerTransactionStates` |
| `Calculate` | `CalculateSnapshots` |

Representation choices:

- Decimal amounts are `real`; quantities are `int`.
- A date is a tick count (`Day` is the tick count divided by ticks per day).
- A record's string id is its rank in the order the ids sort in.
- A missing input is `None`.

Three behaviours of the code worth knowing:

- **A flipping trade is not split.** After a buy of 10, a sell of 15 goes
  whole to lot 2, whose totals restart from zero. That day's snapshot is
  short 15 at the sell price, with only the sell's fee, while the net
  position of the two trades is -5 (`Scenarios.FlipOpensLotWithWholeTrade`).
- **The 32nds arithmetic is exact, not truncated.** `117.185` is worth 117
  points and 18.5/32, and 32 to 99 "ticks" carry into the next point
  (`PriceEncoding.TicksPastThirtyOneCarry`).
- **The `(int)` cast of the open quantity changes nothing.** The open
  quantity is a sum of integer quantities, so it is already whole.

## Model

| member | source | states |
|---|---|---|
| Transactions.Day | finance/BusinessLogic/PositionSnapshotCalculator.cs:25 | The day of a timestamp is the one whose midnight is at or before it and whose next midnight is after it. |
| Transactions.DayMonotone | finance/BusinessLogic/PositionSnapshotCalculator.cs:25 | A later timestamp never falls on an earlier day. |
| Transactions.Sign | finance/BusinessLogic/PositionSnapshotCalculator.cs:108 | `Math.Sign`: -1, 0 or 1, positive exactly for positive and negative exactly for negative numbers. |
| PriceEncoding.UnitValue | finance/BusinessLogic/PositionSnapshotCalculator.cs:83-88 | Any price other than the bond future (category 3, product 5) is its own unit value. A bond future quote is worth 1000 per whole point plus less than 3.125 points more for its fraction, and a whole-point quote is worth exactly 1000 per point. |
| PriceEncoding.OtherPricesUnchanged | finance/BusinessLogic/PositionSnapshotCalculator.cs:83-88 | Outside category 3, product 5, the unit value is the price itself. |
| PriceEncoding.BondFutureUnitValue | finance/BusinessLogic/PositionSnapshotCalculator.cs:83-88 | A bond-future quote `points.ticks` is worth 1000 per point plus 1000/32 per tick. |
| PriceEncoding.QuoteRoundTrip | finance/BusinessLogic/PositionSnapshotCalculator.cs:83-88 | For 0 to 31 ticks, reading the unit value back as a quote gives the original quote. |
| PriceEncoding.TicksPastThirtyOneCarry | finance/BusinessLogic/PositionSnapshotCalculator.cs:83-88 | A quote with 32 to 99 ticks is accepted and is worth the same as one point more with 32 ticks fewer. |
| PriceEncoding.BondFutureUnitValueMonotone | finance/BusinessLogic/PositionSnapshotCalculator.cs:83-88 | For 0 to 31 ticks, a higher quote has a higher unit value. |
| PriceEncoding.ExampleQuote | finance/BusinessLogic/PositionSnapshotCalculator.cs:84-87 | 117.18 encodes to 117562.5 and reads back as 117.18. |
| Ordering.Insert | finance/BusinessLogic/PositionSnapshotCalculator.cs:74-76 | Inserting into a sorted sequence gives a sorted sequence one longer, holding the same records plus the new one. |
| Ordering.SortByDateId | finance/BusinessLogic/PositionSnapshotCalculator.cs:74-76 | The result is sorted by (Date, Id) and is a permutation of the input. |
| Ordering.SortKeepsSortedInput | finance/BusinessLogic/PositionSnapshotCalculator.cs:74-76 | Input already in (Date, Id) order comes out unchanged. |
| Grouping.Keys | finance/BusinessLogic/PositionSnapshotCalculator.cs:25 | The `GroupBy` key list: each key once, in order of first occurrence. Its properties are in `KeysAreDistinctKeys`, `KeysIncreasing` and `KeysHaveGroups`. |
| Grouping.Where | finance/BusinessLogic/PositionSnapshotCalculator.cs:40 | The elements with one key, in input order, as `Where` and each `GroupBy` group give them. Its properties are in `WhereHoldsItsKey` and `WhereStartsAtFirst`. |
| Grouping.KeysAreDistinctKeys | finance/BusinessLogic/PositionSnapshotCalculator.cs:24-25 | `GroupBy` lists every key that occurs, and only those, each exactly once. |
| Grouping.KeysIncreasing | finance/BusinessLogic/PositionSnapshotCalculator.cs:24-25 | When the keys never decrease along the input, the group keys come in strictly increasing order. |
| Grouping.WhereHoldsItsKey | finance/BusinessLogic/PositionSnapshotCalculator.cs:40 | A `Where` by key holds exactly the elements with that key, drawn from the input. |
| Grouping.WhereStartsAtFirst | finance/BusinessLogic/PositionSnapshotCalculator.cs:40-41 | A key's group starts with the first element that has the key. |
| Grouping.KeysHaveGroups | finance/BusinessLogic/PositionSnapshotCalculator.cs:24-26 | Every listed key has a non-empty group. |
| LotAssignment.Priced | finance/BusinessLogic/PositionSnapshotCalculator.cs:81-98 | The signed quantity is +quantity for operation -1 and -quantity otherwise. Only a buy has a buy side and only a sell (operation 1) a sell side, each worth quantity × unit value. For a buy or sell the signed quantity is bought minus sold. |
| LotAssignment.Position | finance/BusinessLogic/PositionSnapshotCalculator.cs:103-127 | The running quantity over a run of trades. Its properties are in `PositionOneSided` and `FinalPositionIsNetQuantity`. |
| LotAssignment.PositionOneSided | finance/BusinessLogic/PositionSnapshotCalculator.cs:103-127 | A run of trades that never reduce the position ends non-negative, and a run that never increases it ends non-positive. |
| LotAssignment.StartsNewLot | finance/BusinessLogic/PositionSnapshotCalculator.cs:108 | The lot test holds exactly when the position is flat, or when it is long and the trade takes it below zero, or short and the trade takes it above zero. |
| LotAssignment.LotIdAt | finance/BusinessLogic/PositionSnapshotCalculator.cs:102-113 | The lot id of trade `i` is between 1 and `i + 1`. |
| LotAssignment.AssignLotGroups | finance/BusinessLogic/PositionSnapshotCalculator.cs:72-130 | Sorting, pricing and the lot loop return exactly `AssignLots` of the input. |
| LotAssignment.TagLots | finance/BusinessLogic/PositionSnapshotCalculator.cs:101-129 | The lot loop tags trade `i` with `LotIdAt(i)`. Its invariants keep the running quantity equal to the position so far and the current id equal to the last trade's id. |
| LotAssignment.LotIdsNonDecreasing | finance/BusinessLogic/PositionSnapshotCalculator.cs:108-113 | Between trades `i <= j`, the lot id never goes down and goes up by at most `j - i`. |
| LotAssignment.LotIdsConsecutive | finance/BusinessLogic/PositionSnapshotCalculator.cs:102-113 | Every id from 1 up to a trade's lot id is the lot id of some trade up to it. |
| LotAssignment.NewLotExactlyAtFlatOrFlip | finance/BusinessLogic/PositionSnapshotCalculator.cs:108-113 | After the first trade, the id goes up by one exactly when the position before the trade is 0 or changes strictly from one sign to the other. Otherwise it stays the same. |
| LotAssignment.ClosingTradeStaysInLot | finance/BusinessLogic/PositionSnapshotCalculator.cs:108 | A trade that brings a held position back to exactly zero stays in the current lot. |
| LotAssignment.LotHoldsOneDirection | finance/BusinessLogic/PositionSnapshotCalculator.cs:105-128 | Between two trades of one lot, after each trade but the last, the position is non-zero with the sign it had after the lot's first trade. |
| LotAssignment.FinalPositionIsNetQuantity | finance/BusinessLogic/PositionSnapshotCalculator.cs:103-127 | The running quantity after the last ordered trade equals the net signed quantity of the input, in any input order. |
| LotAssignment.TaggedAt | finance/BusinessLogic/PositionSnapshotCalculator.cs:116-125 | After `n` steps the loop has produced `n` tagged trades: trade `i` with lot id `LotIdAt(i)`. |
| LotAssignment.AssignLotsOrder | finance/BusinessLogic/PositionSnapshotCalculator.cs:74-98 | There is one tagged trade per input record: the `i`-th is the priced `i`-th record in (Date, Id) order. |
| LotAssignment.AssignLotsIds | finance/BusinessLogic/PositionSnapshotCalculator.cs:102-113 | The first trade is in lot 1, lot ids never decrease, and they go up by at most one per trade. |
| RunningState.Add | finance/BusinessLogic/PositionSnapshotCalculator.cs:141-146 | One trade taken into the six running totals. Its properties are in `AddKeepsOpenGap`. |
| RunningState.AddKeepsOpenGap | finance/BusinessLogic/PositionSnapshotCalculator.cs:141-146 | For a buy or a sell, adding the trade keeps the open quantity minus (bought minus sold) unchanged. With non-negative sides, bought and sold quantities never go down. |
| RunningState.Accumulate | finance/BusinessLogic/PositionSnapshotCalculator.cs:138-146 | The running totals of a run of trades, starting from zero. Its properties are in `OpenIsBoughtLessSold` and `StatesAreLotPrefixSums`. |
| RunningState.OpenIsBoughtLessSold | finance/BusinessLogic/PositionSnapshotCalculator.cs:138-146 | Over buys and sells only, the open quantity of a lot equals its bought quantity minus its sold quantity. |
| RunningState.RunLotGroup | finance/BusinessLogic/PositionSnapshotCalculator.cs:138-159 | The six accumulators start at zero, and state `m` of a lot carries the totals of the lot's first `m + 1` trades. The result equals `RunLot`. |
| RunningState.CalculatePerTransactionState | finance/BusinessLogic/PositionSnapshotCalculator.cs:132-161 | Grouping by lot id and running each group returns exactly `PerTransactionStates`. |
| RunningState.PerTransactionStatesSnoc | finance/BusinessLogic/PositionSnapshotCalculator.cs:134-161 | For lot-sorted trades, appending a trade appends exactly one state: that trade with its lot's totals so far. |
| RunningState.StatesLength | finance/BusinessLogic/PositionSnapshotCalculator.cs:134-161 | Lot-sorted trades give one state per trade. |
| RunningState.LastState | finance/BusinessLogic/PositionSnapshotCalculator.cs:134-161 | The last state of lot-sorted trades is the last trade with the totals of its lot up to it. |
| RunningState.EarlierStateKept | finance/BusinessLogic/PositionSnapshotCalculator.cs:134-161 | Dropping the last of lot-sorted trades leaves every earlier state unchanged. |
| RunningState.StateAt | finance/BusinessLogic/PositionSnapshotCalculator.cs:134-161 | For lot-sorted trades, grouping keeps the order: state `i` is trade `i` with the totals of the trades up to it in its lot. |
| RunningState.LotTotalsReset | finance/BusinessLogic/PositionSnapshotCalculator.cs:138-146 | A lot's totals restart at its first trade. Inside a lot they are the previous trade's totals plus this trade. |
| RunningState.StatesAreLotPrefixSums | finance/BusinessLogic/PositionSnapshotCalculator.cs:138-158 | Each state keeps its trade and lot id. All six totals equal the trade's own at a lot's first trade, and the previous state's plus the trade's after that. |
| RunningState.LotQuantitiesGrow | finance/BusinessLogic/PositionSnapshotCalculator.cs:143-145 | With non-negative buy and sell quantities, total bought and total sold are non-negative and never decrease within a lot. |
| DailySnapshots.Snapshots | finance/BusinessLogic/PositionSnapshotCalculator.cs:24-29 | There is one snapshot per distinct day of the states, and no snapshot at all exactly when there are no states. |
| DailySnapshots.LastStateOfDay | finance/BusinessLogic/PositionSnapshotCalculator.cs:29 | The day's chosen state is one of the states, and it falls on that day. |
| DailySnapshots.LatestIn | finance/BusinessLogic/PositionSnapshotCalculator.cs:29 | The state picked is the group's greatest by (Date, Id); on a tie it is the first such state. |
| DailySnapshots.EarliestIn | finance/BusinessLogic/PositionSnapshotCalculator.cs:41 | The state picked is the group's least by (Date, Id); on a tie it is the first such state. |
| DailySnapshots.Calculate | finance/BusinessLogic/PositionSnapshotCalculator.cs:10-70 | The entry point returns exactly `CalculateSnapshots`: nothing for a missing or empty input, else one snapshot per day of the states. |
| DailySnapshots.SnapshotDates | finance/BusinessLogic/PositionSnapshotCalculator.cs:24-29 | There is one snapshot per distinct day; snapshot `i` is dated midnight of the `i`-th distinct day. |
| DailySnapshots.OneSnapshotPerDay | finance/BusinessLogic/PositionSnapshotCalculator.cs:24-60 | Every snapshot's date is a trading day, every trading day has a snapshot, and no two snapshots share a date. |
| DailySnapshots.LatestOfDay | finance/BusinessLogic/PositionSnapshotCalculator.cs:29 | The state chosen for a day is a state of that day, and every state of that day comes no later by (Date, Id). |
| DailySnapshots.SnapshotFromLatestState | finance/BusinessLogic/PositionSnapshotCalculator.cs:29-65 | Each snapshot comes from the latest state of its day. It takes that state's open quantity, commission and instrument, plus the caller's user, client and symbol. Its cost is quantity × average price × multiplier. A flat day has average price 0 and cost 0. |
| DailySnapshots.AveragePrice | finance/BusinessLogic/PositionSnapshotCalculator.cs:31-47 | A flat position has average price 0. A long one has the price that, times the bought quantity, gives the bought value, or 0 when nothing was bought. A short one uses the lot's opening state (see `ShortAverageIsOpeningSellPrice`). |
| DailySnapshots.Multiplier | finance/BusinessLogic/PositionSnapshotCalculator.cs:50 | The bond future's multiplier is 1, because its unit value is already in dollars per contract. Every other instrument uses the category multiplier. |
| DailySnapshots.SnapshotOf | finance/BusinessLogic/PositionSnapshotCalculator.cs:51-65 | The snapshot is dated at the midnight that starts the state's day. It carries the caller's user, client and symbol, the state's instrument, open quantity and commission, and a cost of quantity × average price × multiplier. A flat position has neither average price nor cost. |
| DailySnapshots.LongCostIsBuyCost | finance/BusinessLogic/PositionSnapshotCalculator.cs:31-51 | A long lot with no sells costs its bought value times the multiplier. |
| EngineProperties.AssignLotsSorted | finance/BusinessLogic/PositionSnapshotCalculator.cs:101-129 | The tagged trades keep the input's length and are sorted by lot id. |
| EngineProperties.StatesFollowOrder | finance/BusinessLogic/PositionSnapshotCalculator.cs:132-161 | There is one state per record; state `i` is the `i`-th record in (Date, Id) order, in the lot the loop gave it; lot ids never decrease along the states. |
| EngineProperties.AssignLotsNonNegative | finance/BusinessLogic/PositionSnapshotCalculator.cs:94-97 | Records with non-negative quantities give trades whose buy and sell quantities are non-negative. |
| EngineProperties.LotQuantitiesNeverShrink | finance/BusinessLogic/PositionSnapshotCalculator.cs:138-158 | For non-negative quantities, every state's total bought and sold are non-negative and never decrease from one state of a lot to the next. |
| EngineProperties.NoSnapshotsIffNoTransactions | finance/BusinessLogic/PositionSnapshotCalculator.cs:12-15 | The engine returns no snapshot exactly when the input is missing or empty. |
| EngineProperties.StatesSorted | finance/BusinessLogic/PositionSnapshotCalculator.cs:74-76 | The states come in (Date, Id) order. |
| EngineProperties.StateDaysNonDecreasing | finance/BusinessLogic/PositionSnapshotCalculator.cs:25 | The days of the states never go back. |
| EngineProperties.SnapshotsInDateOrder | finance/BusinessLogic/PositionSnapshotCalculator.cs:24-29 | Snapshot dates strictly increase. |
| EngineProperties.EarliestOfLotIsFirst | finance/BusinessLogic/PositionSnapshotCalculator.cs:40-41 | In states sorted by (Date, Id), the earliest state of a lot, as the engine picks it, is the lot's first state. |
| EngineProperties.FirstOfLotTotals | finance/BusinessLogic/PositionSnapshotCalculator.cs:138-146 | A lot's first state holds the totals of its own trade alone. |
| EngineProperties.OneTradeSellAverage | finance/BusinessLogic/PositionSnapshotCalculator.cs:43-45 | For one trade alone, sold value over sold quantity is its unit value if it sells a positive quantity, and 0 otherwise. |
| EngineProperties.OpeningOfLot | finance/BusinessLogic/PositionSnapshotCalculator.cs:40-45 | A lot's first state is the one the engine picks as earliest. Its totals are its own trade's. |
| EngineProperties.ShortAverageIsOpeningSellPrice | finance/BusinessLogic/PositionSnapshotCalculator.cs:36-47 | A short position is valued at the unit price of the trade that opened its lot, when that trade sells a positive quantity, and at 0 otherwise. |
| Scenarios.TwoTradeLots | finance/BusinessLogic/PositionSnapshotCalculator.cs:101-128 | For two records in order, the first is in lot 1. The second is in lot 2 exactly when the lot test fires on it. |
| Scenarios.TwoTradeStates | finance/BusinessLogic/PositionSnapshotCalculator.cs:134-161 | For two lot-sorted trades, the second state continues the first's totals in one lot and restarts them in a new lot. |
| Scenarios.TwoTrades | finance/BusinessLogic/PositionSnapshotCalculator.cs:72-161 | The lots and states of any two records in (Date, Id) order. |
| Scenarios.SameDaySnapshots | finance/BusinessLogic/PositionSnapshotCalculator.cs:24-29 | Two states of one day give one snapshot, from the later state. |
| Scenarios.TwoDaySnapshots | finance/BusinessLogic/PositionSnapshotCalculator.cs:24-29 | Two states of two days give two snapshots, one per state. |
| Scenarios.ShortOpenedBySecond | finance/BusinessLogic/PositionSnapshotCalculator.cs:36-47 | A short state that opened its own lot is valued at its own sold value over sold quantity. |
| Scenarios.RoundTripStates | finance/BusinessLogic/PositionSnapshotCalculator.cs:134-161 | Buy 10 at 100 then sell 10 at 110 stay in one lot, ending flat with both fees. |
| Scenarios.RoundTripSnapshots | finance/BusinessLogic/PositionSnapshotCalculator.cs:24-65 | Those two states give one snapshot: quantity 0, average price 0, cost 0, commission 2. |
| Scenarios.RoundTripInOneDay | finance/BusinessLogic/PositionSnapshotCalculator.cs:10-70 | The whole engine on that history returns exactly that one snapshot. |
| Scenarios.TwoBuysStates | finance/BusinessLogic/PositionSnapshotCalculator.cs:134-161 | Buying 5 at 50 and then 5 at 60 accumulates in one lot to 10 bought for 550. |
| Scenarios.TwoBuysSnapshots | finance/BusinessLogic/PositionSnapshotCalculator.cs:24-65 | Those states give one snapshot: quantity 10, average price 55, cost 550, commission 1. |
| Scenarios.TwoBuysInOneDay | finance/BusinessLogic/PositionSnapshotCalculator.cs:10-70 | The whole engine on that history returns exactly that snapshot. |
| Scenarios.FlipLots | finance/BusinessLogic/PositionSnapshotCalculator.cs:108-113 | Buy 10 then sell 15: the sell would flip the position, so it opens lot 2. |
| Scenarios.FlipNetPosition | finance/BusinessLogic/PositionSnapshotCalculator.cs:103-127 | The net position of those two trades is -5. |
| Scenarios.FlipStates | finance/BusinessLogic/PositionSnapshotCalculator.cs:134-161 | The whole sell of 15 starts lot 2 with fresh totals: open -15, sold 15 for 1350, fee 1. |
| Scenarios.FlipSnapshots | finance/BusinessLogic/PositionSnapshotCalculator.cs:24-65 | Day one is long 10 at 100 (cost 1000). Day two is short 15 at 90 (cost -1350), with commission 1. |
| Scenarios.FlipOpensLotWithWholeTrade | finance/BusinessLogic/PositionSnapshotCalculator.cs:10-128 | The whole engine on that history returns exactly those two snapshots, although the net position is -5. |

## Left out

- Decimal precision: `decimal` is modelled as exact `real`. The 28-digit
  precision and the rounding of the divisions (average price, 32nds) are not
  modelled.
- `(int)` cast of the open quantity: the C# cast throws `OverflowException`
  outside the 32-bit range. The model keeps the unbounded integer, which is
  always whole because quantities are integers.
- Negating `int.MinValue` for a sell wraps around in unchecked C#. It is not
  modelled; quantities are unbounded integers.
- Record ids are strings ordered by the culture-sensitive comparer. The model
  uses each id's rank in that order.
- Dates are tick counts: `DateTime.Kind` and time zones are not modelled.
- The order of equal (Date, Id) records is kept as LINQ's stable sort keeps it.
- The LINQ sort-then-`First` picks (lines 29 and 41) are modelled as selection
  of the maximum and minimum, with the same tie-breaking.
- `ContractMultiplier` (`finance/Model/SecurityTransactionLog.cs:63`) is never
  read by the engine and is not modelled. `CategoryMultiplier` is a field of the
  record, filled in by the caller.
- Record fields the engine does not read (symbol, notes, user and account ids,
  application key) are not modelled.
- The deferred, per-lot evaluation of the accumulating `Select` is modelled as
  one eager pass per lot; `ToList` runs it exactly once.
- `PriceEncoding.QuoteOf`: the inverse of the bond-future encoding. It is not
  part of the engine; it is there to state the round trip.
- Realized profit and loss, the cash-balance impact and their callers in
  `finance/v1/Function/SecurityTransactionLogger.cs` are not part of this model.
  Their implementations are not among the source files.
- HTTP functions, SQL calls, the ticker cache and quote scraping are not part of this model.
