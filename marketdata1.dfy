/** The REST market-data screen (App/marketdata1.tsx): each side of the
    fetched book is grouped by its price rounded by `toFixed(10)` (the
    abstract `round`, whose results are the object's keys), the total size
    shown is the sum of the grouped values, and the average price is the
    size-weighted average over the raw, ungrouped orders. */
module MarketData1 {
  import opened Wrappers
  import opened Orders
  import opened Dictionary
  import opened PriceLevelBook

  /** The fetched `response.data.data`; either side may be missing. */
  datatype OrderBook = OrderBook(bids: Option<seq<Order>>, asks: Option<seq<Order>>)

  /** `processOrders`: sizes are accumulated, in place, into one entry per
      rounded price. */
  method ProcessOrders<K(==,!new)>(round: real -> K, orders: seq<Order>) returns (groupedOrders: Dict<K>)
    ensures groupedOrders == Grouped(round, orders)
  {
    groupedOrders := Empty();
    var i: nat := 0;
    while i < |orders|
      invariant i <= |orders|
      invariant Accumulated(round, orders, i, groupedOrders)
    {
      groupedOrders := AddOrSet(round, orders, i, groupedOrders);
      i := i + 1;
    }
    AccumulatedIsGrouped(round, orders, groupedOrders);
  }

  /** The `forEach` callback of `processOrders` on order `i`: a bucket
      holding a non-zero (truthy) value gets the size added, any other
      bucket is set to the size. */
  method AddOrSet<K(==,!new)>(round: real -> K, orders: seq<Order>, i: nat, groupedOrders: Dict<K>) returns (updated: Dict<K>)
    requires i < |orders|
    requires Accumulated(round, orders, i, groupedOrders)
    ensures Accumulated(round, orders, i + 1, updated)
  {
    var roundedPrice := round(orders[i].price);
    AccumulatedBucket(round, orders, i, groupedOrders, roundedPrice);
    ghost var bucket := BucketSize(round, orders[..i], roundedPrice);
    if roundedPrice in groupedOrders.values && groupedOrders.values[roundedPrice] != 0.0 {
      updated := Put(groupedOrders, roundedPrice, groupedOrders.values[roundedPrice] + orders[i].size);
    } else {
      updated := Put(groupedOrders, roundedPrice, orders[i].size);
    }
    AccumulateOrder(round, orders, i, groupedOrders, bucket + orders[i].size);
  }

  /** `calculateAverage`: 0 when the total size is 0, otherwise the
      size-weighted average price. */
  function CalculateAverage(orders: seq<Order>): (r: real) {
    var totalSize := TotalSize(orders);
    if totalSize == 0.0 then 0.0 else TotalNotional(orders) / totalSize
  }

  /** What the screen shows for a fetched book. */
  datatype Summary<K> = Summary(
    bidsGrouped: Dict<K>, asksGrouped: Dict<K>,
    avgBidPrice: real, avgAskPrice: real,
    totalBidSize: real, totalAskSize: real)

  /** A missing side counts as `[]`; grouping and totals use the grouped
      values, the averages use the raw orders. */
  function Summarize<K(==,!new)>(round: real -> K, data: OrderBook): (r: Summary<K>) {
    var bids := data.bids.GetOr([]);
    var asks := data.asks.GetOr([]);
    var bidsGrouped := Grouped(round, bids);
    var asksGrouped := Grouped(round, asks);
    Summary(bidsGrouped, asksGrouped,
      CalculateAverage(bids), CalculateAverage(asks),
      Total(bidsGrouped), Total(asksGrouped))
  }

  // ---- Properties of calculateAverage ----

  /** No volume, no average: 0 whenever the total size is 0, in particular
      for the empty list; otherwise exactly the volume-weighted average. */
  lemma CalculateAverageCases(orders: seq<Order>)
    ensures CalculateAverage([]) == 0.0
    ensures TotalSize(orders) == 0.0 ==> CalculateAverage(orders) == 0.0
    ensures TotalSize(orders) != 0.0 ==> CalculateAverage(orders) == Vwap(orders)
  {
  }

  /** The average does not depend on the order the entries arrive in. */
  lemma CalculateAverageOrderIndependent(s: seq<Order>, t: seq<Order>)
    requires multiset(s) == multiset(t)
    ensures CalculateAverage(s) == CalculateAverage(t)
  {
    SumPermutation(s, t, Volume);
    SumPermutation(s, t, Notional);
  }

  /** With non-negative sizes and some volume, the average lies between the
      lowest and the highest raw price. */
  lemma CalculateAverageWithinPrices(s: seq<Order>)
    requires NonNegativeSizes(s)
    requires TotalSize(s) > 0.0
    ensures s != []
    ensures MinPrice(s) <= CalculateAverage(s) <= MaxPrice(s)
  {
    VwapWithinPrices(s);
  }

  // ---- Properties of the summary ----

  /** The total sizes shown, summed over the grouped values, equal the
      total sizes of the raw orders of each side. */
  lemma DisplayedTotalsAreInputTotals<K(!new)>(round: real -> K, data: OrderBook)
    ensures Summarize(round, data).totalBidSize == TotalSize(data.bids.GetOr([]))
    ensures Summarize(round, data).totalAskSize == TotalSize(data.asks.GetOr([]))
  {
    GroupedConservesSize(round, data.bids.GetOr([]));
    GroupedConservesSize(round, data.asks.GetOr([]));
  }

  /** A missing side yields an empty grouping, a total of 0 and an average
      of 0. */
  lemma MissingSideIsEmpty<K(!new)>(round: real -> K, data: OrderBook)
    ensures data.bids.None? ==>
      Summarize(round, data).bidsGrouped == Empty() &&
      Summarize(round, data).totalBidSize == 0.0 && Summarize(round, data).avgBidPrice == 0.0
    ensures data.asks.None? ==>
      Summarize(round, data).asksGrouped == Empty() &&
      Summarize(round, data).totalAskSize == 0.0 && Summarize(round, data).avgAskPrice == 0.0
  {
  }

  /** Each side's grouping, total and average depend only on that side's
      input. */
  lemma SidesIndependent<K(!new)>(round: real -> K, d1: OrderBook, d2: OrderBook)
    ensures d1.bids == d2.bids ==>
      var a, b := Summarize(round, d1), Summarize(round, d2);
      a.bidsGrouped == b.bidsGrouped && a.avgBidPrice == b.avgBidPrice && a.totalBidSize == b.totalBidSize
    ensures d1.asks == d2.asks ==>
      var a, b := Summarize(round, d1), Summarize(round, d2);
      a.asksGrouped == b.asksGrouped && a.avgAskPrice == b.avgAskPrice && a.totalAskSize == b.totalAskSize
  {
  }
}
