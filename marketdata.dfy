/** The WebSocket market-data screen (App/marketdata.tsx): the state update
    on each received message, the grouping of each side into levels at the
    rounding of `toFixed(1)`, and the statistics shown under each side. */
module MarketData {
  import opened Wrappers
  import opened Orders
  import opened Dictionary
  import opened PriceLevelBook

  /** What a book side holds after decoding: absent or falsy, some value
      that is not an array, or an array of `[price, size]` entries. */
  datatype SideValue = Missing | NotAList | List(orders: seq<Order>)

  /** The `data` member of a decoded message. */
  datatype Payload = Payload(bids: SideValue, asks: SideValue)

  /** A received frame: either `JSON.parse` (or reading `message.type`)
      threw, or it produced a value with an optional `type` string and an
      optional truthy `data` member. */
  datatype Message = Unparsable | Decoded(kind: Option<string>, data: Option<Payload>)

  /** The screen's state `{ bids, asks }`. */
  datatype BookState = BookState(bids: SideValue, asks: SideValue)

  /** The state the screen starts in. */
  const Initial: BookState := BookState(List([]), List([]))

  /** `side || []` */
  function OrEmpty(side: SideValue): (r: SideValue)
    ensures !r.Missing?
    ensures side.Missing? ==> r == List([])
    ensures !side.Missing? ==> r == side
  {
    if side.Missing? then List([]) else side
  }

  /** True of the messages that replace the state. */
  predicate Replaces(msg: Message) {
    msg.Decoded? && msg.kind == Some("message") && msg.data.Some?
  }

  /** The `onmessage` handler as a next-state function. */
  function NextState(state: BookState, msg: Message): (r: BookState)
    ensures Replaces(msg) ==> r.bids == OrEmpty(msg.data.value.bids) && r.asks == OrEmpty(msg.data.value.asks)
    ensures !Replaces(msg) ==> r == state
  {
    if Replaces(msg) then
      BookState(OrEmpty(msg.data.value.bids), OrEmpty(msg.data.value.asks))
    else state
  }

  /** `Object.entries(grouped).map(([price, size]) => [parseFloat(price), size])`
      for keys listed in `ks`. */
  function Entries(ks: seq<real>, m: map<real, real>): (r: seq<Order>)
    requires forall j :: 0 <= j < |ks| ==> ks[j] in m
    ensures |r| == |ks|
    ensures forall j :: 0 <= j < |ks| ==> r[j] == Order(ks[j], m[ks[j]])
  {
    seq(|ks|, j requires 0 <= j < |ks| => Order(ks[j], m[ks[j]]))
  }

  /** The levels `processOrderData` yields for one side. */
  function RoundedLevels(round: real -> real, side: SideValue): (r: seq<Order>) {
    if side.List? then
      var g := Grouped(round, side.orders);
      Entries(g.keys, g.values)
    else []
  }

  /** `processOrderData`: anything but an array yields no levels; otherwise
      the sizes are accumulated, in place, into one entry per rounded price. */
  method ProcessOrderData(round: real -> real, side: SideValue) returns (levels: seq<Order>)
    ensures levels == RoundedLevels(round, side)
  {
    if !side.List? {
      return [];
    }
    var orders := side.orders;
    var grouped: Dict<real> := Empty();
    var i: nat := 0;
    while i < |orders|
      invariant i <= |orders|
      invariant Accumulated(round, orders, i, grouped)
    {
      grouped := AddToBucket(round, orders, i, grouped);
      i := i + 1;
    }
    AccumulatedIsGrouped(round, orders, grouped);
    levels := Entries(grouped.keys, grouped.values);
  }

  /** The `forEach` callback of `processOrderData` on order `i`: a bucket
      that is missing or holds 0 is (re)set to 0, then the order's size is
      added to it. */
  method AddToBucket(round: real -> real, orders: seq<Order>, i: nat, grouped: Dict<real>) returns (updated: Dict<real>)
    requires i < |orders|
    requires Accumulated(round, orders, i, grouped)
    ensures Accumulated(round, orders, i + 1, updated)
  {
    var roundedPrice := round(orders[i].price);
    AccumulatedBucket(round, orders, i, grouped, roundedPrice);
    ghost var bucket := BucketSize(round, orders[..i], roundedPrice);
    updated := grouped;
    if roundedPrice !in updated.values || updated.values[roundedPrice] == 0.0 {
      updated := Put(updated, roundedPrice, 0.0);
      PutTwice(grouped, roundedPrice, 0.0, 0.0 + orders[i].size);
    }
    updated := Put(updated, roundedPrice, updated.values[roundedPrice] + orders[i].size);
    AccumulateOrder(round, orders, i, grouped, bucket + orders[i].size);
  }

  /** The result of division by zero, which JavaScript reports as `NaN` or
      an infinity, is kept apart from a numeric average. */
  datatype Average = Exact(value: real) | Undefined(numerator: real)

  datatype Stats = Stats(totalSize: real, averagePrice: Average)

  /** `calculateStats`: `(0, 0)` for a missing or empty list; otherwise the
      total size and the size-weighted average price, unguarded against a
      zero total. */
  function CalculateStats(orders: Option<seq<Order>>): (r: Stats)
    ensures orders.None? || orders.value == [] ==> r == Stats(0.0, Exact(0.0))
    ensures orders.Some? && orders.value != [] ==> r.totalSize == TotalSize(orders.value)
    ensures orders.Some? && orders.value != [] && TotalSize(orders.value) != 0.0 ==>
      r.averagePrice == Exact(TotalNotional(orders.value) / TotalSize(orders.value))
    ensures orders.Some? && orders.value != [] && TotalSize(orders.value) == 0.0 ==>
      r.averagePrice == Undefined(TotalNotional(orders.value))
  {
    match orders
    case None => Stats(0.0, Exact(0.0))
    case Some(s) =>
      if s == [] then Stats(0.0, Exact(0.0))
      else
        var totalSize := TotalSize(s);
        Stats(totalSize, if totalSize == 0.0 then Undefined(TotalNotional(s)) else Exact(Vwap(s)))
  }

  /** What the screen shows. */
  datatype View = View(bidOrders: seq<Order>, askOrders: seq<Order>, bidStats: Stats, askStats: Stats)

  /** The levels and statistics computed from the current state. */
  function Render(round: real -> real, state: BookState): (r: View) {
    var bidOrders := RoundedLevels(round, state.bids);
    var askOrders := RoundedLevels(round, state.asks);
    View(bidOrders, askOrders, CalculateStats(Some(bidOrders)), CalculateStats(Some(askOrders)))
  }

  // ---- Properties of the message handler ----

  /** A replacing message determines the whole new state: what was there
      before is forgotten, and applying it again changes nothing. */
  lemma ReplacementForgetsState(s1: BookState, s2: BookState, msg: Message)
    requires Replaces(msg)
    ensures NextState(s1, msg) == NextState(s2, msg)
    ensures NextState(NextState(s1, msg), msg) == NextState(s1, msg)
  {
  }

  /** After a replacing message neither side is missing: a missing side
      becomes the empty list. */
  lemma NoMissingSideAfterReplacement(state: BookState, msg: Message)
    requires Replaces(msg)
    ensures !NextState(state, msg).bids.Missing? && !NextState(state, msg).asks.Missing?
  {
  }

  // ---- Properties of processOrderData ----

  /** No rounded price is shown twice, and there are no more levels than
      input orders. */
  lemma RoundedLevelsDistinct(round: real -> real, s: seq<Order>)
    ensures |RoundedLevels(round, List(s))| <= |s|
    ensures forall i, j :: 0 <= i < j < |RoundedLevels(round, List(s))| ==>
      RoundedLevels(round, List(s))[i].price != RoundedLevels(round, List(s))[j].price
  {
    KeysDistinct(round, s);
    KeysCount(round, s);
  }

  /** A price is shown exactly when some input order rounds to it, and its
      size is the sum of the sizes of the orders that do. */
  lemma RoundedLevelsExact(round: real -> real, s: seq<Order>, p: real)
    ensures (exists j :: 0 <= j < |RoundedLevels(round, List(s))| && RoundedLevels(round, List(s))[j].price == p)
        <==> (exists i :: 0 <= i < |s| && round(s[i].price) == p)
    ensures forall j :: 0 <= j < |RoundedLevels(round, List(s))| && RoundedLevels(round, List(s))[j].price == p ==>
      RoundedLevels(round, List(s))[j].size == TotalSize(Members(round, s, p))
  {
    var ks := Keys(round, s);
    KeysExact(round, s, p);
    if p in ks {
      var j :| 0 <= j < |ks| && ks[j] == p;
      assert RoundedLevels(round, List(s))[j].price == p;
    }
  }

  /** Conservation: the levels' sizes add up to the input's sizes. */
  lemma RoundedLevelsConserveSize(round: real -> real, s: seq<Order>)
    ensures TotalSize(RoundedLevels(round, List(s))) == TotalSize(s)
  {
    var g := Grouped(round, s);
    EntriesTotal(g.keys, g.values);
    GroupedConservesSize(round, s);
  }

  /** The entries' sizes add up to the sum of the values they list. */
  lemma {:induction false} EntriesTotal(ks: seq<real>, m: map<real, real>)
    requires forall j :: 0 <= j < |ks| ==> ks[j] in m
    ensures TotalSize(Entries(ks, m)) == SumValues(ks, m)
    decreases |ks|
  {
    if ks != [] {
      var init := ks[..|ks| - 1];
      assert Entries(ks, m)[..|ks| - 1] == Entries(init, m);
      EntriesTotal(init, m);
    }
  }

  // ---- Properties of calculateStats ----

  /** On the grouped levels of a side, the total shown is the total size
      of the side's raw orders; a side that is not an array shows 0. */
  lemma StatsTotalIsInputTotal(round: real -> real, side: SideValue)
    ensures CalculateStats(Some(RoundedLevels(round, side))).totalSize ==
      (if side.List? then TotalSize(side.orders) else 0.0)
  {
    if side.List? {
      RoundedLevelsConserveSize(round, side.orders);
      KeysCount(round, side.orders);
      if side.orders == [] {
        assert TotalSize(side.orders) == 0.0;
      }
    }
  }

  /** With non-negative sizes and a positive total, the average lies between
      the lowest and the highest price of the list. */
  lemma StatsAverageWithinPrices(s: seq<Order>)
    requires NonNegativeSizes(s)
    requires TotalSize(s) > 0.0
    ensures s != []
    ensures CalculateStats(Some(s)).averagePrice.Exact?
    ensures MinPrice(s) <= CalculateStats(Some(s)).averagePrice.value <= MaxPrice(s)
  {
    VwapWithinPrices(s);
  }

  /** A side of one order of size 0 is not empty but has total size 0, so
      its average is a division by zero. */
  lemma ZeroSizeSideDividesByZero(round: real -> real, p: real)
    ensures RoundedLevels(round, List([Order(p, 0.0)])) == [Order(round(p), 0.0)]
    ensures CalculateStats(Some(RoundedLevels(round, List([Order(p, 0.0)])))) == Stats(0.0, Undefined(0.0))
  {
    var s := [Order(p, 0.0)];
    assert s[..0] == [];
    assert Keys(round, s) == [round(p)];
    assert Members(round, s, round(p)) == s;
    SumSingleton(Order(p, 0.0), Volume);
    var levels := RoundedLevels(round, List(s));
    assert levels == [Order(round(p), 0.0)];
    SumSingleton(Order(round(p), 0.0), Volume);
    SumSingleton(Order(round(p), 0.0), Notional);
  }

  /** Two bids whose prices both round to 10.0, of sizes 2 and 3, show as
      the single level (10.0, 5) with total size 5 and average price 10.0. */
  lemma TwoBidsAtOnePrice(round: real -> real)
    requires round(10.00001) == 10.0 && round(10.00004) == 10.0
    ensures RoundedLevels(round, List([Order(10.00001, 2.0), Order(10.00004, 3.0)])) == [Order(10.0, 5.0)]
    ensures CalculateStats(Some([Order(10.0, 5.0)])) == Stats(5.0, Exact(10.0))
  {
    var a, b := Order(10.00001, 2.0), Order(10.00004, 3.0);
    var s := [a, b];
    assert s[..1] == [a];
    assert [a][..0] == [];
    assert Keys(round, [a]) == [10.0];
    assert Keys(round, s) == [10.0];
    assert Members(round, [a], 10.0) == [a];
    assert Members(round, s, 10.0) == s;
    SumSingleton(a, Volume);
    assert BucketSize(round, s, 10.0) == 5.0;
    SumSingleton(Order(10.0, 5.0), Volume);
    SumSingleton(Order(10.0, 5.0), Notional);
  }

  // ---- Reordering one snapshot ----

  /** A list without repetitions holds each value at most once. */
  lemma {:induction false} DistinctCount<T>(xs: seq<T>, x: T)
    requires Distinct(xs)
    ensures multiset(xs)[x] == if x in xs then 1 else 0
    decreases |xs|
  {
    if xs != [] {
      var init, last := xs[..|xs| - 1], xs[|xs| - 1];
      assert xs == init + [last];
      assert Distinct(init);
      assert last !in init;
      DistinctCount(init, x);
    }
  }

  /** An entry lists a key of `ks` together with that key's value. */
  lemma EntriesMembership(ks: seq<real>, m: map<real, real>, o: Order)
    requires forall j :: 0 <= j < |ks| ==> ks[j] in m
    ensures o in Entries(ks, m) <==> o.price in ks && o.price in m && o.size == m[o.price]
  {
    if o.price in ks && o.price in m && o.size == m[o.price] {
      var j :| 0 <= j < |ks| && ks[j] == o.price;
      assert Entries(ks, m)[j] == o;
    }
  }

  /** Distinct keys give distinct entries. */
  lemma EntriesDistinct(ks: seq<real>, m: map<real, real>)
    requires Distinct(ks)
    requires forall j :: 0 <= j < |ks| ==> ks[j] in m
    ensures Distinct(Entries(ks, m))
  {
    var e := Entries(ks, m);
    forall i, j | 0 <= i < j < |e| ensures e[i] != e[j] {
      assert e[i].price == ks[i] && e[j].price == ks[j];
    }
  }

  /** Two well-formed objects with the same key-value mapping yield the same
      entries, up to their order. */
  lemma EntriesOfSameValues(d1: Dict<real>, d2: Dict<real>)
    requires Valid(d1) && Valid(d2)
    requires d1.values == d2.values
    ensures multiset(Entries(d1.keys, d1.values)) == multiset(Entries(d2.keys, d2.values))
  {
    var e1, e2 := Entries(d1.keys, d1.values), Entries(d2.keys, d2.values);
    EntriesDistinct(d1.keys, d1.values);
    EntriesDistinct(d2.keys, d2.values);
    forall o ensures multiset(e1)[o] == multiset(e2)[o] {
      EntriesMembership(d1.keys, d1.values, o);
      EntriesMembership(d2.keys, d2.values, o);
      DistinctCount(e1, o);
      DistinctCount(e2, o);
    }
  }

  /** Reordering a snapshot's orders reorders its levels and nothing else. */
  lemma LevelsPermutation(round: real -> real, s: seq<Order>, t: seq<Order>)
    requires multiset(s) == multiset(t)
    ensures multiset(RoundedLevels(round, List(s))) == multiset(RoundedLevels(round, List(t)))
  {
    GroupedValuesOrderIndependent(round, s, t);
    EntriesOfSameValues(Grouped(round, s), Grouped(round, t));
  }

  /** The statistics shown for a side do not depend on the order in which
      the snapshot lists its orders. */
  lemma StatsOrderIndependent(round: real -> real, s: seq<Order>, t: seq<Order>)
    requires multiset(s) == multiset(t)
    ensures CalculateStats(Some(RoundedLevels(round, List(s)))) == CalculateStats(Some(RoundedLevels(round, List(t))))
  {
    var ls, lt := RoundedLevels(round, List(s)), RoundedLevels(round, List(t));
    LevelsPermutation(round, s, t);
    assert |ls| == |multiset(ls)| == |multiset(lt)| == |lt|;
    SumPermutation(ls, lt, Volume);
    SumPermutation(ls, lt, Notional);
  }

  // ---- The start state ----

  /** Before any message the screen shows no levels and (0, 0) statistics
      on both sides. */
  lemma InitialShowsNothing(round: real -> real)
    ensures Render(round, Initial) == View([], [], Stats(0.0, Exact(0.0)), Stats(0.0, Exact(0.0)))
  {
    assert Keys(round, []) == [];
  }

  // ---- The two sides are independent ----

  /** The bid side's levels and statistics depend only on the bid input,
      and likewise for the asks. */
  lemma SidesIndependent(round: real -> real, s1: BookState, s2: BookState)
    ensures s1.bids == s2.bids ==>
      Render(round, s1).bidOrders == Render(round, s2).bidOrders && Render(round, s1).bidStats == Render(round, s2).bidStats
    ensures s1.asks == s2.asks ==>
      Render(round, s1).askOrders == Render(round, s2).askOrders && Render(round, s1).askStats == Render(round, s2).askStats
  {
  }
}
