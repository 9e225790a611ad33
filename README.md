# Order-book aggregation of the market-data screens

This project models the part of the two market-data screens that does real
work: grouping raw `[price, size]` order-book entries into price levels and
computing the size and volume-weighted average price (VWAP) statistics shown
under each side.

- `App/marketdata.tsx` receives the book over a WebSocket. Each frame whose
  `type` is `'message'` and that carries `data` replaces both sides of the
  state (`onmessage`); any other frame, or one that fails to parse, is
  ignored.
  `processOrderData` rounds each price with `toFixed(1)` and adds the sizes
  that share a rounded price into one level. `calculateStats` computes the
  total size and the VWAP of the levels.
- `App/marketdata1.tsx` fetches the book over REST, again whenever the
  symbol or the authentication token changes. `processOrders` builds the
  same grouping into a plain object keyed by `toFixed(10)`.
  `calculateAverage` computes the VWAP over the raw, ungrouped orders. The
  total size shown is the sum of the object's values.

Both screens **sum** the sizes of orders that round to the same price. The
model uses exact arithmetic: prices and sizes are `real`. Rounding is a
parameter `round: real -> K`. It is any total function, so it is
deterministic, and nothing else is assumed about it. In `marketdata.tsx` the
key type is `real`: `round` stands for `parseFloat(x.toFixed(1))`, because
each key string is parsed back into the level's price. In `marketdata1.tsx`
the key type stays generic and stands for the `toFixed(10)` string. A JavaScript plain
object is modelled as `Dictionary.Dict`: a map plus the order in which keys
were first inserted. That is the order `Object.entries` and `Object.values`
use, because no string `toFixed` returns is an array-index key (a finite
result of magnitude below 1e21 contains a decimal point; the others are
`NaN`, `Infinity` or exponent notation such as `1e+21`).

Files and modules:

- `wrappers.dfy`: `Option`, for values that may be absent.
- `dictionary.dfy`: `Dictionary`, the insertion-ordered JavaScript object.
  It provides key assignment (`Put`) and the sum of its values.
- `orders.dfy`: `Orders`. It defines `Order`, the folds `TotalSize` and
  `TotalNotional`, and `Vwap`. It proves that the folds do not depend on
  input order and that the VWAP lies between the lowest and highest price.
- `price_level_book.dfy`: `PriceLevelBook`, the shared specification of the
  grouping. It defines `Members`, `BucketSize`, `Keys` and `Grouped`, the
  loop state `Accumulated`, and the lemmas about them.
- `marketdata.dfy`: `MarketData`, the WebSocket screen. It holds the
  message handler, `processOrderData` as a loop, `calculateStats` and the
  rendered view.
- `marketdata1.dfy`: `MarketData1`, the REST screen. It holds
  `processOrders` as a loop, `calculateAverage` and the summary shown.

The two loops, `ProcessOrderData` and `ProcessOrders`, are proved against
`PriceLevelBook.Grouped`. Each `forEach` callback is its own method
(`AddToBucket`, `AddOrSet`). These methods copy the source's branches
exactly:

- `processOrderData` first (re)sets a bucket that is missing *or holds 0*
  to 0, then adds the size.
- `processOrders` adds to a bucket only when it holds a non-zero (truthy)
  value, and otherwise assigns the size.

Both callbacks are proved to keep the invariant that each bucket holds the
sum of its members.

On a non-empty list whose sizes sum to 0, `calculateStats` divides by zero
(JavaScript gives `NaN` or an infinity). The model records that case as
`Average.Undefined(numerator)` rather than excluding it.

Both screens sum the sizes of orders that share a rounded price and keep
levels whose size is 0; neither replaces a level's size or removes a level.

## Model

| member | source | states |
|---|---|---|
| `Dictionary.Put` | App/marketdata1.tsx:39-43 | assigning to an object key: the value is replaced, an existing key keeps its place in the key order, a new key goes last, and the object stays well formed |
| `Orders.SumPermutation` | App/marketdata1.tsx:49-50 | a `reduce` sum over the orders gives the same result for any permutation of the list |
| `Orders.NotionalBetween` | App/marketdata.tsx:87-88 | with non-negative sizes, Σ price·size lies between lo·Σ size and hi·Σ size for any bounds lo ≤ price ≤ hi |
| `Orders.VwapWithinPrices` | App/marketdata.tsx:87-88 | with non-negative sizes and a positive total, Σ price·size / Σ size lies between the lowest and highest price |
| `Orders.VwapPermutation` | App/marketdata.tsx:87-88 | the total size and the volume-weighted average do not change when the list is reordered |
| `PriceLevelBook.MembersExact` | App/marketdata.tsx:75-80 | an order belongs to the bucket of k exactly when it is an input order whose price rounds to k |
| `PriceLevelBook.MembersCount` | App/marketdata1.tsx:37-44 | bucket k holds every order that rounds to k as often as the input does, and nothing else |
| `PriceLevelBook.KeysDistinct` | App/marketdata.tsx:74-82 | the grouping never lists a rounded price twice |
| `PriceLevelBook.KeysExact` | App/marketdata1.tsx:36-45 | a rounded price is a key exactly when some input order rounds to it |
| `PriceLevelBook.KeysCount` | App/marketdata.tsx:75-81 | there are no more levels than orders, and there is a level whenever there is an order |
| `PriceLevelBook.BucketStep` | App/marketdata.tsx:80 | one more order adds its size to its own bucket and leaves every other bucket unchanged |
| `PriceLevelBook.BucketOfAbsentKey` | App/marketdata1.tsx:42 | a price no order rounds to has no members and size 0, so setting a new bucket to the size equals adding to 0 |
| `PriceLevelBook.BucketNonNegative` | App/marketdata.tsx:78-80 | with non-negative input sizes every level's size is non-negative |
| `PriceLevelBook.GroupedConservesSize` | App/marketdata1.tsx:37-44 | conservation: the bucket values of the grouping add up to the total size of the input |
| `PriceLevelBook.GroupedValuesOrderIndependent` | App/marketdata1.tsx:37-44 | reordering the input leaves the set of rounded prices and every bucket size unchanged; only the key order can differ |
| `PriceLevelBook.AccumulatedBucket` | App/marketdata.tsx:77-78 | during the loop, a bucket's true size is the stored value, or 0 for a key not yet present |
| `PriceLevelBook.AccumulateOrder` | App/marketdata.tsx:75-81 | storing the bucket of order i's rounded price plus its size extends the grouping from i to i + 1 orders |
| `PriceLevelBook.AccumulatedIsGrouped` | App/marketdata.tsx:74-81 | once the loop has seen every order, its dictionary is exactly the grouping of the input |
| `MarketData.OrEmpty` | App/marketdata.tsx:44-45 | the fallback to `[]` never yields a missing side: a missing (falsy) side becomes the empty list, anything else is kept |
| `MarketData.NextState` | App/marketdata.tsx:37-51 | a parsed message with `type === 'message'` and data replaces both sides (missing ones by `[]`); any other message or a parse failure leaves the state unchanged |
| `MarketData.ReplacementForgetsState` | App/marketdata.tsx:41-47 | a replacing message yields the same state whatever the previous state was, and applying it twice equals applying it once |
| `MarketData.NoMissingSideAfterReplacement` | App/marketdata.tsx:44-45 | after a replacing message neither side is missing |
| `MarketData.ProcessOrderData` | App/marketdata.tsx:72-83 | anything but an array yields `[]`; an array yields exactly the grouped levels of its orders, in first-occurrence order |
| `MarketData.AddToBucket` | App/marketdata.tsx:75-81 | the callback (reset a missing or zero bucket to 0, then add the size) extends the grouping by one order |
| `MarketData.RoundedLevelsDistinct` | App/marketdata.tsx:74-82 | the output of `processOrderData` has at most one level per rounded price and no more levels than input orders |
| `MarketData.RoundedLevelsExact` | App/marketdata.tsx:75-82 | a price appears in the output iff some input order rounds to it, and its size is the total size of the orders that do |
| `MarketData.RoundedLevelsConserveSize` | App/marketdata.tsx:75-82 | the sizes of the output levels add up to the sizes of the input orders |
| `MarketData.EntriesTotal` | App/marketdata.tsx:82 | the entries' sizes add up to the sum of the listed values |
| `MarketData.CalculateStats` | App/marketdata.tsx:85-90 | a missing or empty list gives exactly (0, 0); otherwise totalSize is Σ size, the average is Σ price·size / Σ size when that sum is not 0, and a division by zero of Σ price·size when it is |
| `MarketData.StatsAverageWithinPrices` | App/marketdata.tsx:87-88 | with non-negative sizes and a positive total, the average is a number between the lowest and highest price |
| `MarketData.StatsTotalIsInputTotal` | App/marketdata.tsx:92-95 | the total size shown for a side equals the total size of the side's raw orders (0 when the side is not an array) |
| `MarketData.ZeroSizeSideDividesByZero` | App/marketdata.tsx:86-88 | a side of one order of size 0 is not empty, so it reaches the unguarded division: total 0, average undefined |
| `MarketData.TwoBidsAtOnePrice` | App/marketdata.tsx:72-90 | bids (10.00001, 2) and (10.00004, 3) that both round to 10.0 give the single level (10.0, 5), with total 5 and average 10.0 |
| `MarketData.EntriesOfSameValues` | App/marketdata.tsx:82 | two well-formed objects with the same key-value mapping give the same `Object.entries` list up to order |
| `MarketData.LevelsPermutation` | App/marketdata.tsx:72-83 | reordering a snapshot's orders gives the same levels, as a multiset; only their order can change |
| `MarketData.StatsOrderIndependent` | App/marketdata.tsx:85-95 | the total size and average shown for a side are the same for every ordering of the snapshot's orders |
| `MarketData.InitialShowsNothing` | App/marketdata.tsx:7 | before any message both sides show no levels and the statistics (0, 0) |
| `MarketData.SidesIndependent` | App/marketdata.tsx:92-95 | the bid levels and statistics depend only on the bid side, and the ask ones only on the ask side |
| `MarketData1.ProcessOrders` | App/marketdata1.tsx:35-46 | the object built has one key per distinct rounded price, in first-occurrence order, whose value is the total size of the orders that round to it |
| `MarketData1.AddOrSet` | App/marketdata1.tsx:37-44 | the callback (add to a truthy bucket, otherwise set it to the size) extends the grouping by one order |
| `MarketData1.CalculateAverageCases` | App/marketdata1.tsx:48-52 | 0 whenever the total size is 0, including the empty list; otherwise Σ price·size / Σ size over the raw orders |
| `MarketData1.CalculateAverageOrderIndependent` | App/marketdata1.tsx:48-52 | the average is the same for any permutation of the raw orders |
| `MarketData1.CalculateAverageWithinPrices` | App/marketdata1.tsx:48-52 | with non-negative sizes and some volume, the average lies between the lowest and highest raw price |
| `MarketData1.DisplayedTotalsAreInputTotals` | App/marketdata1.tsx:73 | the bid total shown (the sum of the grouped values) equals the total size of the raw bids; line 82 does the same for the asks |
| `MarketData1.MissingSideIsEmpty` | App/marketdata1.tsx:54-57 | a missing side is treated as `[]`: empty grouping, total 0 and average 0 |
| `MarketData1.SidesIndependent` | App/marketdata1.tsx:54-57 | each side's grouping, total and average depend only on that side's input |

## Left out

- React components, hooks (`useState`, `useEffect`), JSX rendering and styles: user-interface code only. The rendered values are modelled as the functions `MarketData.Render` and `MarketData1.Summarize`.
- Network I/O: the `ws-token` request, the WebSocket URL, `onopen`/`onerror`/`onclose`, `ws.close()` and the REST fetch with its loading and error flags. They talk to servers outside the program.
- Console logging (`console.log` of each received frame, `console.error` on a parse failure or a failed fetch): diagnostic output that affects no state.
- `JSON.parse`: a received frame is the `MarketData.Message` datatype, with an `Unparsable` case for a parse failure or a throw while reading the message.
- Binary floating point: `parseFloat` is taken to have produced the numbers already, and `toFixed(1)` / `toFixed(10)` are the abstract `round`. Float rounding, `NaN` (a falsy bucket value that `processOrderData` would reset to 0) and non-numeric strings are not modelled.
- `MarketData.ProcessOrderData`: keys by the parsed `real` of `toFixed(1)`, so it merges the distinct object keys `"-0.0"` (a price in (-0.05, 0)) and `"0.0"`. Prices -0.01 and 0.01 give two levels in the source and one level of the summed size in the model.
- A fetch in `marketdata1.tsx` whose response has no `data.data`: the source stores `undefined` and then throws when it reads `data.bids`. `MarketData1.OrderBook` always has both side fields (each possibly missing), so this failure is not modelled.
- Display formatting (`toFixed(2)`, `toFixed(8)`, `toFixed(10)` in templates): presentation only.
- A side in `marketdata1.tsx` that is present but not an array, and raw entries that are not `[price, size]` pairs: the source throws while destructuring or in `forEach`. The model's sides are lists of pairs.
- `App/login.tsx` and `App.tsx`: a symbol list, PIN submission over HTTP and navigation wiring, with no aggregation logic.
- Sequence numbers, incremental updates, gap detection, zero-size level removal, reconnect and backoff, and concurrency: none of these exist in the code of either screen.
