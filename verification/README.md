# Trading core of a multi-account perpetual-futures console, in Dafny

This project models the pure core of a desktop trading console that runs several exchange
sub-accounts and mirrors a master account's trades onto them. It covers four pieces:

- **Validators** (`validators.dfy`, module `Validators`). These are the three predicates that gate
  an order before it is built: the split-count ceiling per order type, the take-profit ladder
  check, and the stop-loss check.
- **Order splitter** (`order_splitter.dfy`, module `OrderSplitter`). It turns one order of `total`
  size at `entry` into `splitCount` child orders (price, size).
  - Market orders get equal shares at the entry price.
  - Limit orders get random prices in the band `entry ± rangePercent %`.
  - For a non-negative total, every limit child but the last draws a random size of at least
    half the even share.
  - The last limit child takes whatever remains.
  - `random.uniform` becomes an oracle `uniform(k, a, b)`: the answer to the k-th call, which
    lies between `a` and `b`.
- **Account SL/TP state** (`trader.dfy`, module `Trader`). This is the stop-loss / take-profit
  state of one trading account: the take-profit ladder (at most five levels), the stop-loss
  level and the open position. The transitions are setting the ladder and the stop-loss, the
  ratchet that moves the stop-loss to the previous take-profit level when a level fills,
  clearing the ladder, adding to the position under its cap, and risk-based position sizing.
- **Copy trading** (`copy_trading.dfy`, module `CopyTrading`). It derives one copy of the
  master's order dictionary per subscriber. The symbol is replaced by the subscriber's non-empty
  pair-map entry when it has one.

`base.dfy` (module `Base`) holds `Option` (Python's `None`) and `Min`.

Python floats are modelled as Dafny `real`. Equalities that the tests check within `1e-6`
therefore hold exactly here.

Facts about the code that shape the model:
- The take-profit ladder holds plain levels.
- Copy trading copies the order dictionary and changes only its symbol, and only when the
  subscriber's pair-map entry is non-empty.
- The splitter accepts any total, including a negative one.
- Market children are all exactly `total / splitCount`.

## Model

| member | source | states |
|---|---|---|
| Validators.ValidateSplits | utils/validators.py:1-10 | For "limit" and "market", a count is accepted exactly when it is at most that type's ceiling (100 and 30). Any other order type is accepted whatever the count. |
| Validators.SplitTestVectors | tests/test_core.py:14-18 | limit 100 is accepted and 101 rejected; market 30 is accepted and 31 rejected. |
| Validators.ScanTpsCorrect | utils/validators.py:16-21 | The early-exit scan from a previous level `last` accepts exactly the ladders that are positive, strictly ascending and start above `last`. |
| Validators.ValidateTpValues | utils/validators.py:12-21 | A ladder is accepted if and only if every level is positive and the levels strictly ascend. The empty ladder is accepted. |
| Validators.TpTestVectors | tests/test_core.py:20-24 | [1,2,3] and [] are accepted; [3,2,1], [1,1,2] and [-1,2,3] are rejected. |
| Validators.TpPrefixValid | utils/validators.py:17-20 | Every prefix of a valid ladder is valid. |
| Validators.ValidateSlValue | utils/validators.py:23-27 | A stop-loss is valid exactly when it is positive, which is exactly when the one-level ladder made of it is valid. |
| Validators.SlTestVectors | tests/test_core.py:26-29 | 1 is accepted; 0 and -5 are rejected. |
| OrderSplitter.ConstantSizesTotal | core/order_splitter.py:15-17 | Children that all have the same size x sum to their count times x. |
| OrderSplitter.MarketSplits | core/order_splitter.py:14-17 | Market: exactly n children, each at the entry price with size total/n. The sizes sum to exactly `total`. |
| OrderSplitter.MarketTestVector | tests/test_order_splitter.py:16-23 | entry 100, 3 splits, size 6 gives three children (100, 2). |
| OrderSplitter.ReserveIsProduct | core/order_splitter.py:29 | The half shares reserved for m later children equal the source's product m · (total/n) · 0.5. |
| OrderSplitter.InitialReserve | core/order_splitter.py:21-22 | For a non-negative total, the half shares of all n children fit in the total, so the limit loop invariant holds on entry. |
| OrderSplitter.SizeDrawStep | core/order_splitter.py:29-31 | If `remaining` covers the half shares still due, then `max_split` ≥ half share and `max_split` ≤ `remaining`. A draw in range is not lowered by the `min` clamp, and what is left still covers the later children. |
| OrderSplitter.DrawChild | core/order_splitter.py:23-31 | One loop iteration. The price is oracle call 2i over the band. The last child takes `remaining`. Under the reserve invariant a non-last child takes exactly its size draw (call 2i+1), the size is ≥ half share, and the invariant holds for the next child. |
| OrderSplitter.LimitSplits | core/order_splitter.py:18-33 | Limit: exactly n children, whose sizes sum to exactly `total`. Child j's price is oracle call 2j over [min_price, max_price]. For a non-negative total, every non-last child took its unclamped size draw, and every size is at least half the even share. |
| OrderSplitter.GenerateSplits | core/order_splitter.py:4-34 | A count below 1 gives no children. Otherwise there are exactly `splitCount` children, whose sizes sum to exactly `total`. Market children are at the entry price with equal shares. Limit prices lie in the band. For a positive total, every limit size is positive and at least half the even share. |
| OrderSplitter.BandOrdered | core/order_splitter.py:19-20 | For a non-negative entry and band, min_price ≤ max_price, so every limit price lies in [min_price, max_price]. |
| Trader.NewAccount | core/trader.py:5-14 | A new account has an empty ladder, no stop-loss and no position. |
| Trader.SetTakeProfits | core/trader.py:48-50 | The ladder becomes a prefix of the request: all of it if it has at most 5 levels, otherwise its first 5. A valid request stays valid. The stop-loss and position are unchanged. |
| Trader.SetStopLoss | core/trader.py:52-53 | The stop-loss becomes the given level. The ladder and position are unchanged. |
| Trader.MoveSlToPreviousTp | core/trader.py:55-59 | For 0 < i ≤ ladder length, the stop-loss moves to level i-1. Otherwise it is unchanged. The ladder and position are never touched. |
| Trader.OnTpFilled | core/trader.py:62-64 | Has the same effect as move_sl_to_previous_tp. A first-level fill (index 0) leaves the account unchanged. |
| Trader.ResetTps | core/trader.py:67-69 | The ladder is emptied. The stop-loss and position are kept. |
| Trader.CancelTps | core/trader.py:71-73 | The ladder is emptied. The stop-loss and position are kept. |
| Trader.ResetIsCancel | core/trader.py:67-73 | reset_tps and cancel_tps are the same transition. |
| Trader.AddToPosition | core/trader.py:75-80 | With no position, nothing changes. Otherwise the size becomes size + amount while that stays under the cap, and the cap once it would exceed it. The cap is `max_size`, or 1.0 when absent. The result never exceeds the cap. Other position keys are kept. |
| Trader.AddToPositionTwice | core/trader.py:75-80 | Adding x and then a non-negative y equals adding x + y at once. |
| Trader.CalculatePositionSize | core/trader.py:83-87 | The size times the stop-loss percentage equals the balance times the risk percentage, that is, the loss at the stop is exactly the amount risked. |
| Trader.PositionSizeTestVector | tests/test_core.py:36-39 | Balance 1000, risk 2 %, stop 1 % gives size 2000. |
| Trader.FillInOrderStopLoss | core/trader.py:55-64 | After levels 0..m-1 fill in order, the stop-loss sits at level m-2 (m ≥ 2). After the first fill alone it has not moved. The ladder is unchanged. |
| Trader.RatchetTightens | core/trader.py:55-59 | On a valid ladder, filling level j after level i, with 0 < i < j, puts the stop-loss strictly higher than the fill of level i did. |
| Trader.FirstMoveOverridesStopLoss | core/trader.py:57-59 | The move ignores the current stop-loss. After levels 0 and 1 fill in order, a stop-loss that was set above level 0 has moved down to level 0. |
| Trader.OutOfOrderFillLoosens | core/trader.py:55-59 | Nothing enforces fill order: on a valid ladder, filling a lower level i after a higher level j (0 < i < j) moves the stop-loss strictly down. |
| Trader.RatchetTestVector | core/trader.py:57-64 | Ladder [t0,t1,t2] with no stop-loss: filling level 0 leaves it unset; then filling level 1 sets it to t0. |
| CopyTrading.NewManager | core/copy_trading.py:2-5 | A missing pair map becomes the empty map. A given pair map, master and subscriber list are kept. |
| CopyTrading.DeriveOrder | core/copy_trading.py:13-17 | Every key other than "symbol" keeps the master's presence and value. "symbol" is the subscriber's non-empty pair-map entry when one exists. Otherwise the copy equals the master order. |
| CopyTrading.MirrorOrder | core/copy_trading.py:12-17 | Exactly one derived order per subscriber, in subscriber order. The result is indexed by the subscriber list only; the master plays no part in it. |
| CopyTrading.MappingIsPerSubscriber | core/copy_trading.py:12-17 | Changing another account's pair-map entry does not change this subscriber's order. |
| CopyTrading.UnmappedCopiesVerbatim | core/copy_trading.py:13-17 | Without a non-empty entry of its own, a subscriber receives the master order unchanged. |
| CopyTrading.MirrorTestVector | tests/test_core.py:41-49 | With no pair map, two subscribers both trade "BTCUSDT". |

## Left out

- Exchange I/O of `TraderAccount`: `connect`, `place_order`, `set_leverage`, `set_margin_mode` and `listen_order_updates`. These are calls into the exchange SDK, which is not part of this model. The stubs `close_all_positions` and `cancel_all_orders` have empty bodies.
- `TraderManager.run_all` and the task creation in `mirror_order`. These are asyncio scheduling, and only the per-subscriber order derivation is modelled. In the source, the `do_order` closure reads `sub` and `sub_order` when it runs, not when it is created. Tasks that run after the loop has finished would therefore all see the last subscriber. The model does not cover this.
- The user interface, `main.py` and the configuration loader. These are presentation and environment/file reading.
- Randomness. `random.uniform` is an oracle parameter constrained to its bounds. The limit branch draws the price and then, except for the last child, the size; so child i uses call 2i for its price and call 2i+1 for its size.
- Floating-point rounding. All arithmetic is exact over `real`.
- OrderSplitter.LimitSplits: for a negative total the contract states only the count, the exact sum and the prices. The half-share lower bound is false in that case.
- Trader.CalculatePositionSize: a zero stop-loss percentage raises `ZeroDivisionError` in Python. Here it is a precondition instead of an error value.
- Trader.SetStopLoss: takes a level, not `None`. No caller passes `None`.
- Trader.AddToPosition: a position dictionary without a 'size' key raises `KeyError` in Python. The model's position always has a size, so that error is not modelled. An empty dictionary is falsy in Python, so `add_to_position` does nothing on it. The model has no empty-dictionary position; it uses `None`, which behaves the same way. An explicit `'max_size': None` makes Python's `min` raise `TypeError`; the model reads an absent cap as 1.0 and cannot represent that case.
- Pair-map keys are ints, following the `account_id: int` hint of `TraderAccount`. A subscriber without an `account_id` is never mapped. Python would look it up under the key `None`, which an int-keyed map cannot hold.
- Pair-map values are strings. The empty string stands for every falsy value.
- Trader.RatchetTightens: only compares two fills. Filling level j after level i (0 < i < j) moves the stop-loss up. The first fill that moves it sets it to level 0 whatever it was, so a stop-loss set above level 0 moves down (Trader.FirstMoveOverridesStopLoss). The source also does not enforce fill order (Trader.OutOfOrderFillLoosens). "Up" protects a long position; the source never looks at the position's side.
- No stop-loss / take-profit bracket orders are built. The source has only a placeholder comment for them.
