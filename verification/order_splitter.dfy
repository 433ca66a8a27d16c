/**
 * The order splitter (core/order_splitter.py): one trading intent of `total` size at
 * `entry` becomes `splitCount` child orders (price, size).
 *
 * Each call of Python's `random.uniform(a, b)` is answered by an oracle `uniform`:
 * `uniform(k, a, b)` is the result of the k-th call, and it lies between `a` and `b`.
 */
module OrderSplitter {
  import opened Base

  /** One child order: its limit price and its size. */
  datatype Split = Split(price: real, size: real)

  /** `x` lies between `a` and `b`, in whichever order they come (as random.uniform allows). */
  predicate Between(x: real, a: real, b: real) {
    (a <= x <= b) || (b <= x <= a)
  }

  /** The oracle answers every call within the bounds it was given. */
  ghost predicate UniformOracle(uniform: (nat, real, real) -> real) {
    forall k, a, b :: Between(uniform(k, a, b), a, b)
  }

  /** Sum of the child sizes, accumulated left to right. */
  function TotalSize(s: seq<Split>): real {
    if |s| == 0 then 0.0 else TotalSize(s[..|s| - 1]) + s[|s| - 1].size
  }

  /** Lower edge of the price band: entry lowered by `rangePercent` percent. */
  function BandLow(entry: real, rangePercent: real): real {
    entry * (1.0 - rangePercent / 100.0)
  }

  /** Upper edge of the price band: entry raised by `rangePercent` percent. */
  function BandHigh(entry: real, rangePercent: real): real {
    entry * (1.0 + rangePercent / 100.0)
  }

  /** Half of the even share (`total / n * 0.5`): the least size every limit child is drawn with. */
  function HalfShare(total: real, n: nat): real
    requires n >= 1
  {
    total / (n as real) * 0.5
  }

  /** A positive total gives every child a positive half share. */
  lemma HalfSharePositive(total: real, n: nat)
    requires n >= 1
    ensures total > 0.0 ==> HalfShare(total, n) > 0.0
    ensures total >= 0.0 ==> HalfShare(total, n) >= 0.0
  {
  }

  /** A ladder whose every child has size `x` sums to |s| times `x`. */
  lemma {:induction false} ConstantSizesTotal(s: seq<Split>, x: real)
    requires forall j :: 0 <= j < |s| ==> s[j].size == x
    ensures TotalSize(s) == (|s| as real) * x
    decreases |s|
  {
    if |s| > 0 {
      ConstantSizesTotal(s[..|s| - 1], x);
    }
  }

  /** Appending a child adds its size to the total. */
  lemma TotalSizeAppend(s: seq<Split>, c: Split)
    ensures TotalSize(s + [c]) == TotalSize(s) + c.size
  {
    assert (s + [c])[..|s|] == s;
  }

  /** The market branch: `n` equal shares, all at the entry price. */
  function MarketSplits(entry: real, n: nat, total: real): (r: seq<Split>)
    requires n >= 1
    ensures |r| == n
    ensures forall j :: 0 <= j < n ==> r[j].price == entry && r[j].size * (n as real) == total
    ensures TotalSize(r) == total
  {
    var share := total / (n as real);
    var r := seq(n, _ => Split(entry, share));
    ConstantSizesTotal(r, share);
    r
  }

  lemma MarketTestVector()
    ensures MarketSplits(100.0, 3, 6.0) == [Split(100.0, 2.0), Split(100.0, 2.0), Split(100.0, 2.0)]
  {
  }

  /** The half shares reserved for `m` children, as a sum: `m * half` (see ReserveIsProduct). */
  function Reserve(m: nat, half: real): real {
    if m == 0 then 0.0 else Reserve(m - 1, half) + half
  }

  /** The reserve is the source's product `m * half`. */
  lemma {:induction false} ReserveIsProduct(m: nat, half: real)
    ensures Reserve(m, half) == (m as real) * half
  {
    if m > 0 {
      ReserveIsProduct(m - 1, half);
      assert (m as real) * half == ((m - 1) as real) * half + half;
    }
  }

  /** A non-negative half share reserves a non-negative amount. */
  lemma {:induction false} ReserveNonNegative(m: nat, half: real)
    requires half >= 0.0
    ensures Reserve(m, half) >= 0.0
  {
    if m > 0 {
      ReserveNonNegative(m - 1, half);
    }
  }

  /** Reserving half shares for all `n` children takes exactly half of a non-negative total,
      so the limit loop starts with enough left. */
  lemma InitialReserve(total: real, n: nat)
    requires n >= 1
    requires total >= 0.0
    ensures Reserve(n, HalfShare(total, n)) <= total
  {
    var half := HalfShare(total, n);
    ReserveIsProduct(n, half);
    var share := total / (n as real);
    assert (n as real) * share == total;
    assert (n as real) * half == (n as real) * share * 0.5;
  }

  /** One non-last size draw of the limit branch. While `remaining` still covers half a share
      for each of the `left + 1` children not yet sized, the draw bound `maxSplit` is at least
      the half share and at most `remaining`, so a draw in [half, maxSplit] is not lowered by
      the clamp `min(size, remaining)`, and what remains afterwards still covers half a share
      for each of the `left` children after this one. */
  lemma SizeDrawStep(remaining: real, left: nat, half: real, size: real)
    requires half >= 0.0
    requires remaining >= Reserve(left + 1, half)
    ensures var maxSplit := remaining - Reserve(left, half);
            && half <= maxSplit <= remaining
            && (Between(size, half, maxSplit) ==> Min(size, remaining) == size && size >= half)
            && (Between(size, half, maxSplit) ==> remaining - size >= Reserve(left, half))
  {
    ReserveNonNegative(left, half);
  }

  /** Child `j` of a limit ladder took exactly its size draw (call 2j + 1 of the oracle),
      drawn between the half share and what was left after reserving half shares for the
      later children: the clamp to the remaining size did not lower it. */
  ghost predicate TookSizeDraw(splits: seq<Split>, j: nat, n: nat, total: real, half: real,
                               uniform: (nat, real, real) -> real)
    requires j < |splits| && j < n
  {
    splits[j].size == uniform(2 * j + 1, half, total - TotalSize(splits[..j]) - Reserve(n - j - 1, half))
  }

  /** Appending a child keeps every earlier child's size draw, and a non-last child that took
      its own draw joins them. */
  lemma ExtendTookSizeDraws(before: seq<Split>, child: Split, remaining: real, n: nat, total: real,
                            half: real, uniform: (nat, real, real) -> real)
    requires |before| < n
    requires TotalSize(before) + remaining == total
    requires forall j :: 0 <= j < |before| && j < n - 1 ==> TookSizeDraw(before, j, n, total, half, uniform)
    requires |before| < n - 1 ==>
               child.size == uniform(2 * |before| + 1, half, remaining - Reserve(n - |before| - 1, half))
    ensures forall j :: 0 <= j <= |before| && j < n - 1 ==> TookSizeDraw(before + [child], j, n, total, half, uniform)
  {
    var after := before + [child];
    forall j | 0 <= j <= |before| && j < n - 1
      ensures TookSizeDraw(after, j, n, total, half, uniform)
    {
      assert after[..j] == before[..j];
      if j < |before| {
        assert TookSizeDraw(before, j, n, total, half, uniform);
        assert after[j] == before[j];
      } else {
        assert before[..j] == before;
        assert remaining == total - TotalSize(before);
      }
    }
  }

  /** One iteration of the limit loop: child `i` of `n` draws its price in the band (call 2i
      of the oracle); unless it is the last child it draws its size (call 2i + 1) between the
      half share and `remaining` less the half shares reserved for the later children, and
      clamps the draw to `remaining`; the last child takes all that remains. While `remaining`
      covers the half shares of this and every later child, the size is at least the half
      share, the clamp leaves the draw as it is, and what is left still covers the later
      children. */
  method DrawChild(i: nat, n: nat, remaining: real, half: real, minPrice: real, maxPrice: real,
                   uniform: (nat, real, real) -> real)
    returns (child: Split)
    requires i < n
    requires UniformOracle(uniform)
    ensures child.price == uniform(2 * i, minPrice, maxPrice)
    ensures i == n - 1 ==> child.size == remaining
    ensures half >= 0.0 && remaining >= Reserve(n - i, half) ==>
              child.size >= half && remaining - child.size >= Reserve(n - i - 1, half)
    ensures half >= 0.0 && remaining >= Reserve(n - i, half) && i < n - 1 ==>
              child.size == uniform(2 * i + 1, half, remaining - Reserve(n - i - 1, half))
  {
    var price := uniform(2 * i, minPrice, maxPrice);
    var size;
    if i == n - 1 {
      size := remaining;
      assert Reserve(1, half) == half;
    } else {
      var maxSplit := remaining - Reserve(n - i - 1, half);
      size := uniform(2 * i + 1, half, maxSplit);
      if half >= 0.0 && remaining >= Reserve(n - i, half) {
        SizeDrawStep(remaining, n - i - 1, half, size);
      }
      size := Min(size, remaining);
    }
    child := Split(price, size);
  }

  /** The limit branch. Child i draws its price in the band (call 2i of the oracle); every
      child but the last draws its size between the half share and the bound that leaves every
      later child at least its half share (call 2i + 1), clamped to what remains; the last child
      takes all that remains. */
  method LimitSplits(entry: real, rangePercent: real, n: nat, total: real,
                     uniform: (nat, real, real) -> real)
    returns (splits: seq<Split>)
    requires n >= 1
    requires UniformOracle(uniform)
    ensures |splits| == n
    ensures TotalSize(splits) == total
    ensures forall j :: 0 <= j < n ==>
              splits[j].price == uniform(2 * j, BandLow(entry, rangePercent), BandHigh(entry, rangePercent))
    ensures total >= 0.0 ==> forall j :: 0 <= j < n - 1 ==>
              TookSizeDraw(splits, j, n, total, HalfShare(total, n), uniform)
    ensures total >= 0.0 ==> forall j :: 0 <= j < n ==> splits[j].size >= HalfShare(total, n)
  {
    var minPrice := BandLow(entry, rangePercent);
    var maxPrice := BandHigh(entry, rangePercent);
    var half := HalfShare(total, n);
    var remaining := total;
    splits := [];
    if total >= 0.0 {
      InitialReserve(total, n);
      HalfSharePositive(total, n);
    }
    for i := 0 to n
      invariant |splits| == i
      invariant TotalSize(splits) + remaining == total
      invariant i == n ==> remaining == 0.0
      invariant forall j :: 0 <= j < i ==> splits[j].price == uniform(2 * j, minPrice, maxPrice)
      invariant total >= 0.0 ==> remaining >= Reserve(n - i, half)
      invariant total >= 0.0 ==> forall j :: 0 <= j < i ==> splits[j].size >= half
      invariant total >= 0.0 ==> forall j :: 0 <= j < i && j < n - 1 ==>
                  TookSizeDraw(splits, j, n, total, half, uniform)
    {
      var child := DrawChild(i, n, remaining, half, minPrice, maxPrice, uniform);
      TotalSizeAppend(splits, child);
      if total >= 0.0 {
        ExtendTookSizeDraws(splits, child, remaining, n, total, half, uniform);
      }
      splits := splits + [child];
      remaining := remaining - child.size;
    }
  }

  /** generate_splits: fewer than one split gives no children; "market" gives equal shares at
      the entry price; every other order type takes the randomised limit branch. In both
      branches the child sizes add up exactly to `total`. */
  method GenerateSplits(entry: real, rangePercent: real, splitCount: int, total: real,
                        orderType: string, uniform: (nat, real, real) -> real)
    returns (splits: seq<Split>)
    requires UniformOracle(uniform)
    ensures splitCount < 1 ==> splits == []
    ensures splitCount >= 1 ==> |splits| == splitCount && TotalSize(splits) == total
    ensures splitCount >= 1 && orderType == "market" ==>
              forall j :: 0 <= j < |splits| ==> splits[j].price == entry && splits[j].size * (splitCount as real) == total
    ensures splitCount >= 1 && orderType != "market" ==>
              forall j :: 0 <= j < |splits| ==> Between(splits[j].price, BandLow(entry, rangePercent), BandHigh(entry, rangePercent))
    ensures splitCount >= 1 && orderType != "market" && total >= 0.0 ==>
              forall j :: 0 <= j < |splits| ==> splits[j].size >= HalfShare(total, splitCount)
    ensures splitCount >= 1 && orderType != "market" && total > 0.0 ==>
              forall j :: 0 <= j < |splits| ==> splits[j].size > 0.0
  {
    if splitCount < 1 {
      return [];
    }
    if orderType == "market" {
      splits := MarketSplits(entry, splitCount, total);
    } else {
      splits := LimitSplits(entry, rangePercent, splitCount, total, uniform);
      HalfSharePositive(total, splitCount);
    }
  }

  /** With a non-negative entry price and band, the band is ordered low to high, so every limit
      price lies in [BandLow, BandHigh] (the splitter test's entry * 0.99 <= price <= entry * 1.01). */
  lemma BandOrdered(entry: real, rangePercent: real, price: real)
    requires entry >= 0.0 && rangePercent >= 0.0
    requires Between(price, BandLow(entry, rangePercent), BandHigh(entry, rangePercent))
    ensures BandLow(entry, rangePercent) <= price <= BandHigh(entry, rangePercent)
  {
  }
}
