/**
 * Copy trading (core/copy_trading.py): the master's order is copied once per subscriber, with
 * the traded symbol replaced by the subscriber's entry in the pair map when it has a non-empty
 * one. Only the derivation of the per-subscriber orders is modelled, not their dispatch.
 */
module CopyTrading {
  import opened Base

  /** A value of the order dictionary. */
  datatype Value = Text(text: string) | Number(number: real) | Levels(levels: seq<real>) | Null

  /** An order is a dictionary from keys ("symbol", "side", "size", "sl", "tps", ...) to values. */
  type Order = map<string, Value>

  const SymbolKey: string := "symbol"

  /** A subscriber as the router sees it: its account_id, absent for an object that has none. */
  datatype Subscriber = Subscriber(accountId: Option<int>)

  /** The pair map sends a subscriber's account id to the symbol it trades instead. */
  type PairMap = map<int, string>

  datatype Manager = Manager(master: Subscriber, subscribers: seq<Subscriber>, pairMap: PairMap)

  /** CopyTradingManager.__init__: a missing pair map is the empty map; a given one is kept. */
  function NewManager(master: Subscriber, subscribers: seq<Subscriber>, pairMap: Option<PairMap>): (m: Manager)
    ensures m.master == master && m.subscribers == subscribers
    ensures pairMap.None? ==> m.pairMap == map[]
    ensures pairMap.Some? ==> m.pairMap == pairMap.value
  {
    Manager(master, subscribers, pairMap.GetOr(map[]))
  }

  /** The symbol a subscriber trades instead of the master's, if any: its pair-map entry, when
      it has an account id, the map has an entry for it, and that entry is not empty. */
  function MappedSymbol(pairMap: PairMap, sub: Subscriber): Option<string> {
    match sub.accountId
    case None => None
    case Some(id) => if id in pairMap && pairMap[id] != "" then Some(pairMap[id]) else None
  }

  /** The subscriber's copy of the master order: every key but "symbol" is the master's, and
      "symbol" is the mapped symbol when there is one and the master's otherwise. */
  function DeriveOrder(order: Order, sub: Subscriber, pairMap: PairMap): (r: Order)
    ensures forall k :: k != SymbolKey ==> (k in r <==> k in order)
    ensures forall k :: k != SymbolKey && k in order ==> r[k] == order[k]
    ensures MappedSymbol(pairMap, sub).Some? ==>
              SymbolKey in r && r[SymbolKey] == Text(MappedSymbol(pairMap, sub).value)
    ensures MappedSymbol(pairMap, sub).None? ==> r == order
  {
    match MappedSymbol(pairMap, sub)
    case None => order
    case Some(symbol) => order[SymbolKey := Text(symbol)]
  }

  /** mirror_order, without the dispatch: one derived order per subscriber, in subscriber
      order; the master gets none of them. */
  method MirrorOrder(m: Manager, order: Order) returns (orders: seq<Order>)
    ensures |orders| == |m.subscribers|
    ensures forall i :: 0 <= i < |orders| ==> orders[i] == DeriveOrder(order, m.subscribers[i], m.pairMap)
  {
    orders := [];
    for i := 0 to |m.subscribers|
      invariant |orders| == i
      invariant forall j :: 0 <= j < i ==> orders[j] == DeriveOrder(order, m.subscribers[j], m.pairMap)
    {
      var sub := m.subscribers[i];
      var subOrder := order;
      var mapped := MappedSymbol(m.pairMap, sub);
      if mapped.Some? {
        subOrder := subOrder[SymbolKey := Text(mapped.value)];
      }
      orders := orders + [subOrder];
    }
  }

  /** The mapping is per subscriber: changing the pair-map entry of another account id leaves
      this subscriber's order as it was. */
  lemma MappingIsPerSubscriber(order: Order, sub: Subscriber, pairMap: PairMap, other: int, symbol: string)
    requires sub.accountId != Some(other)
    ensures DeriveOrder(order, sub, pairMap[other := symbol]) == DeriveOrder(order, sub, pairMap)
  {
  }

  /** With an empty pair map, or an empty entry, every subscriber gets the master order as is. */
  lemma UnmappedCopiesVerbatim(order: Order, sub: Subscriber, pairMap: PairMap)
    requires sub.accountId.Some? ==> sub.accountId.value !in pairMap || pairMap[sub.accountId.value] == ""
    ensures DeriveOrder(order, sub, pairMap) == order
  {
  }

  /** The copy-trading scenario: two subscribers without a mapping both trade "BTCUSDT". */
  lemma MirrorTestVector()
    ensures var order := map[SymbolKey := Text("BTCUSDT"), "side" := Text("buy"), "order_type" := Text("market"),
                             "size" := Number(1.0), "price" := Null, "sl" := Number(100.0),
                             "tps" := Levels([110.0, 120.0])];
            var m := NewManager(Subscriber(None), [Subscriber(None), Subscriber(None)], None);
            forall i :: 0 <= i < 2 ==> DeriveOrder(order, m.subscribers[i], m.pairMap)[SymbolKey] == Text("BTCUSDT")
  {
  }
}
