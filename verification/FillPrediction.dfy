/** The price scan over a side's levels predicts how much of an order trades, and over how many levels. */
module FillPrediction {
  import opened Types
  import opened MatchingSpec
  import opened BookInvariant
  import opened Conservation
  import opened Priority

  /** A side summed price by price, best price first (bid_levels, ask_levels). */
  function Levels(orders: seq<Order>): seq<PriceQuantity> {
    if orders == [] then []
    else
      var rest := Levels(orders[1..]);
      if rest != [] && rest[0].price == orders[0].price then
        [PriceQuantity(orders[0].price, orders[0].quantity + rest[0].quantity)] + rest[1..]
      else
        [PriceQuantity(orders[0].price, orders[0].quantity)] + rest
  }

  /** The exact answer of the price scan: total quantity at or better than the limit. */
  function ScanTotal(levels: seq<PriceQuantity>, side: Side, limit: int): int {
    if levels == [] then 0
    else (if Crosses(side, limit, levels[0].price) then levels[0].quantity else 0) + ScanTotal(levels[1..], side, limit)
  }

  /** How many levels are at or better than the limit. */
  function ScanCount(levels: seq<PriceQuantity>, side: Side, limit: int): nat {
    if levels == [] then 0
    else (if Crosses(side, limit, levels[0].price) then 1 else 0) + ScanCount(levels[1..], side, limit)
  }

  function CrossableTotal(orders: seq<Order>, side: Side, limit: int): int {
    if orders == [] then 0
    else (if Crosses(side, limit, orders[0].price) then orders[0].quantity else 0) + CrossableTotal(orders[1..], side, limit)
  }

  lemma {:induction false} LevelsStart(orders: seq<Order>)
    ensures Levels(orders) == [] <==> orders == []
    ensures orders != [] ==> Levels(orders)[0].price == orders[0].price
  {
  }

  /** `Levels` lists strictly worsening prices. */
  lemma {:induction false} LevelsOrdered(side: Side, orders: seq<Order>)
    requires Sorted(side, orders)
    ensures forall i, j :: 0 <= i < j < |Levels(orders)| ==> Better(side, Levels(orders)[i].price, Levels(orders)[j].price)
    decreases |orders|
  {
    if orders != [] {
      var rest, levels := Levels(orders[1..]), Levels(orders);
      LevelsOrdered(side, orders[1..]);
      LevelsStart(orders[1..]);
      if rest != [] && rest[0].price == orders[0].price {
        assert forall i :: 0 <= i < |levels| ==> levels[i].price == rest[i].price;
      } else {
        assert forall i :: 0 < i < |levels| ==> levels[i] == rest[i - 1];
        if rest != [] {
          assert Precedes(side, orders[0], orders[1]);
        }
      }
    }
  }

  lemma LaterLevelIsWorse(side: Side, orders: seq<Order>, i: nat)
    requires Sorted(side, orders) && 0 < i < |Levels(orders)|
    ensures Levels(orders)[i].price != orders[0].price
  {
    LevelsOrdered(side, orders);
    LevelsStart(orders);
    assert Better(side, Levels(orders)[0].price, Levels(orders)[i].price);
  }

  /** Each level holds all that rests at its price. */
  lemma {:induction false} LevelsSound(side: Side, orders: seq<Order>, i: nat)
    requires Sorted(side, orders) && i < |Levels(orders)|
    ensures Levels(orders)[i].quantity == TotalAt(orders, Levels(orders)[i].price)
    decreases |orders|
  {
    var rest, levels := Levels(orders[1..]), Levels(orders);
    LevelsStart(orders[1..]);
    if i > 0 { LaterLevelIsWorse(side, orders, i); }
    assert Sorted(side, orders[1..]);
    if rest != [] && rest[0].price == orders[0].price {
      LevelsSound(side, orders[1..], i);
    } else if i > 0 {
      LevelsSound(side, orders[1..], i - 1);
    } else {
      FirstPriceIsElsewhereAbsent(side, orders);
    }
  }

  lemma FirstPriceIsElsewhereAbsent(side: Side, orders: seq<Order>)
    requires Sorted(side, orders) && orders != []
    requires |orders| > 1 ==> orders[1].price != orders[0].price
    ensures TotalAt(orders[1..], orders[0].price) == 0
  {
    var tail := orders[1..];
    forall i | 0 <= i < |tail| ensures tail[i].price != orders[0].price {
      assert tail[i] == orders[i + 1];
      assert Precedes(side, orders[0], orders[1]);
      assert i > 0 ==> Precedes(side, orders[1], orders[i + 1]);
    }
    TotalAtNowhere(tail, orders[0].price);
  }

  lemma {:induction false} TotalAtNowhere(orders: seq<Order>, price: int)
    requires forall i :: 0 <= i < |orders| ==> orders[i].price != price
    ensures TotalAt(orders, price) == 0
    decreases |orders|
  {
    if orders != [] {
      TotalAtNowhere(orders[1..], price);
    }
  }

  lemma {:induction false} ScanTotalIsCrossable(orders: seq<Order>, side: Side, limit: int)
    ensures ScanTotal(Levels(orders), side, limit) == CrossableTotal(orders, side, limit)
    decreases |orders|
  {
    if orders != [] {
      ScanTotalIsCrossable(orders[1..], side, limit);
      var rest, levels := Levels(orders[1..]), Levels(orders);
      if rest != [] && rest[0].price == orders[0].price {
        assert levels[1..] == rest[1..];
      } else {
        assert levels[1..] == rest;
      }
    }
  }

  lemma {:induction false} NothingCrossable(orders: seq<Order>, side: Side, limit: int)
    requires Sorted(side.Opposite(), orders) && (orders != [] ==> !Crosses(side, limit, orders[0].price))
    ensures CrossableTotal(orders, side, limit) == 0
    decreases |orders|
  {
    if orders != [] {
      if |orders| > 1 {
        assert Precedes(side.Opposite(), orders[0], orders[1]);
      }
      NothingCrossable(orders[1..], side, limit);
    }
  }

  lemma {:induction false} CrossableNonNegative(orders: seq<Order>, side: Side, limit: int)
    requires Positive(orders)
    ensures CrossableTotal(orders, side, limit) >= 0
    decreases |orders|
  {
    if orders != [] {
      CrossableNonNegative(orders[1..], side, limit);
    }
  }

  lemma {:induction false} MatchTradesCrossable(resting: seq<Order>, id: nat, side: Side, limit: int, quantity: int, sequence: nat)
    requires Sorted(side.Opposite(), resting) && Positive(resting) && quantity >= 0
    ensures Traded(Match(resting, id, side, limit, quantity, sequence).trades)
         == Min(quantity, CrossableTotal(resting, side, limit))
    decreases |resting|
  {
    CrossableNonNegative(resting, side, limit);
    if quantity > 0 && resting != [] && Crosses(side, limit, resting[0].price) {
      CrossableNonNegative(resting[1..], side, limit);
      if quantity >= resting[0].quantity {
        MatchTradesCrossable(resting[1..], id, side, limit, quantity - resting[0].quantity, sequence + 1);
      }
    } else if quantity > 0 {
      NothingCrossable(resting, side, limit);
    }
  }

  /** The scan of the opposite side's levels says exactly how much of an order trades. */
  lemma ScanPredictsTradedQuantity(b: Book, id: nat, side: Side, limit: int, quantity: int)
    requires BookOk(b) && quantity > 0 && !b.Holds(id)
    ensures var r := Add(b, id, side, limit, quantity).1;
            r.Success? &&
            Traded(r.value) == Min(quantity, ScanTotal(Levels(b.Resting(side.Opposite())), side, limit))
  {
    MatchTradesCrossable(b.Resting(side.Opposite()), id, side, limit, quantity, b.nextSequence);
    ScanTotalIsCrossable(b.Resting(side.Opposite()), side, limit);
  }

  function CrossablePrices(orders: seq<Order>, side: Side, limit: int): set<int> {
    set o | o in orders && Crosses(side, limit, o.price) :: o.price
  }

  function TradedPrices(trades: seq<Trade>): set<int> {
    set t | t in trades :: t.price
  }

  lemma CrossablePricesOfFirst(orders: seq<Order>, side: Side, limit: int)
    requires orders != []
    ensures CrossablePrices(orders, side, limit) ==
            CrossablePrices(orders[1..], side, limit) + if Crosses(side, limit, orders[0].price) then {orders[0].price} else {}
  {
    assert orders == [orders[0]] + orders[1..];
  }

  lemma FirstPriceCountsOnce(resting: Side, orders: seq<Order>, side: Side, limit: int)
    requires Sorted(resting, orders) && orders != [] && Crosses(side, limit, orders[0].price)
    ensures orders[0].price in CrossablePrices(orders[1..], side, limit)
       <==> |orders| > 1 && orders[1].price == orders[0].price
  {
    var tail := orders[1..];
    if |orders| > 1 && orders[1].price == orders[0].price {
      assert tail[0] in tail;
    } else {
      forall i | 0 <= i < |tail| ensures tail[i].price != orders[0].price {
        assert Precedes(resting, orders[0], orders[1]);
        assert i > 0 ==> Precedes(resting, orders[1], orders[i + 1]);
      }
    }
  }

  /** The scan's count is the number of distinct crossable prices. */
  lemma {:induction false} ScanCountsPrices(resting: Side, orders: seq<Order>, side: Side, limit: int)
    requires Sorted(resting, orders)
    ensures ScanCount(Levels(orders), side, limit) == |CrossablePrices(orders, side, limit)|
    decreases |orders|
  {
    if orders != [] {
      var rest, levels := Levels(orders[1..]), Levels(orders);
      ScanCountsPrices(resting, orders[1..], side, limit);
      LevelsStart(orders[1..]);
      CrossablePricesOfFirst(orders, side, limit);
      assert levels[1..] == if rest != [] && rest[0].price == orders[0].price then rest[1..] else rest;
      if Crosses(side, limit, orders[0].price) {
        FirstPriceCountsOnce(resting, orders, side, limit);
      }
    }
  }

  lemma NoCrossablePrices(orders: seq<Order>, side: Side, limit: int)
    requires Sorted(side.Opposite(), orders) && (orders != [] ==> !Crosses(side, limit, orders[0].price))
    ensures CrossablePrices(orders, side, limit) == {}
  {
    forall o | o in orders ensures !Crosses(side, limit, o.price) {
      var i :| 0 <= i < |orders| && orders[i] == o;
      assert i > 0 ==> Precedes(side.Opposite(), orders[0], orders[i]);
    }
    assert forall p :: p !in CrossablePrices(orders, side, limit);
  }

  lemma {:induction false} ExhaustingTradesAllPrices(resting: seq<Order>, id: nat, side: Side, limit: int, quantity: int, sequence: nat)
    requires Sorted(side.Opposite(), resting) && Positive(resting)
    requires quantity >= CrossableTotal(resting, side, limit)
    ensures TradedPrices(Match(resting, id, side, limit, quantity, sequence).trades) == CrossablePrices(resting, side, limit)
    decreases |resting|
  {
    hide TradedPrices, CrossablePrices, Sorted, Positive, Crosses;
    if resting != [] && Crosses(side, limit, resting[0].price) {
      TailKeepsOrder(side.Opposite(), resting);
      CrossableNonNegative(resting[1..], side, limit);
      ExhaustingTradesAllPrices(resting[1..], id, side, limit, quantity - resting[0].quantity, sequence + 1);
      CrossablePricesOfFirst(resting, side, limit);
      var trades := Match(resting, id, side, limit, quantity, sequence).trades;
      TradedPricesOfFirst(trades);
    } else {
      NoCrossablePrices(resting, side, limit);
      NothingTraded(resting, id, side, limit, quantity, sequence);
    }
  }

  lemma TailKeepsOrder(side: Side, orders: seq<Order>)
    requires Sorted(side, orders) && Positive(orders) && orders != []
    ensures Sorted(side, orders[1..]) && Positive(orders[1..]) && orders[0].quantity > 0
  {
  }

  lemma NothingTraded(resting: seq<Order>, id: nat, side: Side, limit: int, quantity: int, sequence: nat)
    requires resting == [] || !Crosses(side, limit, resting[0].price)
    ensures TradedPrices(Match(resting, id, side, limit, quantity, sequence).trades) == {}
  {
  }

  lemma TradedPricesOfFirst(trades: seq<Trade>)
    requires trades != []
    ensures TradedPrices(trades) == TradedPrices(trades[1..]) + {trades[0].price}
  {
    assert trades == [trades[0]] + trades[1..];
  }

  /** An order that exhausts the scanned total trades at as many price levels as the scan counts. */
  lemma ScanPredictsLevelsTraded(b: Book, id: nat, side: Side, limit: int, quantity: int)
    requires BookOk(b) && quantity > 0 && !b.Holds(id)
    requires quantity >= ScanTotal(Levels(b.Resting(side.Opposite())), side, limit)
    ensures var r := Add(b, id, side, limit, quantity).1;
            r.Success? &&
            |TradedPrices(r.value)| == ScanCount(Levels(b.Resting(side.Opposite())), side, limit)
  {
    var resting := b.Resting(side.Opposite());
    ScanTotalIsCrossable(resting, side, limit);
    ExhaustingTradesAllPrices(resting, id, side, limit, quantity, b.nextSequence);
    ScanCountsPrices(side.Opposite(), resting, side, limit);
  }
}
