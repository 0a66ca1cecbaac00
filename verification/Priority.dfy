/** Price-time priority: who is filled, by how much, at what price and in what order. */
module Priority {
  import opened Types
  import opened MatchingSpec
  import opened BookInvariant

  /** The trade that the order of rank `k` on the opposite side takes part in, if it does. */
  function TradeAtRank(resting: seq<Order>, k: nat, id: nat, side: Side, quantity: int, sequence: nat): Trade
    requires k < |resting|
  {
    Trade(id, resting[k].id, side, resting[k].price,
          Min(resting[k].quantity, quantity - Total(resting[..k])), sequence + k)
  }

  lemma TotalOfPrefix(orders: seq<Order>, k: nat)
    requires 0 < k <= |orders|
    ensures Total(orders[..k]) == orders[0].quantity + Total(orders[1..][..k - 1])
  {
    assert orders[..k][1..] == orders[1..][..k - 1];
  }

  /** The trades are those of the first ranks in order, each for all that is left to take. */
  lemma {:induction false} TradesFollowRanks(resting: seq<Order>, id: nat, side: Side, limit: int, quantity: int, sequence: nat)
    requires Positive(resting)
    ensures var trades := Match(resting, id, side, limit, quantity, sequence).trades;
            && |trades| <= |resting|
            && forall k :: 0 <= k < |trades| ==> trades[k] == TradeAtRank(resting, k, id, side, quantity, sequence)
    decreases |resting|
  {
    if quantity <= 0 || resting == [] || !Crosses(side, limit, resting[0].price) || quantity < resting[0].quantity {
    } else {
      var rest := Match(resting[1..], id, side, limit, quantity - resting[0].quantity, sequence + 1).trades;
      TradesFollowRanks(resting[1..], id, side, limit, quantity - resting[0].quantity, sequence + 1);
      var trades := Match(resting, id, side, limit, quantity, sequence).trades;
      forall k | 0 <= k < |trades| ensures trades[k] == TradeAtRank(resting, k, id, side, quantity, sequence) {
        if k > 0 {
          TotalOfPrefix(resting, k);
          assert trades[k] == rest[k - 1];
        }
      }
    }
  }

  /** Rank `k` trades exactly if it and all before it are within the limit and leave it something. */
  lemma {:induction false} RankTradesIff(resting: seq<Order>, id: nat, side: Side, limit: int, quantity: int, sequence: nat, k: nat)
    requires Positive(resting) && k < |resting|
    ensures k < |Match(resting, id, side, limit, quantity, sequence).trades| <==>
            && (forall j :: 0 <= j <= k ==> Crosses(side, limit, resting[j].price))
            && Total(resting[..k]) < quantity
    decreases |resting|
  {
    if k > 0 {
      TotalOfPrefix(resting, k);
      TotalNonNegative(resting[1..][..k - 1]);
      if quantity > 0 && Crosses(side, limit, resting[0].price) && quantity >= resting[0].quantity {
        RankTradesIff(resting[1..], id, side, limit, quantity - resting[0].quantity, sequence + 1, k - 1);
        assert forall j :: 0 < j <= k ==> resting[j] == resting[1..][j - 1];
      }
    }
  }

  lemma {:induction false} TotalNonNegative(orders: seq<Order>)
    requires Positive(orders)
    ensures Total(orders) >= 0
    decreases |orders|
  {
    if orders != [] {
      TotalNonNegative(orders[1..]);
    }
  }

  /** What stands before `o` in price-time priority, wherever it is stored. */
  function Ahead(side: Side, orders: seq<Order>, o: Order): int {
    if orders == [] then 0
    else (if Precedes(side, orders[0], o) then orders[0].quantity else 0) + Ahead(side, orders[1..], o)
  }

  lemma {:induction false} AheadAppend(side: Side, a: seq<Order>, b: seq<Order>, o: Order)
    ensures Ahead(side, a + b, o) == Ahead(side, a, o) + Ahead(side, b, o)
    decreases |a|
  {
    if a == [] {
      assert a + b == b;
    } else {
      AheadAppend(side, a[1..], b, o);
      assert (a + b)[1..] == a[1..] + b;
    }
  }

  lemma AheadWithout(side: Side, orders: seq<Order>, i: nat, o: Order)
    requires i < |orders|
    ensures Ahead(side, orders, o) ==
            Ahead(side, orders[..i] + orders[i + 1..], o) + if Precedes(side, orders[i], o) then orders[i].quantity else 0
  {
    assert orders == orders[..i] + orders[i..];
    assert orders[i..][1..] == orders[i + 1..];
    AheadAppend(side, orders[..i], orders[i..], o);
    AheadAppend(side, orders[..i], orders[i + 1..], o);
  }

  lemma MultisetWithout(orders: seq<Order>, i: nat)
    requires i < |orders|
    ensures multiset(orders[..i] + orders[i + 1..]) == multiset(orders) - multiset{orders[i]}
  {
    assert orders == orders[..i] + ([orders[i]] + orders[i + 1..]);
  }

  lemma SameOrderElsewhere(a: seq<Order>, b: seq<Order>) returns (i: nat)
    requires multiset(a) == multiset(b) && a != []
    ensures i < |b| && b[i] == a[0] && multiset(a[1..]) == multiset(b[..i] + b[i + 1..])
  {
    assert a[0] in multiset(b);
    i :| 0 <= i < |b| && b[i] == a[0];
    assert a[..0] + a[0 + 1..] == a[1..];
    MultisetWithout(a, 0);
    MultisetWithout(b, i);
  }

  /** `Ahead` does not depend on how the orders are arranged. */
  lemma {:induction false} AheadIgnoresArrangement(side: Side, a: seq<Order>, b: seq<Order>, o: Order)
    requires multiset(a) == multiset(b)
    ensures Ahead(side, a, o) == Ahead(side, b, o)
    decreases |a|
  {
    if a == [] {
      assert |multiset(b)| == 0;
    } else {
      var i := SameOrderElsewhere(a, b);
      AheadIgnoresArrangement(side, a[1..], b[..i] + b[i + 1..], o);
      AheadWithout(side, b, i, o);
    }
  }

  lemma {:induction false} AheadOfAll(side: Side, orders: seq<Order>, o: Order)
    requires forall i :: 0 <= i < |orders| ==> Precedes(side, orders[i], o)
    ensures Ahead(side, orders, o) == Total(orders)
    decreases |orders|
  {
    if orders != [] {
      AheadOfAll(side, orders[1..], o);
    }
  }

  lemma {:induction false} AheadOfNone(side: Side, orders: seq<Order>, o: Order)
    requires forall i :: 0 <= i < |orders| ==> !Precedes(side, orders[i], o)
    ensures Ahead(side, orders, o) == 0
    decreases |orders|
  {
    if orders != [] {
      AheadOfNone(side, orders[1..], o);
    }
  }

  /** On a sorted side, what is ahead of an order is what is stored before it. */
  lemma AheadOfRank(side: Side, orders: seq<Order>, k: nat)
    requires Sorted(side, orders) && k < |orders|
    ensures Ahead(side, orders, orders[k]) == Total(orders[..k])
  {
    assert orders == orders[..k] + orders[k..];
    AheadAppend(side, orders[..k], orders[k..], orders[k]);
    AheadOfAll(side, orders[..k], orders[k]);
    forall i | 0 <= i < |orders[k..]| ensures !Precedes(side, orders[k..][i], orders[k]) {
      assert i > 0 ==> Precedes(side, orders[k], orders[k + i]);
    }
    AheadOfNone(side, orders[k..], orders[k]);
  }

  /** The total an order receives in a list of trades. */
  function FilledFrom(trades: seq<Trade>, restingId: nat): int {
    if trades == [] then 0
    else (if trades[0].restingId == restingId then trades[0].quantity else 0) + FilledFrom(trades[1..], restingId)
  }

  lemma {:induction false} FilledFromNone(trades: seq<Trade>, restingId: nat)
    requires forall k :: 0 <= k < |trades| ==> trades[k].restingId != restingId
    ensures FilledFrom(trades, restingId) == 0
    decreases |trades|
  {
    if trades != [] {
      FilledFromNone(trades[1..], restingId);
    }
  }

  lemma {:induction false} FilledFromOne(trades: seq<Trade>, k: nat)
    requires k < |trades|
    requires forall i, j :: 0 <= i < j < |trades| ==> trades[i].restingId != trades[j].restingId
    ensures FilledFrom(trades, trades[k].restingId) == trades[k].quantity
    decreases |trades|
  {
    if k == 0 {
      FilledFromNone(trades[1..], trades[0].restingId);
    } else {
      FilledFromOne(trades[1..], k - 1);
    }
  }

  function Clamp(x: int, high: int): int {
    if x < 0 then 0 else Min(x, high)
  }

  /** What price-time priority promises to one resting order, with no reference to matching. */
  function Entitlement(resting: seq<Order>, o: Order, side: Side, limit: int, quantity: int): int {
    if Crosses(side, limit, o.price) then Clamp(quantity - Ahead(side.Opposite(), resting, o), o.quantity) else 0
  }

  /** Every resting order trades exactly what price-time priority entitles it to. */
  lemma MatchIsPriceTimePriority(resting: seq<Order>, id: nat, side: Side, limit: int, quantity: int, sequence: nat, k: nat)
    requires SideOk(side.Opposite(), resting, sequence) && k < |resting|
    ensures FilledFrom(Match(resting, id, side, limit, quantity, sequence).trades, resting[k].id)
         == Entitlement(resting, resting[k], side, limit, quantity)
  {
    var trades := Match(resting, id, side, limit, quantity, sequence).trades;
    TradesFollowRanks(resting, id, side, limit, quantity, sequence);
    RankTradesIff(resting, id, side, limit, quantity, sequence, k);
    AheadOfRank(side.Opposite(), resting, k);
    assert forall i :: 0 <= i < |trades| ==> trades[i].restingId == resting[i].id;
    if k < |trades| {
      FilledFromOne(trades, k);
    } else {
      FilledFromNone(trades, resting[k].id);
      assert forall j :: 0 <= j < k ==> Precedes(side.Opposite(), resting[j], resting[k]);
    }
  }

  /** What the matching promises about the list of trades as a whole. */
  lemma TradesRespectLimitAndPriority(resting: seq<Order>, id: nat, side: Side, limit: int, quantity: int, sequence: nat)
    requires SideOk(side.Opposite(), resting, sequence)
    ensures var m := Match(resting, id, side, limit, quantity, sequence);
            && |m.trades| <= |resting|
            // each trade is at its resting order's price and within the limit, for a positive quantity,
            && (forall k :: 0 <= k < |m.trades| ==>
                  && m.trades[k].price == resting[k].price && Crosses(side, limit, m.trades[k].price)
                  && 0 < m.trades[k].quantity <= resting[k].quantity && m.trades[k].sequence == sequence + k)
            // prices never improve for the incoming order, all but the last resting order are used up,
            && (forall j, k :: 0 <= j < k < |m.trades| ==>
                  !Better(side.Opposite(), m.trades[k].price, m.trades[j].price) && m.trades[j].quantity == resting[j].quantity)
            // and at most one order trades without being used up
            && |resting| - |m.resting| <= |m.trades| <= |resting| - |m.resting| + 1
  {
    hide Match, Better, Crosses, Sorted, Positive;
    var trades := Match(resting, id, side, limit, quantity, sequence).trades;
    TradesFollowRanks(resting, id, side, limit, quantity, sequence);
    forall k | 0 <= k < |trades|
      ensures trades[k].price == resting[k].price && Crosses(side, limit, trades[k].price)
      ensures 0 < trades[k].quantity <= resting[k].quantity && trades[k].sequence == sequence + k
    {
      TradeWithinLimit(resting, id, side, limit, quantity, sequence, k);
    }
    forall j, k | 0 <= j < k < |trades|
      ensures !Better(side.Opposite(), trades[k].price, trades[j].price) && trades[j].quantity == resting[j].quantity
    {
      TradesInOrder(resting, id, side, limit, quantity, sequence, j, k);
    }
    TradesCountOrders(resting, id, side, limit, quantity, sequence);
  }

  lemma TradeWithinLimit(resting: seq<Order>, id: nat, side: Side, limit: int, quantity: int, sequence: nat, k: nat)
    requires Positive(resting) && k < |resting| && k < |Match(resting, id, side, limit, quantity, sequence).trades|
    ensures var t := Match(resting, id, side, limit, quantity, sequence).trades[k];
            && t.price == resting[k].price && Crosses(side, limit, t.price)
            && 0 < t.quantity <= resting[k].quantity && t.sequence == sequence + k
  {
    hide Match, Total;
    TradesFollowRanks(resting, id, side, limit, quantity, sequence);
    RankTradesIff(resting, id, side, limit, quantity, sequence, k);
  }

  /** An earlier trade is not at a worse price for the incoming order, and used its resting order up. */
  lemma TradesInOrder(resting: seq<Order>, id: nat, side: Side, limit: int, quantity: int, sequence: nat, j: nat, k: nat)
    requires SideOk(side.Opposite(), resting, sequence)
    requires j < k < |resting| && k < |Match(resting, id, side, limit, quantity, sequence).trades|
    ensures var trades := Match(resting, id, side, limit, quantity, sequence).trades;
            !Better(side.Opposite(), trades[k].price, trades[j].price) && trades[j].quantity == resting[j].quantity
  {
    hide Match, Total;
    TradesFollowRanks(resting, id, side, limit, quantity, sequence);
    RankTradesIff(resting, id, side, limit, quantity, sequence, k);
    assert Precedes(side.Opposite(), resting[j], resting[k]);
    TotalPastRank(resting, j, k);
  }

  lemma TotalPastRank(orders: seq<Order>, j: nat, k: nat)
    requires Positive(orders) && j < k <= |orders|
    ensures Total(orders[..k]) >= Total(orders[..j]) + orders[j].quantity
  {
    assert orders[..k] == orders[..j] + [orders[j]] + orders[j + 1..k];
    TotalAppend(orders[..j] + [orders[j]], orders[j + 1..k]);
    TotalAppend(orders[..j], [orders[j]]);
    TotalNonNegative(orders[j + 1..k]);
  }

  lemma {:induction false} TradesCountOrders(resting: seq<Order>, id: nat, side: Side, limit: int, quantity: int, sequence: nat)
    ensures var m := Match(resting, id, side, limit, quantity, sequence);
            |resting| - |m.resting| <= |m.trades| <= |resting| - |m.resting| + 1
    decreases |resting|
  {
    if quantity > 0 && resting != [] && Crosses(side, limit, resting[0].price) && quantity >= resting[0].quantity {
      TradesCountOrders(resting[1..], id, side, limit, quantity - resting[0].quantity, sequence + 1);
    }
  }
}
