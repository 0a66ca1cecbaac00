/** What the reports of the book (quantities, ids, levels, counts) mean in terms of its orders. */
module BookReports {
  import opened Types
  import opened MatchingSpec
  import opened BookInvariant
  import opened FillPrediction
  import opened Slab
  import opened BookLinks
  import opened BookUpdates

  function Ids(orders: seq<Order>): seq<nat> {
    if orders == [] then [] else [orders[0].id] + Ids(orders[1..])
  }

  /** The ids at a price, oldest first. */
  function IdsAt(orders: seq<Order>, price: int): seq<nat> {
    if orders == [] then []
    else (if orders[0].price == price then [orders[0].id] else []) + IdsAt(orders[1..], price)
  }

  /** The ids of orders, one for each and in their order. */
  lemma {:induction false} IdsOfOrders(orders: seq<Order>)
    ensures |Ids(orders)| == |orders| && forall k :: 0 <= k < |orders| ==> Ids(orders)[k] == orders[k].id
    decreases |orders|
  {
    if orders != [] {
      IdsOfOrders(orders[1..]);
    }
  }

  /** Where the orders at a price stand, from rank `from` on. */
  function RanksAt(orders: seq<Order>, price: int, from: nat): seq<nat>
    requires from <= |orders|
    decreases |orders| - from
  {
    if from == |orders| then []
    else if orders[from].price == price then [from] + RanksAt(orders, price, from + 1)
    else RanksAt(orders, price, from + 1)
  }

  /** `RanksAt` leads to orders at the price only, in their order, */
  lemma {:induction false} RanksLeadThere(orders: seq<Order>, price: int, from: nat)
    requires from <= |orders|
    ensures forall r :: r in RanksAt(orders, price, from) ==> from <= r < |orders| && orders[r].price == price
    ensures forall j, k :: 0 <= j < k < |RanksAt(orders, price, from)| ==>
              RanksAt(orders, price, from)[j] < RanksAt(orders, price, from)[k]
    decreases |orders| - from
  {
    if from < |orders| {
      RanksLeadThere(orders, price, from + 1);
      var rest := RanksAt(orders, price, from + 1);
      assert forall k :: 0 <= k < |rest| ==> rest[k] in rest;
    }
  }

  /** and to all of them. */
  lemma {:induction false} RanksLeadToAll(orders: seq<Order>, price: int, from: nat, i: nat) returns (k: nat)
    requires from <= i < |orders| && orders[i].price == price
    ensures k < |RanksAt(orders, price, from)| && RanksAt(orders, price, from)[k] == i
    decreases |orders| - from
  {
    if i == from {
      k := 0;
    } else {
      k := RanksLeadToAll(orders, price, from + 1, i);
      k := if orders[from].price == price then k + 1 else k;
    }
  }

  lemma {:induction false} IdsAtRanks(orders: seq<Order>, price: int, from: nat)
    requires from <= |orders|
    ensures var ranks, ids := RanksAt(orders, price, from), IdsAt(orders[from..], price);
            |ids| == |ranks| && forall k :: 0 <= k < |ranks| ==> ranks[k] < |orders| && ids[k] == orders[ranks[k]].id
    decreases |orders| - from
  {
    if from < |orders| {
      assert orders[from..][1..] == orders[from + 1..];
      IdsAtRanks(orders, price, from + 1);
    }
  }

  /** The ids at a price are those of all orders at that price, each once and in their order. */
  lemma IdsAtOfOrders(orders: seq<Order>, price: int) returns (ranks: seq<nat>)
    ensures |ranks| == |IdsAt(orders, price)|
    ensures forall k :: 0 <= k < |ranks| ==>
              ranks[k] < |orders| && orders[ranks[k]].price == price && orders[ranks[k]].id == IdsAt(orders, price)[k]
    ensures forall j, k :: 0 <= j < k < |ranks| ==> ranks[j] < ranks[k]
    ensures forall i :: 0 <= i < |orders| && orders[i].price == price ==> i in ranks
  {
    ranks := RanksAt(orders, price, 0);
    assert orders[0..] == orders;
    RanksLeadThere(orders, price, 0);
    IdsAtRanks(orders, price, 0);
    hide RanksAt;
    assert forall k :: 0 <= k < |ranks| ==> ranks[k] in ranks;
    forall i | 0 <= i < |orders| && orders[i].price == price ensures i in ranks {
      var k := RanksLeadToAll(orders, price, 0, i);
    }
  }

  /** An id is listed at a price exactly if an order with it rests there. */
  lemma IdListedIff(orders: seq<Order>, price: int, id: nat)
    ensures id in IdsAt(orders, price) <==> exists k :: 0 <= k < |orders| && orders[k].id == id && orders[k].price == price
  {
    var ranks := IdsAtOfOrders(orders, price);
    if id in IdsAt(orders, price) {
      var k :| 0 <= k < |IdsAt(orders, price)| && IdsAt(orders, price)[k] == id;
      assert orders[ranks[k]].id == id;
    }
    if i: nat :| i < |orders| && orders[i].id == id && orders[i].price == price {
      var k :| 0 <= k < |ranks| && ranks[k] == i;
      assert IdsAt(orders, price)[k] == id;
    }
  }

  /** On a side of the book, the id listed first belongs to another, older order. */
  lemma IdsAtListOldestFirst(side: Side, orders: seq<Order>, price: int, i: nat, j: nat) returns (k: nat, l: nat)
    requires Sorted(side, orders) && i < j < |IdsAt(orders, price)|
    ensures k < l < |orders| && orders[k].price == orders[l].price == price
    ensures orders[k].id == IdsAt(orders, price)[i] && orders[l].id == IdsAt(orders, price)[j]
    ensures orders[k].sequence < orders[l].sequence
  {
    var ranks := IdsAtOfOrders(orders, price);
    k, l := ranks[i], ranks[j];
    assert Precedes(side, orders[k], orders[l]);
  }

  lemma {:induction false} IdsAtAppend(a: seq<Order>, b: seq<Order>, price: int)
    ensures IdsAt(a + b, price) == IdsAt(a, price) + IdsAt(b, price)
    decreases |a|
  {
    if a == [] {
      assert a + b == b;
    } else {
      IdsAtAppend(a[1..], b, price);
      assert (a + b)[1..] == a[1..] + b;
    }
  }

  ghost predicate NoneAt(orders: seq<Order>, price: int) {
    forall k :: 0 <= k < |orders| ==> orders[k].price != price
  }

  lemma {:induction false} NothingAt(orders: seq<Order>, price: int)
    requires NoneAt(orders, price)
    ensures TotalAt(orders, price) == 0 && IdsAt(orders, price) == []
    decreases |orders|
  {
    if orders != [] {
      NothingAt(orders[1..], price);
    }
  }

  lemma {:induction false} AllAt(orders: seq<Order>, price: int)
    requires forall k :: 0 <= k < |orders| ==> orders[k].price == price
    ensures TotalAt(orders, price) == Total(orders) && IdsAt(orders, price) == Ids(orders)
    decreases |orders|
  {
    if orders != [] {
      AllAt(orders[1..], price);
    }
  }

  lemma {:induction false} FlatElsewhere(mem: Memory, side: Side, es: seq<Entry>, qs: seq<seq<Addr>>, locs: Index, price: int)
    requires |es| == |qs| && forall i :: 0 <= i < |es| ==> LevelOk(mem, side, es[i], qs[i], locs) && es[i].price != price
    ensures NoneAt(Flat(mem, qs), price)
    decreases |es|
  {
    if es != [] {
      assert LevelOk(mem, side, es[0], qs[0], locs);
      OrdersAtPrice(mem, side, es[0].price, qs[0], locs);
      FlatElsewhere(mem, side, es[1..], qs[1..], locs, price);
    }
  }

  /** All that rests at a price is in the level found for it. */
  lemma LevelHoldsPrice(mem: Memory, side: Side, es: seq<Entry>, qs: seq<seq<Addr>>, es2: seq<Entry>, qs2: seq<seq<Addr>>,
                        locs: Index, price: int)
    requires BookLinked(mem, side, es, qs, es2, qs2, locs) && |qs| == |es|
    ensures var i := PositionOf(side, es, price);
            if i < |es| && es[i].price == price then
              && TotalAt(Flat(mem, qs), price) == Total(OrdersOf(mem, qs[i]))
              && IdsAt(Flat(mem, qs), price) == Ids(OrdersOf(mem, qs[i]))
            else
              TotalAt(Flat(mem, qs), price) == 0 && IdsAt(Flat(mem, qs), price) == []
  {
    var i := PositionOf(side, es, price);
    PositionIs(side, es, price);
    if i < |es| && es[i].price == price {
      var a, m, b := Flat(mem, qs[..i]), OrdersOf(mem, qs[i]), Flat(mem, qs[i + 1..]);
      FlatSplit(mem, qs, i);
      assert LevelOk(mem, side, es[i], qs[i], locs);
      OrdersAtPrice(mem, side, price, qs[i], locs);
      OtherLevelsElsewhere(mem, side, es, qs, locs, i);
      AllAt(m, price);
      NothingAt(a, price);
      NothingAt(b, price);
      TotalAtAppend(a + m, b, price);
      TotalAtAppend(a, m, price);
      IdsAtAppend(a + m, b, price);
      IdsAtAppend(a, m, price);
    } else {
      FlatElsewhere(mem, side, es, qs, locs, price);
      NothingAt(Flat(mem, qs), price);
    }
  }

  lemma OtherLevelsElsewhere(mem: Memory, side: Side, es: seq<Entry>, qs: seq<seq<Addr>>, locs: Index, i: nat)
    requires TableOk(mem, side, es, qs, locs) && i < |es|
    ensures NoneAt(Flat(mem, qs[..i]), es[i].price) && NoneAt(Flat(mem, qs[i + 1..]), es[i].price)
  {
    forall j | 0 <= j < |es| && j != i ensures LevelOk(mem, side, es[j], qs[j], locs) && es[j].price != es[i].price {
      OtherPrice(side, es, i, j);
    }
    FlatElsewhere(mem, side, es[..i], qs[..i], locs, es[i].price);
    FlatElsewhere(mem, side, es[i + 1..], qs[i + 1..], locs, es[i].price);
  }

  /** A group of orders at one price in front of others is one level in front of theirs. */
  lemma {:induction false} LevelsOfGroup(group: seq<Order>, rest: seq<Order>, price: int)
    requires group != [] && forall k :: 0 <= k < |group| ==> group[k].price == price
    requires rest != [] ==> rest[0].price != price
    ensures FillPrediction.Levels(group + rest) == [PriceQuantity(price, Total(group))] + FillPrediction.Levels(rest)
    decreases |group|
  {
    assert (group + rest)[1..] == group[1..] + rest;
    if |group| == 1 {
      assert group[1..] + rest == rest;
      LevelsStart(rest);
    } else {
      LevelsOfGroup(group[1..], rest, price);
    }
  }

  lemma LevelsOfTable(mem: Memory, side: Side, es: seq<Entry>, qs: seq<seq<Addr>>, es2: seq<Entry>, qs2: seq<seq<Addr>>,
                      locs: Index, i: nat)
    requires BookLinked(mem, side, es, qs, es2, qs2, locs) && |qs| == |es| && NoEmptyLevel(qs) && i < |es|
    ensures FillPrediction.Levels(Flat(mem, qs[i..]))
         == [PriceQuantity(es[i].price, Total(OrdersOf(mem, qs[i])))] + FillPrediction.Levels(Flat(mem, qs[i + 1..]))
  {
    assert LevelOk(mem, side, es[i], qs[i], locs);
    OrdersAtPrice(mem, side, es[i].price, qs[i], locs);
    assert qs[i..][0] == qs[i] && qs[i..][1..] == qs[i + 1..];
    var rest := Flat(mem, qs[i + 1..]);
    if i + 1 < |es| {
      assert qs[i + 1..][0] == qs[i + 1];
      assert LevelOk(mem, side, es[i + 1], qs[i + 1], locs);
      OrdersAtPrice(mem, side, es[i + 1].price, qs[i + 1], locs);
      OtherPrice(side, es, i, i + 1);
    }
    LevelsOfGroup(OrdersOf(mem, qs[i]), rest, es[i].price);
  }

  function IdSet(orders: seq<Order>): set<nat> {
    set o | o in orders :: o.id
  }

  lemma {:induction false} UniqueIdsCount(orders: seq<Order>)
    requires UniqueIds(orders)
    ensures |IdSet(orders)| == |orders|
    decreases |orders|
  {
    if orders != [] {
      UniqueIdsCount(orders[1..]);
      assert orders == [orders[0]] + orders[1..];
      assert IdSet(orders) == {orders[0].id} + IdSet(orders[1..]);
    }
  }

  /** The index has as many entries as orders rest. */
  lemma IndexCountsOrders(mem: Memory, bids: seq<Entry>, bidQueues: seq<seq<Addr>>, asks: seq<Entry>, askQueues: seq<seq<Addr>>,
                          locs: Index, next: nat)
    requires BookLinked(mem, Buy, bids, bidQueues, asks, askQueues, locs)
    requires BookOk(Book(Flat(mem, bidQueues), Flat(mem, askQueues), next))
    ensures |locs| == |Flat(mem, bidQueues)| + |Flat(mem, askQueues)|
  {
    hide BookLinked, Flat, HasId, IdSet;
    var b, a := Flat(mem, bidQueues), Flat(mem, askQueues);
    UniqueIdsCount(b);
    UniqueIdsCount(a);
    forall id ensures (id in locs.Keys <==> id in IdSet(b) + IdSet(a)) && !(id in IdSet(b) && id in IdSet(a)) {
      HoldsIffIndexed(mem, bids, bidQueues, asks, askQueues, locs, next, id);
      IdSetIs(b, id);
      IdSetIs(a, id);
    }
    assert locs.Keys == IdSet(b) + IdSet(a);
    assert IdSet(b) !! IdSet(a);
    assert |locs| == |locs.Keys|;
  }

  lemma IdSetIs(orders: seq<Order>, id: nat)
    ensures id in IdSet(orders) <==> HasId(orders, id)
  {
    if HasId(orders, id) {
      var k :| 0 <= k < |orders| && orders[k].id == id;
      assert orders[k] in orders;
    }
  }

  // Taking the book down.

  function Nodes(qs: seq<seq<Addr>>): nat {
    if qs == [] then 0 else |qs[0]| + Nodes(qs[1..])
  }

  lemma {:induction false} NodesCountOrders(mem: Memory, qs: seq<seq<Addr>>)
    ensures |Flat(mem, qs)| == Nodes(qs)
    decreases |qs|
  {
    if qs != [] {
      NodesCountOrders(mem, qs[1..]);
    }
  }

  lemma {:induction false} NodesAppend(a: seq<seq<Addr>>, b: seq<seq<Addr>>)
    ensures Nodes(a + b) == Nodes(a) + Nodes(b)
    decreases |a|
  {
    if a == [] {
      assert a + b == b;
    } else {
      NodesAppend(a[1..], b);
      assert (a + b)[1..] == a[1..] + b;
    }
  }

  /** Levels from `from` on are still linked, and none shares a node with another. */
  ghost predicate Intact(mem: Memory, es: seq<Entry>, qs: seq<seq<Addr>>, from: nat) {
    && |es| == |qs|
    && (forall i :: from <= i < |es| ==> Linked(mem, qs[i], es[i].level.head, NULL, es[i].level.tail))
    && (forall i, j :: 0 <= i < j < |qs| ==> Elements(qs[i]) !! Elements(qs[j]))
  }

  lemma SeparateLevels(mem: Memory, side: Side, e: Entry, q: seq<Addr>, side2: Side, e2: Entry, q2: seq<Addr>, locs: Index)
    requires LevelOk(mem, side, e, q, locs) && LevelOk(mem, side2, e2, q2, locs) && (side != side2 || e.price != e2.price)
    ensures Elements(q) !! Elements(q2)
  {
  }

  lemma IntactIs(mem: Memory, es: seq<Entry>, qs: seq<seq<Addr>>, sides: seq<Side>, locs: Index)
    requires |es| == |qs| == |sides|
    requires forall i :: 0 <= i < |es| ==> LevelOk(mem, sides[i], es[i], qs[i], locs)
    requires forall i, j :: 0 <= i < j < |es| ==> sides[i] != sides[j] || es[i].price != es[j].price
    ensures Intact(mem, es, qs, 0)
  {
    forall i | 0 <= i < |es| ensures Linked(mem, qs[i], es[i].level.head, NULL, es[i].level.tail) {
      assert LevelOk(mem, sides[i], es[i], qs[i], locs);
    }
    hide LevelOk;
    forall i, j | 0 <= i < j < |qs| ensures Elements(qs[i]) !! Elements(qs[j]) {
      SeparateLevels(mem, sides[i], es[i], qs[i], sides[j], es[j], qs[j], locs);
    }
  }

  lemma AllIntact(mem: Memory, bids: seq<Entry>, bidQueues: seq<seq<Addr>>, asks: seq<Entry>, askQueues: seq<seq<Addr>>, locs: Index)
    requires BookLinked(mem, Buy, bids, bidQueues, asks, askQueues, locs)
    ensures Intact(mem, bids + asks, bidQueues + askQueues, 0)
  {
    hide LevelOk, Intact, Elements, Linked, PricesOk, Rests;
    var es, qs, n := bids + asks, bidQueues + askQueues, |bids|;
    var sides := seq(|es|, i requires 0 <= i < |es| => if i < n then Buy else Sell);
    forall i | 0 <= i < |es| ensures LevelOk(mem, sides[i], es[i], qs[i], locs) {
      assert i < n ==> LevelOk(mem, Buy, bids[i], bidQueues[i], locs);
      assert i >= n ==> LevelOk(mem, Sell, asks[i - n], askQueues[i - n], locs);
    }
    forall i, j | 0 <= i < j < |es| ensures sides[i] != sides[j] || es[i].price != es[j].price {
      if j < n { OtherPrice(Buy, bids, i, j); }
      if i >= n { OtherPrice(Sell, asks, i - n, j - n); }
    }
    IntactIs(mem, es, qs, sides, locs);
  }

  lemma IntactAfter(mem: Memory, mem': Memory, es: seq<Entry>, qs: seq<seq<Addr>>, i: nat)
    requires Intact(mem, es, qs, i) && i < |es|
    requires forall a :: a in mem && !mem[a].FreeNode? && a !in Elements(qs[i]) ==> a in mem' && mem'[a] == mem[a]
    ensures Intact(mem', es, qs, i + 1)
  {
    forall j | i + 1 <= j < |es| ensures Linked(mem', qs[j], es[j].level.head, NULL, es[j].level.tail) {
      LinkedNodes(mem, qs[j], es[j].level.head, NULL, es[j].level.tail);
      LinkedFrame(mem, mem', qs[j], es[j].level.head, NULL, es[j].level.tail);
    }
  }

  lemma IntactLevel(mem: Memory, es: seq<Entry>, qs: seq<seq<Addr>>, i: nat)
    requires Intact(mem, es, qs, i) && i < |es|
    ensures |es| == |qs| && Linked(mem, qs[i], es[i].level.head, NULL, es[i].level.tail)
    ensures Nodes(qs[i..]) == |qs[i]| + Nodes(qs[i + 1..])
  {
    assert qs[i..][0] == qs[i] && qs[i..][1..] == qs[i + 1..];
  }

  lemma IndexedNode(mem: Memory, side: Side, es: seq<Entry>, qs: seq<seq<Addr>>, es2: seq<Entry>, qs2: seq<seq<Addr>>,
                    locs: Index, id: nat)
    requires BookLinked(mem, side, es, qs, es2, qs2, locs) && id in locs
    ensures IsNode(mem, locs[id].node) && At(mem, locs[id].node).id == id
  {
    if locs[id].side == side {
      IndexedNodeOnSide(mem, side, es, qs, locs, id);
    } else {
      IndexedNodeOnSide(mem, side.Opposite(), es2, qs2, locs, id);
    }
  }

  lemma IndexedNodeOnSide(mem: Memory, side: Side, es: seq<Entry>, qs: seq<seq<Addr>>, locs: Index, id: nat)
    requires TableOk(mem, side, es, qs, locs) && id in locs && locs[id].side == side
    ensures IsNode(mem, locs[id].node) && At(mem, locs[id].node).id == id
  {
    assert Rests(mem, es, qs, id, locs[id]);
    var i :| 0 <= i < |es| && es[i].price == locs[id].price && locs[id].node in Elements(qs[i]);
    assert LevelOk(mem, side, es[i], qs[i], locs);
    LinkedNodes(mem, qs[i], es[i].level.head, NULL, es[i].level.tail);
  }
}
