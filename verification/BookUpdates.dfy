/** What appending, removing and reducing one order does to a side, and to the orders it stands for. */
module BookUpdates {
  import opened Types
  import opened MatchingSpec
  import opened BookInvariant
  import opened Slab
  import opened BookLinks

  /** `mem'` is `mem` with a new node `n` behind the list `q`. */
  ghost predicate NodeAppended(mem: Memory, mem': Memory, q: seq<Addr>, n: Addr, order: Order) {
    && SameElsewhere(mem, mem', Elements(q) + {n})
    && (n in mem ==> mem[n].FreeNode?) && IsNode(mem', n) && At(mem', n) == order
    && (forall a :: a in Elements(q) ==> IsNode(mem', a) && At(mem', a) == At(mem, a))
  }

  /** `mem'` is `mem` with the node of rank `k` taken out of the list `q` and given back to the pool. */
  ghost predicate NodeRemoved(mem: Memory, mem': Memory, q: seq<Addr>, k: nat)
    requires k < |q|
  {
    && SameElsewhere(mem, mem', Elements(q))
    && q[k] in mem' && mem'[q[k]].FreeNode?
    && (forall a :: a in Elements(q) && a != q[k] ==> IsNode(mem', a) && At(mem', a) == At(mem, a))
  }

  /** The index leads to the nodes of a level from exactly the ids at its price. */
  lemma IndexOfLevel(mem: Memory, side: Side, es: seq<Entry>, qs: seq<seq<Addr>>, locs: Index, i: nat)
    requires TableOk(mem, side, es, qs, locs) && i < |es|
    ensures LeadsTo(mem, side, es[i].price, qs[i], locs)
    ensures LevelOk(mem, side, es[i], qs[i], locs) && Indexed(mem, side, es[i].price, qs[i], locs)
    ensures forall a :: a in Elements(qs[i]) ==> IsNode(mem, a)
  {
    forall id | id in locs && IsAt(locs[id], side, es[i].price)
      ensures locs[id].node in Elements(qs[i]) && At(mem, locs[id].node).id == id
    {
      assert Rests(mem, es, qs, id, locs[id]);
      var j :| 0 <= j < |es| && es[j].price == locs[id].price && locs[id].node in Elements(qs[j]);
      SamePrice(side, es, i, j);
    }
    assert LevelOk(mem, side, es[i], qs[i], locs);
    LinkedNodes(mem, qs[i], es[i].level.head, NULL, es[i].level.tail);
  }

  lemma AppendNodes(mem: Memory, mem': Memory, q: seq<Addr>, n: Addr, order: Order)
    requires NodeAppended(mem, mem', q, n, order)
    ensures NodesChange(mem, mem', q, q + [n]) && Elements(q + [n]) == Elements(q) + {n}
  {
    ElementsAppend(q, [n]);
    assert Elements([n]) == {n};
  }

  lemma AppendIndex(mem: Memory, mem': Memory, side: Side, q: seq<Addr>, n: Addr, order: Order, locs: Index)
    requires NodeAppended(mem, mem', q, n, order) && order.id !in locs && Elements(q + [n]) == Elements(q) + {n}
    requires Indexed(mem, side, order.price, q, locs) && LeadsTo(mem, side, order.price, q, locs)
    ensures var locs' := locs[order.id := Location(side, order.price, n)];
            Indexed(mem', side, order.price, q + [n], locs') && LeadsTo(mem', side, order.price, q + [n], locs')
  {
    hide Elements, SameElsewhere;
  }

  lemma AppendChange(mem: Memory, mem': Memory, side: Side, es: seq<Entry>, qs: seq<seq<Addr>>, locs: Index,
                     i: nat, n: Addr, order: Order)
    requires TableOk(mem, side, es, qs, locs) && i < |es|
    requires NodeAppended(mem, mem', qs[i], n, order) && order.id !in locs && order.price == es[i].price
    ensures LevelChange(mem, mem', side, es[i].price, qs[i], qs[i] + [n], locs, locs[order.id := Location(side, order.price, n)])
  {
    hide NodeAppended, Indexed, LeadsTo, NodesChange, LevelOk, Linked, Elements;
    IndexOfLevel(mem, side, es, qs, locs, i);
    AppendNodes(mem, mem', qs[i], n, order);
    AppendIndex(mem, mem', side, qs[i], n, order, locs);
  }

  lemma RemoveNodes(mem: Memory, mem': Memory, q: seq<Addr>, k: nat)
    requires k < |q| && NodeRemoved(mem, mem', q, k) && Elements(WithoutRank(q, k)) == Elements(q) - {q[k]}
    ensures NodesChange(mem, mem', q, WithoutRank(q, k))
  {
    ElementAt(q, k);
  }

  lemma RemoveIndex(mem: Memory, mem': Memory, side: Side, price: int, q: seq<Addr>, k: nat, locs: Index)
    requires k < |q| && NodeRemoved(mem, mem', q, k) && Elements(WithoutRank(q, k)) == Elements(q) - {q[k]}
    requires Indexed(mem, side, price, q, locs) && LeadsTo(mem, side, price, q, locs)
    ensures var id, locs' := At(mem, q[k]).id, locs - {At(mem, q[k]).id};
            && id in locs && IsAt(locs[id], side, price)
            && Indexed(mem', side, price, WithoutRank(q, k), locs') && LeadsTo(mem', side, price, WithoutRank(q, k), locs')
  {
    ElementAt(q, k);
    hide Elements, SameElsewhere;
  }

  lemma RemoveChange(mem: Memory, mem': Memory, side: Side, es: seq<Entry>, qs: seq<seq<Addr>>, locs: Index, i: nat, k: nat)
    requires TableOk(mem, side, es, qs, locs) && i < |es| && k < |qs[i]|
    requires NodeRemoved(mem, mem', qs[i], k)
    ensures LevelChange(mem, mem', side, es[i].price, qs[i], WithoutRank(qs[i], k), locs, locs - {At(mem, qs[i][k]).id})
    ensures At(mem, qs[i][k]).id in locs
  {
    hide NodeRemoved, Indexed, LeadsTo, NodesChange, Linked, Elements;
    IndexOfLevel(mem, side, es, qs, locs, i);
    LinkedWithout(mem, qs[i], es[i].level.head, NULL, es[i].level.tail, k);
    RemoveNodes(mem, mem', qs[i], k);
    RemoveIndex(mem, mem', side, es[i].price, qs[i], k, locs);
  }

  /** Rewriting the first order of a level, with the same id and price. */
  lemma ReduceChange(mem: Memory, side: Side, es: seq<Entry>, qs: seq<seq<Addr>>, locs: Index, i: nat, order: Order)
    requires TableOk(mem, side, es, qs, locs) && i < |es| && qs[i] != []
    requires order.id == At(mem, qs[i][0]).id && order.price == At(mem, qs[i][0]).price
    ensures IsNode(mem, qs[i][0])
    ensures var mem' := mem[qs[i][0] := Object(mem[qs[i][0]].value.(order := order))];
            && LevelChange(mem, mem', side, es[i].price, qs[i], qs[i], locs, locs)
            && Linked(mem', qs[i], es[i].level.head, NULL, es[i].level.tail)
            && OrdersOf(mem', qs[i]) == [order] + OrdersOf(mem, qs[i])[1..]
  {
    var q, level := qs[i], es[i].level;
    assert LevelOk(mem, side, es[i], q, locs);
    LinkedNodes(mem, q, level.head, NULL, level.tail);
    var mem' := mem[q[0] := Object(mem[q[0]].value.(order := order))];
    LinkedFrame(mem, mem', q[1..], mem[q[0]].value.next, q[0], level.tail);
    IndexOfLevel(mem, side, es, qs, locs, i);
  }

  // The table of levels.

  /** Where a price is, or belongs, in the table: behind all better prices. */
  function PositionOf(side: Side, es: seq<Entry>, price: int): (i: nat)
    ensures i <= |es|
  {
    if es == [] || !Better(side, es[0].price, price) then 0 else 1 + PositionOf(side, es[1..], price)
  }

  lemma {:induction false} PositionIs(side: Side, es: seq<Entry>, price: int)
    requires PricesOk(side, es)
    ensures forall j :: 0 <= j < PositionOf(side, es, price) ==> Better(side, es[j].price, price)
    ensures forall j :: PositionOf(side, es, price) <= j < |es| ==> es[j].price == price || Better(side, price, es[j].price)
    ensures forall j :: PositionOf(side, es, price) < j < |es| ==> Better(side, price, es[j].price)
    decreases |es|
  {
    if es == [] {
    } else if Better(side, es[0].price, price) {
      PositionIs(side, es[1..], price);
      assert forall j :: 0 < j < |es| ==> es[j] == es[1..][j - 1];
    } else {
      assert forall j :: 0 < j < |es| ==> Better(side, es[0].price, es[j].price);
    }
  }

  function InsertAt<T>(s: seq<T>, i: nat, x: T): seq<T>
    requires i <= |s|
  {
    s[..i] + [x] + s[i..]
  }

  /** Level `i` of a table is also in another table. */
  ghost predicate Kept(es: seq<Entry>, qs: seq<seq<Addr>>, i: nat, es': seq<Entry>, qs': seq<seq<Addr>>)
    requires |es| == |qs| && |es'| == |qs'| && i < |es|
  {
    exists j :: 0 <= j < |es'| && es'[j] == es[i] && qs'[j] == qs[i]
  }

  /** A table may gain or lose levels without orders. */
  lemma SameNonEmptyLevels(mem: Memory, side: Side, es: seq<Entry>, qs: seq<seq<Addr>>,
                           es': seq<Entry>, qs': seq<seq<Addr>>, locs: Index)
    requires TableOk(mem, side, es, qs, locs) && |es'| == |qs'| && PricesOk(side, es')
    requires forall j :: 0 <= j < |es'| ==> LevelOk(mem, side, es'[j], qs'[j], locs)
    requires forall i :: 0 <= i < |es| && qs[i] != [] ==> Kept(es, qs, i, es', qs')
    ensures TableOk(mem, side, es', qs', locs)
  {
    forall id | id in locs && locs[id].side == side ensures Rests(mem, es', qs', id, locs[id]) {
      assert Rests(mem, es, qs, id, locs[id]);
      var i :| 0 <= i < |es| && es[i].price == locs[id].price && locs[id].node in Elements(qs[i]);
      assert Kept(es, qs, i, es', qs');
    }
  }

  lemma EmptyLevelOk(mem: Memory, side: Side, price: int, locs: Index)
    ensures LevelOk(mem, side, Entry(price, EMPTY_LEVEL), [], locs)
  {
  }

  lemma InsertKeepsPricesOk(side: Side, es: seq<Entry>, price: int, e: Entry)
    requires PricesOk(side, es) && e.price == price
    requires var i := PositionOf(side, es, price); i < |es| ==> es[i].price != price
    ensures PricesOk(side, InsertAt(es, PositionOf(side, es, price), e))
  {
    var i := PositionOf(side, es, price);
    PositionIs(side, es, price);
    var es' := InsertAt(es, i, e);
    forall j, k | 0 <= j < k < |es'| ensures Better(side, es'[j].price, es'[k].price) {
      if j != i && k != i {
        assert Better(side, es[if j < i then j else j - 1].price, es[if k < i then k else k - 1].price);
      }
    }
  }

  /** A fresh price level, still without orders (operator[] of the map). */
  lemma InsertEmptyLevel(mem: Memory, side: Side, es: seq<Entry>, qs: seq<seq<Addr>>, locs: Index, price: int)
    requires TableOk(mem, side, es, qs, locs)
    requires var i := PositionOf(side, es, price); i < |es| ==> es[i].price != price
    ensures var i := PositionOf(side, es, price);
            TableOk(mem, side, InsertAt(es, i, Entry(price, EMPTY_LEVEL)), InsertAt(qs, i, []), locs)
  {
    hide LevelOk, PricesOk, Rests;
    var i := PositionOf(side, es, price);
    var es', qs' := InsertAt(es, i, Entry(price, EMPTY_LEVEL)), InsertAt(qs, i, []);
    InsertKeepsPricesOk(side, es, price, Entry(price, EMPTY_LEVEL));
    EmptyLevelOk(mem, side, price, locs);
    forall j | 0 <= j < |es'| ensures LevelOk(mem, side, es'[j], qs'[j], locs) {
      if j != i {
        assert LevelOk(mem, side, es[if j < i then j else j - 1], qs[if j < i then j else j - 1], locs);
      }
    }
    forall k | 0 <= k < |es| ensures Kept(es, qs, k, es', qs') {
      var j := if k < i then k else k + 1;
      assert es'[j] == es[k] && qs'[j] == qs[k];
    }
    SameNonEmptyLevels(mem, side, es, qs, es', qs', locs);
  }

  lemma PricesWithoutRank(side: Side, es: seq<Entry>, i: nat)
    requires PricesOk(side, es) && i < |es|
    ensures PricesOk(side, WithoutRank(es, i))
  {
    var es' := WithoutRank(es, i);
    forall j, k | 0 <= j < k < |es'| ensures Better(side, es'[j].price, es'[k].price) {
      assert Better(side, es[if j < i then j else j + 1].price, es[if k < i then k else k + 1].price);
    }
  }

  lemma FlatWithoutEmpty(mem: Memory, qs: seq<seq<Addr>>, i: nat)
    requires i < |qs| && qs[i] == []
    ensures Flat(mem, WithoutRank(qs, i)) == Flat(mem, qs)
  {
    FlatSplit(mem, qs, i);
    FlatAppend(mem, qs[..i], qs[i + 1..]);
  }

  /** Dropping a level that has no orders left (erase of the map). */
  lemma DropEmptyLevel(mem: Memory, side: Side, es: seq<Entry>, qs: seq<seq<Addr>>, locs: Index, i: nat)
    requires TableOk(mem, side, es, qs, locs) && i < |es| && qs[i] == []
    ensures TableOk(mem, side, WithoutRank(es, i), WithoutRank(qs, i), locs)
    ensures Flat(mem, WithoutRank(qs, i)) == Flat(mem, qs)
  {
    hide LevelOk, PricesOk, Rests, Flat;
    var es', qs' := WithoutRank(es, i), WithoutRank(qs, i);
    PricesWithoutRank(side, es, i);
    FlatWithoutEmpty(mem, qs, i);
    forall j | 0 <= j < |es'| ensures LevelOk(mem, side, es'[j], qs'[j], locs) {
      assert LevelOk(mem, side, es[if j < i then j else j + 1], qs[if j < i then j else j + 1], locs);
    }
    forall k | 0 <= k < |es| && qs[k] != [] ensures Kept(es, qs, k, es', qs') {
      var j := if k < i then k else k - 1;
      assert es'[j] == es[k] && qs'[j] == qs[k];
    }
    SameNonEmptyLevels(mem, side, es, qs, es', qs', locs);
  }

  lemma {:induction false} FlatAppend(mem: Memory, a: seq<seq<Addr>>, b: seq<seq<Addr>>)
    ensures Flat(mem, a + b) == Flat(mem, a) + Flat(mem, b)
    decreases |a|
  {
    hide OrdersOf;
    if a == [] {
      assert a + b == b;
    } else {
      FlatAppend(mem, a[1..], b);
      assert (a + b)[0] == a[0] && (a + b)[1..] == a[1..] + b;
    }
  }

  // The same updates on the orders that a side stands for.

  lemma {:induction false} OrdersAtPrice(mem: Memory, side: Side, price: int, q: seq<Addr>, locs: Index)
    requires Indexed(mem, side, price, q, locs)
    ensures forall k :: 0 <= k < |q| ==> OrdersOf(mem, q)[k] == At(mem, q[k]) && OrdersOf(mem, q)[k].price == price
    decreases |q|
  {
    if q != [] {
      OrdersAtPrice(mem, side, price, q[1..], locs);
    }
  }

  /** Levels that are not worse than a price hold orders that are not. */
  lemma {:induction false} FlatNotWorse(mem: Memory, side: Side, es: seq<Entry>, qs: seq<seq<Addr>>, locs: Index, price: int)
    requires |es| == |qs| && forall i :: 0 <= i < |es| ==> LevelOk(mem, side, es[i], qs[i], locs)
    requires forall i :: 0 <= i < |es| ==> !Better(side, price, es[i].price)
    ensures forall k :: 0 <= k < |Flat(mem, qs)| ==> !Better(side, price, Flat(mem, qs)[k].price)
    decreases |es|
  {
    if es != [] {
      assert LevelOk(mem, side, es[0], qs[0], locs);
      OrdersAtPrice(mem, side, es[0].price, qs[0], locs);
      FlatNotWorse(mem, side, es[1..], qs[1..], locs, price);
    }
  }

  /** Inserting between orders that are not worse and orders that are. */
  lemma {:induction false} InsertBetween(side: Side, a: seq<Order>, b: seq<Order>, order: Order)
    requires forall k :: 0 <= k < |a| ==> !Better(side, order.price, a[k].price)
    requires b != [] ==> Better(side, order.price, b[0].price)
    ensures Insert(side, a + b, order) == a + [order] + b
    decreases |a|
  {
    if a == [] {
      assert a + b == b;
    } else {
      InsertBetween(side, a[1..], b, order);
      assert (a + b)[1..] == a[1..] + b;
    }
  }

  lemma NextLevelWorse(mem: Memory, side: Side, es: seq<Entry>, qs: seq<seq<Addr>>, locs: Index, i: nat)
    requires TableOk(mem, side, es, qs, locs) && i + 1 < |es| && qs[i + 1] != []
    ensures Flat(mem, qs[i + 1..]) != [] && Better(side, es[i].price, Flat(mem, qs[i + 1..])[0].price)
  {
    IndexOfLevel(mem, side, es, qs, locs, i + 1);
    OrdersAtPrice(mem, side, es[i + 1].price, qs[i + 1], locs);
    hide LevelOk, Linked, Elements, Rests, Indexed;
    assert qs[i + 1..][0] == qs[i + 1] && Better(side, es[i].price, es[i + 1].price);
  }

  /** Appending to the level at the order's price is inserting in price-time order. */
  lemma AppendIsInsert(mem: Memory, side: Side, es: seq<Entry>, qs: seq<seq<Addr>>, locs: Index, i: nat, order: Order)
    requires TableOk(mem, side, es, qs, locs) && i < |es| && es[i].price == order.price
    requires forall j :: i < j < |qs| ==> qs[j] != []
    ensures Insert(side, Flat(mem, qs), order) ==
            Flat(mem, qs[..i]) + (OrdersOf(mem, qs[i]) + [order]) + Flat(mem, qs[i + 1..])
  {
    hide LevelOk, Linked, Elements, Rests, Insert, Indexed, OrdersOf;
    var a, b := Flat(mem, qs[..i]) + OrdersOf(mem, qs[i]), Flat(mem, qs[i + 1..]);
    FlatSplit(mem, qs, i);
    IndexOfLevel(mem, side, es, qs, locs, i);
    OrdersAtPrice(mem, side, order.price, qs[i], locs);
    forall j | 0 <= j < i ensures LevelOk(mem, side, es[..i][j], qs[..i][j], locs) && !Better(side, order.price, es[j].price) {
      assert LevelOk(mem, side, es[j], qs[j], locs) && Better(side, es[j].price, es[i].price);
    }
    FlatNotWorse(mem, side, es[..i], qs[..i], locs, order.price);
    if i + 1 < |es| {
      NextLevelWorse(mem, side, es, qs, locs, i);
    }
    InsertBetween(side, a, b, order);
  }

  /** Removing the order of a given rank is removing its id, when ids are unique. */
  lemma {:induction false} RemoveAtRank(orders: seq<Order>, k: nat)
    requires UniqueIds(orders) && k < |orders|
    ensures Remove(orders, orders[k].id) == WithoutRank(orders, k)
    decreases |orders|
  {
    if k == 0 {
      assert WithoutRank(orders, 0) == orders[1..];
    } else {
      assert orders[0].id != orders[k].id;
      RemoveAtRank(orders[1..], k - 1);
      WithoutRankTail(orders, k);
    }
  }

  lemma RemoveInLevel(mem: Memory, qs: seq<seq<Addr>>, i: nat, k: nat)
    requires i < |qs| && k < |qs[i]| && UniqueIds(Flat(mem, qs))
    ensures Remove(Flat(mem, qs), OrdersOf(mem, qs[i])[k].id) ==
            Flat(mem, qs[..i]) + WithoutRank(OrdersOf(mem, qs[i]), k) + Flat(mem, qs[i + 1..])
  {
    var a, m, b := Flat(mem, qs[..i]), OrdersOf(mem, qs[i]), Flat(mem, qs[i + 1..]);
    FlatSplit(mem, qs, i);
    RemoveAtRank(Flat(mem, qs), |a| + k);
    assert WithoutRank(a + m + b, |a| + k) == a + WithoutRank(m, k) + b;
  }

  /** An id rests on a side exactly when the index has it there. */
  lemma FlatHasId(mem: Memory, side: Side, es: seq<Entry>, qs: seq<seq<Addr>>, locs: Index, id: nat)
    requires TableOk(mem, side, es, qs, locs)
    ensures HasId(Flat(mem, qs), id) <==> id in locs && locs[id].side == side
  {
    if id in locs && locs[id].side == side {
      assert Rests(mem, es, qs, id, locs[id]);
      var i :| 0 <= i < |es| && es[i].price == locs[id].price && locs[id].node in Elements(qs[i]);
      var k := ElementRank(qs[i], locs[id].node);
      assert LevelOk(mem, side, es[i], qs[i], locs);
      OrdersAtPrice(mem, side, es[i].price, qs[i], locs);
      FlatSplit(mem, qs, i);
      assert Flat(mem, qs)[|Flat(mem, qs[..i])| + k].id == id;
    }
    if HasId(Flat(mem, qs), id) {
      FlatIdIndexed(mem, side, es, qs, locs, id);
    }
  }

  lemma {:induction false} FlatIdIndexed(mem: Memory, side: Side, es: seq<Entry>, qs: seq<seq<Addr>>, locs: Index, id: nat)
    requires |es| == |qs| && forall i :: 0 <= i < |es| ==> LevelOk(mem, side, es[i], qs[i], locs)
    requires HasId(Flat(mem, qs), id)
    ensures id in locs && locs[id].side == side
    decreases |qs|
  {
    var flat := Flat(mem, qs);
    var n :| 0 <= n < |flat| && flat[n].id == id;
    var here, rest := OrdersOf(mem, qs[0]), Flat(mem, qs[1..]);
    if n < |here| {
      assert LevelOk(mem, side, es[0], qs[0], locs);
      OrdersAtPrice(mem, side, es[0].price, qs[0], locs);
      ElementAt(qs[0], n);
    } else {
      assert rest[n - |here|].id == id;
      FlatIdIndexed(mem, side, es[1..], qs[1..], locs, id);
    }
  }

  // The pointer operations, as changes of memory.

  lemma NodesAreInUse(mem: Memory, mem': Memory, q: seq<Addr>, level: PriceLevel, n: Addr)
    requires Linked(mem, q, level.head, NULL, level.tail) && IsTaken(mem, mem', n)
    ensures n !in Elements(q)
    ensures forall a :: a in Elements(q) ==> a in mem && a in mem' && mem'[a] == mem[a]
  {
    LinkedNodes(mem, q, level.head, NULL, level.tail);
  }

  /** What push_back leaves in memory, once the pool gave it block `n`. */
  lemma PushBackLinks(mem: Memory, taken: Memory, q: seq<Addr>, level: PriceLevel, n: Addr, order: Order)
    requires Linked(mem, q, level.head, NULL, level.tail) && IsTaken(mem, taken, n) && n != NULL
    ensures level.tail != NULL <==> q != []
    ensures var stored := taken[n := Object(OrderNode(order, level.tail, NULL))];
            && (level.tail != NULL ==> IsNode(stored, level.tail) && level.tail != n)
            && var mem' := if level.tail != NULL then WithNext(stored, level.tail, n) else stored;
               && NodeAppended(mem, mem', q, n, order)
               && Linked(mem', q + [n], if level.tail != NULL then level.head else n, NULL, n)
               && OrdersOf(mem', q + [n]) == OrdersOf(mem, q) + [order]
  {
    var stored := taken[n := Object(OrderNode(order, level.tail, NULL))];
    NodesAreInUse(mem, taken, q, level, n);
    LinkedNodes(mem, q, level.head, NULL, level.tail);
    LinkedFrame(mem, stored, q, level.head, NULL, level.tail);
    if q == [] {
      assert q + [n] == [n];
    } else {
      LinkedAppend(stored, q, level.head, NULL, level.tail, n);
    }
  }

  /** What unlinking rank `k` and giving its block back leaves in memory. */
  lemma EraseLinks(mem: Memory, q: seq<Addr>, level: PriceLevel, k: nat, free: Addr)
    requires Linked(mem, q, level.head, NULL, level.tail) && k < |q|
    ensures IsNode(mem, q[k])
    ensures var node := mem[q[k]].value;
            && (node.prev != NULL <==> k > 0) && (node.next != NULL <==> k + 1 < |q|)
            && (node.prev != NULL ==> IsNode(mem, node.prev) && node.prev != q[k])
            && (node.next != NULL ==> IsNode(mem, node.next) && node.next != q[k])
            && var mem' := Unlinked(mem, node.prev, node.next, node.prev != NULL, node.next != NULL)[q[k] := FreeNode(free)];
               && NodeRemoved(mem, mem', q, k)
               && Linked(mem', WithoutRank(q, k), if node.prev != NULL then level.head else node.next, NULL,
                         if node.next != NULL then level.tail else node.prev)
               && OrdersOf(mem', WithoutRank(q, k)) == WithoutRank(OrdersOf(mem, q), k)
  {
    LinkedNeighbours(mem, q, level.head, NULL, level.tail, k);
    LinkedErase(mem, q, level.head, NULL, level.tail, k);
    EraseRemoves(mem, q, level, k, free);
    var prev, next := if k == 0 then NULL else q[k - 1], if k + 1 < |q| then q[k + 1] else NULL;
    var mem1 := Unlinked(mem, prev, next, k > 0, k + 1 < |q|);
    LinkedFrame(mem1, mem1[q[k] := FreeNode(free)], WithoutRank(q, k),
                if k == 0 then next else level.head, NULL, if k + 1 < |q| then level.tail else prev);
  }

  lemma EraseRemoves(mem: Memory, q: seq<Addr>, level: PriceLevel, k: nat, free: Addr)
    requires Linked(mem, q, level.head, NULL, level.tail) && k < |q|
    requires (k > 0 ==> IsNode(mem, q[k - 1])) && (k + 1 < |q| ==> IsNode(mem, q[k + 1]))
    ensures var mem1 := Unlinked(mem, if k == 0 then NULL else q[k - 1], if k + 1 < |q| then q[k + 1] else NULL, k > 0, k + 1 < |q|);
            var mem' := mem1[q[k] := FreeNode(free)];
            && NodeRemoved(mem, mem', q, k)
            && (forall a :: a in Elements(WithoutRank(q, k)) ==> a in mem1 && a in mem' && mem'[a] == mem1[a])
  {
    LinkedNodes(mem, q, level.head, NULL, level.tail);
    LinkedWithout(mem, q, level.head, NULL, level.tail, k);
    LinkedNeighbours(mem, q, level.head, NULL, level.tail, k);
    ElementAt(q, k);
    if k > 0 { ElementAt(q, k - 1); }
    if k + 1 < |q| { ElementAt(q, k + 1); }
  }

  /** Both sides, seen from `side`, and the blocks in use agree with the index. */
  ghost predicate BookLinked(mem: Memory, side: Side, es: seq<Entry>, qs: seq<seq<Addr>>,
                             es2: seq<Entry>, qs2: seq<seq<Addr>>, locs: Index)
  {
    TableOk(mem, side, es, qs, locs) && TableOk(mem, side.Opposite(), es2, qs2, locs) && LiveOk(mem, locs)
  }

  /** A level change carries the whole book over: both sides, the blocks in use, and their orders. */
  lemma ApplyChange(mem: Memory, mem': Memory, side: Side, es: seq<Entry>, qs: seq<seq<Addr>>,
                    es2: seq<Entry>, qs2: seq<seq<Addr>>, locs: Index, locs': Index,
                    i: nat, level: PriceLevel, q': seq<Addr>)
    requires BookLinked(mem, side, es, qs, es2, qs2, locs)
    requires i < |es| && LevelChange(mem, mem', side, es[i].price, qs[i], q', locs, locs')
    requires Linked(mem', q', level.head, NULL, level.tail)
    ensures BookLinked(mem', side, es[i := Entry(es[i].price, level)], qs[i := q'], es2, qs2, locs')
    ensures Flat(mem', qs[i := q']) == Flat(mem, qs[..i]) + OrdersOf(mem', q') + Flat(mem, qs[i + 1..])
    ensures Flat(mem', qs2) == Flat(mem, qs2)
  {
    assert LevelOk(mem, side, es[i], qs[i], locs);
    LinkedNodes(mem', q', level.head, NULL, level.tail);
    OwnSide(mem, mem', side, es, qs, locs, locs', i, level, q');
    OwnFlat(mem, mem', side, es, qs, locs, locs', i, q');
    OtherSide(mem, mem', side, es[i].price, qs[i], q', locs, locs', side.Opposite(), es2, qs2);
    LiveAfter(mem, mem', side, es, qs, locs, locs', i, q');
  }

  function ReducedFirst(orders: seq<Order>, quantity: int): seq<Order>
    requires orders != []
  {
    [orders[0].(quantity := quantity)] + orders[1..]
  }

  ghost function WithQuantity(mem: Memory, p: Addr, quantity: int): Memory
    requires IsNode(mem, p)
  {
    mem[p := Object(mem[p].value.(order := mem[p].value.order.(quantity := quantity)))]
  }

  /** The best order of a side is in the node that the first level leads to. */
  lemma BestOrder(mem: Memory, side: Side, es: seq<Entry>, qs: seq<seq<Addr>>, locs: Index)
    requires TableOk(mem, side, es, qs, locs) && es != [] && qs[0] != []
    ensures es[0].level.head == qs[0][0] && IsNode(mem, qs[0][0]) && Flat(mem, qs) != []
    ensures At(mem, qs[0][0]) == Flat(mem, qs)[0] && Flat(mem, qs)[0].price == es[0].price
  {
    assert LevelOk(mem, side, es[0], qs[0], locs);
    ElementAt(qs[0], 0);
  }

  /** The whole book after rewriting the remaining quantity of the best order of a side. */
  lemma ReduceBest(mem: Memory, side: Side, es: seq<Entry>, qs: seq<seq<Addr>>, es2: seq<Entry>, qs2: seq<seq<Addr>>,
                   locs: Index, quantity: int)
    requires BookLinked(mem, side, es, qs, es2, qs2, locs)
    requires es != [] && qs[0] != []
    ensures IsNode(mem, qs[0][0])
    ensures var mem' := WithQuantity(mem, qs[0][0], quantity);
            BookLinked(mem', side, es, qs, es2, qs2, locs) && Flat(mem', qs2) == Flat(mem, qs2)
  {
    BestOrder(mem, side, es, qs, locs);
    ReduceChange(mem, side, es, qs, locs, 0, At(mem, qs[0][0]).(quantity := quantity));
    ApplyChange(mem, WithQuantity(mem, qs[0][0], quantity), side, es, qs, es2, qs2, locs, locs, 0, es[0].level, qs[0]);
    assert es[0 := Entry(es[0].price, es[0].level)] == es && qs[0 := qs[0]] == qs;
  }

  lemma ReduceBestOrders(mem: Memory, side: Side, es: seq<Entry>, qs: seq<seq<Addr>>, locs: Index, quantity: int)
    requires TableOk(mem, side, es, qs, locs) && es != [] && qs[0] != []
    ensures IsNode(mem, qs[0][0]) && Flat(mem, qs) != []
    ensures Flat(WithQuantity(mem, qs[0][0], quantity), qs) == ReducedFirst(Flat(mem, qs), quantity)
  {
    BestOrder(mem, side, es, qs, locs);
    var mem', rest := WithQuantity(mem, qs[0][0], quantity), Flat(mem, qs[1..]);
    assert Flat(mem', qs) == OrdersOf(mem', qs[0]) + rest && OrdersOf(mem', qs[0]) == ReducedFirst(OrdersOf(mem, qs[0]), quantity) by {
      ReduceChange(mem, side, es, qs, locs, 0, At(mem, qs[0][0]).(quantity := quantity));
      OwnFlat(mem, mem', side, es, qs, locs, locs, 0, qs[0]);
      assert qs[0 := qs[0]] == qs && qs[..0] == [];
      assert [] + OrdersOf(mem', qs[0]) == OrdersOf(mem', qs[0]);
    }
    ReducedFlat(OrdersOf(mem, qs[0]), rest, quantity);
  }

  lemma ReducedFlat(a: seq<Order>, b: seq<Order>, quantity: int)
    requires a != []
    ensures ReducedFirst(a + b, quantity) == ReducedFirst(a, quantity) + b
  {
  }

  /** The whole book after removing the order of rank `k` of level `i`. */
  lemma RemoveOne(mem: Memory, mem': Memory, side: Side, es: seq<Entry>, qs: seq<seq<Addr>>, es2: seq<Entry>, qs2: seq<seq<Addr>>,
                  locs: Index, i: nat, k: nat, level: PriceLevel)
    requires BookLinked(mem, side, es, qs, es2, qs2, locs)
    requires i < |es| && k < |qs[i]| && NodeRemoved(mem, mem', qs[i], k)
    requires Linked(mem', WithoutRank(qs[i], k), level.head, NULL, level.tail)
    requires OrdersOf(mem', WithoutRank(qs[i], k)) == WithoutRank(OrdersOf(mem, qs[i]), k)
    ensures var id := At(mem, qs[i][k]).id;
            var es', qs' := es[i := Entry(es[i].price, level)], qs[i := WithoutRank(qs[i], k)];
            && id in locs && id == OrdersOf(mem, qs[i])[k].id
            && BookLinked(mem', side, es', qs', es2, qs2, locs - {id})
            && Flat(mem', qs') == Flat(mem, qs[..i]) + WithoutRank(OrdersOf(mem, qs[i]), k) + Flat(mem, qs[i + 1..])
            && Flat(mem', qs2) == Flat(mem, qs2)
  {
    var id := At(mem, qs[i][k]).id;
    assert LevelOk(mem, side, es[i], qs[i], locs);
    OrdersAtPrice(mem, side, es[i].price, qs[i], locs);
    RemoveChange(mem, mem', side, es, qs, locs, i, k);
    ApplyChange(mem, mem', side, es, qs, es2, qs2, locs, locs - {id}, i, level, WithoutRank(qs[i], k));
  }

  /** The whole book after an order came to rest behind the others of level `i`. */
  lemma AppendOne(mem: Memory, mem': Memory, side: Side, es: seq<Entry>, qs: seq<seq<Addr>>, es2: seq<Entry>, qs2: seq<seq<Addr>>,
                  locs: Index, i: nat, level: PriceLevel, n: Addr, order: Order)
    requires BookLinked(mem, side, es, qs, es2, qs2, locs)
    requires i < |es| && es[i].price == order.price && order.id !in locs
    requires NodeAppended(mem, mem', qs[i], n, order)
    requires Linked(mem', qs[i] + [n], level.head, NULL, level.tail)
    requires OrdersOf(mem', qs[i] + [n]) == OrdersOf(mem, qs[i]) + [order]
    requires forall j :: 0 <= j < |qs| && j != i ==> qs[j] != []
    ensures var es', qs' := es[i := Entry(es[i].price, level)], qs[i := qs[i] + [n]];
            var locs' := locs[order.id := Location(side, order.price, n)];
            && BookLinked(mem', side, es', qs', es2, qs2, locs')
            && Flat(mem', qs') == Insert(side, Flat(mem, qs), order)
            && Flat(mem', qs2) == Flat(mem, qs2)
  {
    AppendChange(mem, mem', side, es, qs, locs, i, n, order);
    ApplyChange(mem, mem', side, es, qs, es2, qs2, locs, locs[order.id := Location(side, order.price, n)], i, level, qs[i] + [n]);
    AppendIsInsert(mem, side, es, qs, locs, i, order);
  }

  /** The whole book after removing the best order of a side. */
  lemma RemoveBest(mem: Memory, mem': Memory, side: Side, es: seq<Entry>, qs: seq<seq<Addr>>, es2: seq<Entry>, qs2: seq<seq<Addr>>,
                   locs: Index, level: PriceLevel)
    requires BookLinked(mem, side, es, qs, es2, qs2, locs)
    requires es != [] && qs[0] != [] && NodeRemoved(mem, mem', qs[0], 0)
    requires Linked(mem', WithoutRank(qs[0], 0), level.head, NULL, level.tail)
    requires OrdersOf(mem', WithoutRank(qs[0], 0)) == WithoutRank(OrdersOf(mem, qs[0]), 0)
    ensures var id := At(mem, qs[0][0]).id;
            var es', qs' := es[0 := Entry(es[0].price, level)], qs[0 := WithoutRank(qs[0], 0)];
            && id in locs && |locs - {id}| + 1 == |locs|
            && BookLinked(mem', side, es', qs', es2, qs2, locs - {id})
            && Flat(mem, qs) != [] && Flat(mem', qs') == Flat(mem, qs)[1..]
            && Flat(mem', qs2) == Flat(mem, qs2)
  {
    RemoveOne(mem, mem', side, es, qs, es2, qs2, locs, 0, 0, level);
    FewerKeys(locs, At(mem, qs[0][0]).id);
    RestOfFirst(OrdersOf(mem, qs[0]), Flat(mem, qs[1..]));
    assert qs[..0] == [];
  }

  lemma RestOfFirst(a: seq<Order>, b: seq<Order>)
    requires a != []
    ensures a + b != [] && (a + b)[1..] == [] + WithoutRank(a, 0) + b
  {
  }

  lemma FewerKeys(locs: Index, id: nat)
    requires id in locs
    ensures |locs - {id}| + 1 == |locs|
  {
    var fewer := locs - {id};
    assert fewer.Keys == locs.Keys - {id};
    assert |fewer| == |fewer.Keys| && |locs| == |locs.Keys|;
  }

  lemma ReducedOrDropped(orders: seq<Order>, reduced: seq<Order>, left: seq<Order>, traded: int)
    requires orders != [] && reduced == ReducedFirst(orders, orders[0].quantity - traded)
    requires left == if traded == orders[0].quantity then reduced[1..] else reduced
    ensures left == AfterTrade(orders, traded)
  {
  }

  lemma PositiveAfterTrade(orders: seq<Order>, traded: int)
    requires Positive(orders) && orders != [] && 0 < traded <= orders[0].quantity
    ensures Positive(AfterTrade(orders, traded))
  {
  }

  lemma BestOfBook(mem: Memory, side: Side, es: seq<Entry>, qs: seq<seq<Addr>>, es2: seq<Entry>, qs2: seq<seq<Addr>>, locs: Index)
    requires BookLinked(mem, side, es, qs, es2, qs2, locs) && es != [] && |qs| > 0 && qs[0] != []
    ensures |es| == |qs|
    ensures es[0].level.head == qs[0][0] && IsNode(mem, qs[0][0]) && Flat(mem, qs) != []
    ensures At(mem, qs[0][0]) == Flat(mem, qs)[0] && Flat(mem, qs)[0].price == es[0].price
  {
    BestOrder(mem, side, es, qs, locs);
  }

  lemma LevelOfBook(mem: Memory, side: Side, es: seq<Entry>, qs: seq<seq<Addr>>, es2: seq<Entry>, qs2: seq<seq<Addr>>,
                    locs: Index, i: nat)
    requires BookLinked(mem, side, es, qs, es2, qs2, locs) && i < |es|
    ensures |es| == |qs| && (es[i].level.head == NULL <==> qs[i] == [])
  {
    assert LevelOk(mem, side, es[i], qs[i], locs);
  }

  lemma FirstIsPositive(orders: seq<Order>)
    requires Positive(orders) && orders != []
    ensures orders[0].quantity > 0
  {
  }

  lemma SwapSides(mem: Memory, side: Side, es: seq<Entry>, qs: seq<seq<Addr>>, es2: seq<Entry>, qs2: seq<seq<Addr>>, locs: Index)
    requires BookLinked(mem, side, es, qs, es2, qs2, locs)
    ensures BookLinked(mem, side.Opposite(), es2, qs2, es, qs, locs)
    ensures |es| == |qs| && |es2| == |qs2|
  {
  }

  lemma DropBest(mem: Memory, side: Side, es: seq<Entry>, qs: seq<seq<Addr>>, es2: seq<Entry>, qs2: seq<seq<Addr>>, locs: Index)
    requires BookLinked(mem, side, es, qs, es2, qs2, locs) && es != [] && |qs| == |es| && qs[0] == []
    ensures BookLinked(mem, side, es[1..], qs[1..], es2, qs2, locs)
    ensures Flat(mem, qs[1..]) == Flat(mem, qs)
  {
    DropEmptyLevel(mem, side, es, qs, locs, 0);
    assert WithoutRank(es, 0) == es[1..] && WithoutRank(qs, 0) == qs[1..];
  }

  lemma NoEmptyFirst(qs: seq<seq<Addr>>, q: seq<Addr>)
    requires NoEmptyLevel(qs) && qs != []
    ensures qs[0] != [] && NoEmptyLevel(qs[1..]) && qs[0 := q][1..] == qs[1..]
    ensures q != [] ==> NoEmptyLevel(qs[0 := q])
  {
  }

  lemma NoLevelsNoOrders(mem: Memory, qs: seq<seq<Addr>>)
    requires qs == []
    ensures Flat(mem, qs) == []
  {
  }

  // Resting and cancelling.

  lemma FlatSkipsEmpty(mem: Memory, qs: seq<seq<Addr>>, i: nat)
    requires i <= |qs|
    ensures Flat(mem, InsertAt(qs, i, [])) == Flat(mem, qs)
  {
    var none: seq<seq<Addr>> := [[]];
    assert none[1..] == [] && Flat(mem, none) == [];
    FlatAppend(mem, qs[..i] + none, qs[i..]);
    FlatAppend(mem, qs[..i], none);
    FlatAppend(mem, qs[..i], qs[i..]);
    assert qs[..i] + qs[i..] == qs;
  }

  lemma FreshLevel(mem: Memory, side: Side, es: seq<Entry>, qs: seq<seq<Addr>>, es2: seq<Entry>, qs2: seq<seq<Addr>>,
                   locs: Index, price: int)
    requires BookLinked(mem, side, es, qs, es2, qs2, locs) && |qs| == |es|
    requires var i := PositionOf(side, es, price); i < |es| ==> es[i].price != price
    ensures var i := PositionOf(side, es, price);
            && BookLinked(mem, side, InsertAt(es, i, Entry(price, EMPTY_LEVEL)), InsertAt(qs, i, []), es2, qs2, locs)
            && Flat(mem, InsertAt(qs, i, [])) == Flat(mem, qs)
  {
    hide TableOk, LiveOk, Flat;
    InsertEmptyLevel(mem, side, es, qs, locs, price);
    FlatSkipsEmpty(mem, qs, PositionOf(side, es, price));
  }

  lemma LevelLinked(mem: Memory, side: Side, es: seq<Entry>, qs: seq<seq<Addr>>, es2: seq<Entry>, qs2: seq<seq<Addr>>,
                    locs: Index, i: nat)
    requires BookLinked(mem, side, es, qs, es2, qs2, locs) && i < |es|
    ensures |es| == |qs| && Linked(mem, qs[i], es[i].level.head, NULL, es[i].level.tail)
  {
    assert LevelOk(mem, side, es[i], qs[i], locs);
  }

  lemma NoEmptyElsewhere(qs: seq<seq<Addr>>, i: nat, n: Addr)
    requires NoEmptyLevel(qs)
    ensures i < |qs| ==> NoEmptyLevel(qs[i := qs[i] + [n]])
    ensures i <= |qs| ==> NoEmptyLevel(InsertAt(qs, i, [])[i := [] + [n]])
  {
  }

  lemma OthersNotEmpty(qs: seq<seq<Addr>>, i: nat)
    requires NoEmptyLevel(qs)
    ensures forall j :: 0 <= j < |qs| ==> qs[j] != []
    ensures i <= |qs| ==> forall j :: 0 <= j < |qs| + 1 && j != i ==> InsertAt(qs, i, [])[j] != []
  {
  }

  lemma OneMoreKey(locs: Index, id: nat, l: Location)
    requires id !in locs
    ensures |locs[id := l]| == |locs| + 1
  {
  }

  /** The unchecked lookups of a cancel are always valid: the level exists and the node is in it. */
  lemma IndexedLevelExists(mem: Memory, side: Side, es: seq<Entry>, qs: seq<seq<Addr>>, es2: seq<Entry>, qs2: seq<seq<Addr>>,
                           locs: Index, id: nat) returns (k: nat)
    requires BookLinked(mem, side, es, qs, es2, qs2, locs) && |qs| == |es|
    requires id in locs && locs[id].side == side
    ensures var i := PositionOf(side, es, locs[id].price);
            && i < |es| && es[i].price == locs[id].price
            && k < |qs[i]| && qs[i][k] == locs[id].node && At(mem, locs[id].node).id == id
  {
    var i := PositionOf(side, es, locs[id].price);
    PositionIs(side, es, locs[id].price);
    assert Rests(mem, es, qs, id, locs[id]);
    var j :| 0 <= j < |es| && es[j].price == locs[id].price && locs[id].node in Elements(qs[j]);
    assert j == i;
    k := ElementRank(qs[j], locs[id].node);
  }

  lemma CancelInLevel(mem: Memory, qs: seq<seq<Addr>>, i: nat, k: nat, id: nat)
    requires i < |qs| && k < |qs[i]| && UniqueIds(Flat(mem, qs)) && OrdersOf(mem, qs[i])[k].id == id
    ensures Flat(mem, qs[..i]) + WithoutRank(OrdersOf(mem, qs[i]), k) + Flat(mem, qs[i + 1..]) == Remove(Flat(mem, qs), id)
  {
    RemoveInLevel(mem, qs, i, k);
  }

  lemma DropLevel(mem: Memory, side: Side, es: seq<Entry>, qs: seq<seq<Addr>>, es2: seq<Entry>, qs2: seq<seq<Addr>>,
                  locs: Index, i: nat)
    requires BookLinked(mem, side, es, qs, es2, qs2, locs) && |qs| == |es| && i < |es| && qs[i] == []
    ensures BookLinked(mem, side, WithoutRank(es, i), WithoutRank(qs, i), es2, qs2, locs)
    ensures Flat(mem, WithoutRank(qs, i)) == Flat(mem, qs)
  {
    DropEmptyLevel(mem, side, es, qs, locs, i);
  }

  lemma NoEmptyAfterErase(qs: seq<seq<Addr>>, i: nat, q: seq<Addr>)
    requires NoEmptyLevel(qs) && i < |qs|
    ensures q != [] ==> NoEmptyLevel(qs[i := q])
    ensures NoEmptyLevel(WithoutRank(qs[i := q], i))
  {
  }

  /** The index knows exactly the ids that rest. */
  lemma HoldsIffIndexed(mem: Memory, bids: seq<Entry>, bidQueues: seq<seq<Addr>>, asks: seq<Entry>, askQueues: seq<seq<Addr>>,
                        locs: Index, next: nat, id: nat)
    requires BookLinked(mem, Buy, bids, bidQueues, asks, askQueues, locs)
    ensures Book(Flat(mem, bidQueues), Flat(mem, askQueues), next).Holds(id) <==> id in locs
    ensures id in locs ==> HasId(if locs[id].side.Buy? then Flat(mem, bidQueues) else Flat(mem, askQueues), id)
    ensures id in locs ==> !HasId(if locs[id].side.Buy? then Flat(mem, askQueues) else Flat(mem, bidQueues), id)
  {
    FlatHasId(mem, Buy, bids, bidQueues, locs, id);
    FlatHasId(mem, Sell, asks, askQueues, locs, id);
  }
}
