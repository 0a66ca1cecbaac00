/**
 The pointer structure of the book, as values: doubly linked levels in the pool's memory, the sorted
 level tables, and the index from order ids to nodes. Class OrderBook keeps these predicates.
 */
module BookLinks {
  import opened Types
  import opened MatchingSpec
  import opened Slab

  datatype OrderNode = OrderNode(order: Order, prev: Addr, next: Addr)

  datatype PriceLevel = PriceLevel(head: Addr, tail: Addr)

  const EMPTY_LEVEL := PriceLevel(NULL, NULL)

  /** One entry of the sorted map from prices to levels. */
  datatype Entry = Entry(price: int, level: PriceLevel)

  datatype Location = Location(side: Side, price: int, node: Addr)

  type Memory = map<Addr, Block<OrderNode>>
  type Index = map<nat, Location>

  predicate IsNode(mem: Memory, p: Addr) {
    p in mem && mem[p].Object?
  }

  /** The order in a node. */
  ghost function At(mem: Memory, p: Addr): Order {
    if IsNode(mem, p) then mem[p].value.order else Order(0, 0, 0, 0)
  }

  ghost function OrdersOf(mem: Memory, q: seq<Addr>): (r: seq<Order>)
    ensures |r| == |q|
  {
    if q == [] then [] else [At(mem, q[0])] + OrdersOf(mem, q[1..])
  }

  /** From `first` on, the nodes `q` are linked both ways; `before` precedes them and `last` ends them. */
  ghost predicate Linked(mem: Memory, q: seq<Addr>, first: Addr, before: Addr, last: Addr)
    decreases |q|
  {
    if q == [] then first == NULL && last == before
    else
      && first == q[0] != NULL && IsNode(mem, first) && mem[first].value.prev == before
      && q[0] !in Elements(q[1..])
      && Linked(mem, q[1..], mem[first].value.next, first, last)
  }

  // Lists: what the four pointer operations do to a linked list.

  /** Memory changes outside the list do not matter to it. */
  lemma {:induction false} LinkedFrame(mem: Memory, mem': Memory, q: seq<Addr>, first: Addr, before: Addr, last: Addr)
    requires Linked(mem, q, first, before, last)
    requires forall a :: a in Elements(q) ==> a in mem && a in mem' && mem'[a] == mem[a]
    ensures Linked(mem', q, first, before, last) && OrdersOf(mem', q) == OrdersOf(mem, q)
    decreases |q|
  {
    if q != [] {
      LinkedFrame(mem, mem', q[1..], mem[first].value.next, first, last);
    }
  }

  lemma {:induction false} LinkedNodes(mem: Memory, q: seq<Addr>, first: Addr, before: Addr, last: Addr)
    requires Linked(mem, q, first, before, last)
    ensures forall a :: a in Elements(q) ==> IsNode(mem, a) && a != NULL
    ensures q != [] ==> last in Elements(q)
    decreases |q|
  {
    if q != [] {
      LinkedNodes(mem, q[1..], mem[first].value.next, first, last);
    }
  }

  ghost function WithPrev(mem: Memory, p: Addr, prev: Addr): Memory
    requires IsNode(mem, p)
  {
    mem[p := Object(mem[p].value.(prev := prev))]
  }

  ghost function WithNext(mem: Memory, p: Addr, next: Addr): Memory
    requires IsNode(mem, p)
  {
    mem[p := Object(mem[p].value.(next := next))]
  }

  /** Giving the first node another predecessor. */
  lemma LinkedWithPrev(mem: Memory, q: seq<Addr>, first: Addr, before: Addr, last: Addr, before': Addr)
    requires Linked(mem, q, first, before, last) && q != []
    ensures IsNode(mem, first)
    ensures Linked(WithPrev(mem, first, before'), q, first, before', last)
    ensures OrdersOf(WithPrev(mem, first, before'), q) == OrdersOf(mem, q)
  {
    var mem' := WithPrev(mem, first, before');
    LinkedFrame(mem, mem', q[1..], mem[first].value.next, first, last) by {
      LinkedNodes(mem, q[1..], mem[first].value.next, first, last);
    }
  }

  lemma {:induction false} ElementsAppend(a: seq<Addr>, b: seq<Addr>)
    ensures Elements(a + b) == Elements(a) + Elements(b)
    decreases |a|
  {
    if a == [] {
      assert a + b == b;
    } else {
      ElementsAppend(a[1..], b);
      assert (a + b)[1..] == a[1..] + b;
    }
  }

  lemma {:induction false} ElementAt(q: seq<Addr>, k: nat)
    requires k < |q|
    ensures q[k] in Elements(q)
    decreases |q|
  {
    if k > 0 {
      ElementAt(q[1..], k - 1);
    }
  }

  lemma {:induction false} ElementRank(q: seq<Addr>, a: Addr) returns (k: nat)
    requires a in Elements(q)
    ensures k < |q| && q[k] == a
    decreases |q|
  {
    if q[0] == a {
      k := 0;
    } else {
      k := ElementRank(q[1..], a);
      k := k + 1;
    }
  }

  function WithoutRank<T>(s: seq<T>, k: nat): seq<T>
    requires k < |s|
  {
    s[..k] + s[k + 1..]
  }

  lemma WithoutRankTail<T>(s: seq<T>, k: nat)
    requires 0 < k < |s|
    ensures WithoutRank(s, k) == [s[0]] + WithoutRank(s[1..], k - 1)
  {
  }

  /** Removing a node of a linked list removes exactly that address. */
  lemma {:induction false} LinkedWithout(mem: Memory, q: seq<Addr>, first: Addr, before: Addr, last: Addr, k: nat)
    requires Linked(mem, q, first, before, last) && k < |q|
    ensures Elements(WithoutRank(q, k)) == Elements(q) - {q[k]}
    decreases |q|
  {
    if k == 0 {
      assert WithoutRank(q, 0) == q[1..];
    } else {
      LinkedWithout(mem, q[1..], mem[first].value.next, first, last, k - 1);
      WithoutRankTail(q, k);
      ElementAt(q[1..], k - 1);
      assert ([q[0]] + WithoutRank(q[1..], k - 1))[1..] == WithoutRank(q[1..], k - 1);
    }
  }

  /** The links of the node of rank `k` lead to its neighbours. */
  lemma {:induction false} LinkedNeighbours(mem: Memory, q: seq<Addr>, first: Addr, before: Addr, last: Addr, k: nat)
    requires Linked(mem, q, first, before, last) && k < |q|
    ensures IsNode(mem, q[k]) && q[k] != NULL
    ensures mem[q[k]].value.prev == if k == 0 then before else q[k - 1]
    ensures mem[q[k]].value.next == if k + 1 < |q| then q[k + 1] else NULL
    ensures k > 0 ==> IsNode(mem, q[k - 1]) && q[k - 1] != NULL && q[k - 1] != q[k]
    ensures k + 1 < |q| ==> IsNode(mem, q[k + 1]) && q[k + 1] != NULL && q[k + 1] != q[k]
    ensures 0 < k && k + 1 < |q| ==> q[k - 1] != q[k + 1]
    ensures last == q[|q| - 1]
    decreases |q|
  {
    if k > 0 {
      LinkedNeighbours(mem, q[1..], mem[first].value.next, first, last, k - 1);
      ElementAt(q[1..], k - 1);
      if k + 1 < |q| {
        ElementAt(q[1..], k);
      }
    } else if |q| > 1 {
      LinkedNeighbours(mem, q[1..], mem[first].value.next, first, last, 0);
      ElementAt(q[1..], 0);
    }
  }

  /** A new node behind the last one (push_back on a list that is not empty). */
  lemma {:induction false} LinkedAppend(mem: Memory, q: seq<Addr>, first: Addr, before: Addr, last: Addr, n: Addr)
    requires Linked(mem, q, first, before, last) && q != []
    requires n != NULL && n !in Elements(q) && IsNode(mem, n)
    requires mem[n].value.prev == last && mem[n].value.next == NULL
    ensures IsNode(mem, last)
    ensures Linked(WithNext(mem, last, n), q + [n], first, before, n)
    ensures OrdersOf(WithNext(mem, last, n), q + [n]) == OrdersOf(mem, q) + [At(mem, n)]
    decreases |q|
  {
    LinkedNodes(mem, q, first, before, last);
    var mem' := WithNext(mem, last, n);
    var tail := q[1..];
    assert (q + [n])[1..] == tail + [n];
    ElementsAppend(tail, [n]);
    assert Elements([n]) == {n};
    if tail == [] {
      assert tail + [n] == [n];
    } else {
      LinkedAppend(mem, tail, mem[first].value.next, first, last, n);
      LinkedNodes(mem, tail, mem[first].value.next, first, last);
    }
  }

  /** What `erase` writes: the neighbours of a node are linked past it. */
  ghost function Unlinked(mem: Memory, prev: Addr, next: Addr, back: bool, forth: bool): Memory
    requires (back ==> IsNode(mem, prev)) && (forth ==> IsNode(mem, next))
  {
    var mem1 := if back then WithNext(mem, prev, next) else mem;
    if forth then WithPrev(mem1, next, prev) else mem1
  }

  lemma LinkedCons(mem: Memory, first: Addr, rest: seq<Addr>, before: Addr, last: Addr)
    requires IsNode(mem, first) && first != NULL && mem[first].value.prev == before && first !in Elements(rest)
    requires Linked(mem, rest, mem[first].value.next, first, last)
    ensures Linked(mem, [first] + rest, first, before, last)
    ensures OrdersOf(mem, [first] + rest) == [At(mem, first)] + OrdersOf(mem, rest)
  {
    assert ([first] + rest)[1..] == rest;
  }

  /** Unlinking beyond the second node: the first one is not touched. */
  lemma LinkedEraseBeyond(mem: Memory, q: seq<Addr>, first: Addr, before: Addr, last: Addr, last': Addr, k: nat, mem': Memory)
    requires Linked(mem, q, first, before, last) && 1 < k < |q|
    requires IsNode(mem', first) && mem'[first] == mem[first]
    requires Linked(mem', WithoutRank(q[1..], k - 1), mem[first].value.next, first, last')
    requires OrdersOf(mem', WithoutRank(q[1..], k - 1)) == WithoutRank(OrdersOf(mem, q[1..]), k - 1)
    ensures Linked(mem', WithoutRank(q, k), first, before, last')
    ensures OrdersOf(mem', WithoutRank(q, k)) == WithoutRank(OrdersOf(mem, q), k)
  {
    LinkedWithout(mem, q[1..], mem[first].value.next, first, last, k - 1);
    LinkedCons(mem', first, WithoutRank(q[1..], k - 1), before, last');
    WithoutRankTail(q, k);
    WithoutRankTail(OrdersOf(mem, q), k);
    assert OrdersOf(mem, q)[1..] == OrdersOf(mem, q[1..]);
  }

  /** Unlinking the second node: the first one now leads to the third. */
  lemma LinkedEraseSecond(mem: Memory, q: seq<Addr>, first: Addr, before: Addr, last: Addr, last': Addr, mem1: Memory, mem': Memory)
    requires Linked(mem, q, first, before, last) && 1 < |q|
    requires forall a :: a in Elements(q[2..]) ==> a in mem1 && a in mem' && mem'[a] == mem1[a]
    requires IsNode(mem', first) && At(mem', first) == At(mem, first) && mem'[first].value.prev == before
    requires Linked(mem1, q[2..], mem'[first].value.next, first, last')
    requires OrdersOf(mem1, q[2..]) == OrdersOf(mem, q)[2..]
    ensures Linked(mem', WithoutRank(q, 1), first, before, last')
    ensures OrdersOf(mem', WithoutRank(q, 1)) == WithoutRank(OrdersOf(mem, q), 1)
  {
    LinkedFrame(mem1, mem', q[2..], mem'[first].value.next, first, last');
    assert q[1..][1..] == q[2..];
    assert first !in Elements(q[2..]);
    LinkedCons(mem', first, q[2..], before, last');
    assert WithoutRank(q, 1) == [first] + q[2..];
    assert WithoutRank(OrdersOf(mem, q), 1) == [At(mem, first)] + OrdersOf(mem, q)[2..];
  }

  lemma EraseSecondFrame(mem: Memory, q: seq<Addr>, first: Addr, before: Addr, last: Addr, mem1: Memory, mem': Memory)
    requires Linked(mem, q, first, before, last) && 1 < |q|
    requires IsNode(mem, q[0]) && (2 < |q| ==> IsNode(mem, q[2]) && q[2] in Elements(q[1..]))
    requires var next := if 2 < |q| then q[2] else NULL;
             && mem1 == Unlinked(mem, q[0], next, false, 2 < |q|)
             && mem' == Unlinked(mem, q[0], next, true, 2 < |q|)
    ensures forall a :: a in Elements(q[2..]) ==> a in mem1 && a in mem' && mem'[a] == mem1[a]
    ensures IsNode(mem', first) && At(mem', first) == At(mem, first)
    ensures mem'[first].value.prev == before && mem'[first].value.next == if 2 < |q| then q[2] else NULL
  {
    LinkedNodes(mem, q, first, before, last);
    assert q[1..][1..] == q[2..];
  }

  /** Unlinking the node of rank `k` leaves a linked list of the others, with the same orders. */
  lemma {:induction false} LinkedErase(mem: Memory, q: seq<Addr>, first: Addr, before: Addr, last: Addr, k: nat)
    requires Linked(mem, q, first, before, last) && k < |q|
    ensures IsNode(mem, q[k]) && (k > 0 ==> IsNode(mem, q[k - 1])) && (k + 1 < |q| ==> IsNode(mem, q[k + 1]))
    ensures mem[q[k]].value.next == if k + 1 < |q| then q[k + 1] else NULL
    ensures var prev, next := if k == 0 then before else q[k - 1], if k + 1 < |q| then q[k + 1] else NULL;
            var mem' := Unlinked(mem, prev, next, k > 0, k + 1 < |q|);
            && Linked(mem', WithoutRank(q, k), if k == 0 then next else first, before, if k + 1 < |q| then last else prev)
            && OrdersOf(mem', WithoutRank(q, k)) == WithoutRank(OrdersOf(mem, q), k)
    decreases |q|
  {
    LinkedNeighbours(mem, q, first, before, last, k);
    if k == 0 {
      assert WithoutRank(q, 0) == q[1..];
      assert WithoutRank(OrdersOf(mem, q), 0) == OrdersOf(mem, q[1..]);
      if |q| > 1 {
        LinkedWithPrev(mem, q[1..], mem[first].value.next, first, last, before);
      }
    } else {
      LinkedErase(mem, q[1..], mem[first].value.next, first, last, k - 1);
      var next, forth := mem[q[k]].value.next, k + 1 < |q|;
      var prev, last' := q[k - 1], if k + 1 < |q| then last else q[k - 1];
      var mem' := Unlinked(mem, prev, next, true, forth);
      if k > 1 {
        ElementAt(q[1..], k - 2);
        if forth { ElementAt(q[1..], k); }
        LinkedEraseBeyond(mem, q, first, before, last, last', k, mem');
      } else {
        var mem1 := Unlinked(mem, prev, next, false, forth);
        assert WithoutRank(q[1..], 0) == q[2..];
        assert WithoutRank(OrdersOf(mem, q[1..]), 0) == OrdersOf(mem, q)[2..];
        if forth { ElementAt(q[1..], 1); }
        EraseSecondFrame(mem, q, first, before, last, mem1, mem');
        LinkedEraseSecond(mem, q, first, before, last, last', mem1, mem');
      }
    }
  }

  // One side of the book: its table of levels and the index entries for it.

  /** The nodes of a level hold orders at its price, and the index leads from their ids to them. */
  ghost predicate Indexed(mem: Memory, side: Side, price: int, q: seq<Addr>, locs: Index) {
    forall a :: a in Elements(q) ==>
      At(mem, a).price == price && At(mem, a).id in locs && locs[At(mem, a).id] == Location(side, price, a)
  }

  ghost predicate LevelOk(mem: Memory, side: Side, e: Entry, q: seq<Addr>, locs: Index) {
    Linked(mem, q, e.level.head, NULL, e.level.tail) && Indexed(mem, side, e.price, q, locs)
  }

  /** The table of a side, best price first (std::map with std::greater or std::less). */
  ghost predicate PricesOk(side: Side, es: seq<Entry>) {
    forall i, j :: 0 <= i < j < |es| ==> Better(side, es[i].price, es[j].price)
  }

  /** An index entry leads to a node with its id in the level at its price. */
  ghost predicate Rests(mem: Memory, es: seq<Entry>, qs: seq<seq<Addr>>, id: nat, l: Location)
    requires |es| == |qs|
  {
    At(mem, l.node).id == id && exists i :: 0 <= i < |es| && es[i].price == l.price && l.node in Elements(qs[i])
  }

  /** `qs[i]` lists the nodes of level `i`, oldest first. */
  ghost predicate TableOk(mem: Memory, side: Side, es: seq<Entry>, qs: seq<seq<Addr>>, locs: Index) {
    && |es| == |qs| && PricesOk(side, es)
    && (forall i :: 0 <= i < |es| ==> LevelOk(mem, side, es[i], qs[i], locs))
    && (forall id :: id in locs && locs[id].side == side ==> Rests(mem, es, qs, id, locs[id]))
  }

  /** Every block in use holds an order that the index leads to. */
  ghost predicate LiveOk(mem: Memory, locs: Index) {
    forall a :: a in mem && !mem[a].FreeNode? ==>
      IsNode(mem, a) && At(mem, a).id in locs && locs[At(mem, a).id].node == a
  }

  ghost predicate NoEmptyLevel(qs: seq<seq<Addr>>) {
    forall i :: 0 <= i < |qs| ==> qs[i] != []
  }

  /** Outside `s` the same blocks are in use with the same contents. */
  ghost predicate SameElsewhere(mem: Memory, mem': Memory, s: set<Addr>) {
    && (forall a :: a in mem && !mem[a].FreeNode? && a !in s ==> a in mem' && mem'[a] == mem[a])
    && (forall a :: a in mem' && !mem'[a].FreeNode? && a !in s ==> a in mem && mem[a] == mem'[a])
  }

  predicate IsAt(l: Location, side: Side, price: int) {
    l.side == side && l.price == price
  }

  ghost predicate LocsChangeOnlyAt(locs: Index, locs': Index, side: Side, price: int) {
    && (forall id :: id in locs && !IsAt(locs[id], side, price) ==> id in locs' && locs'[id] == locs[id])
    && (forall id :: id in locs' && !IsAt(locs'[id], side, price) ==> id in locs && locs[id] == locs'[id])
  }

  /** At a side and price the index leads only to nodes of `q`, from their own ids. */
  ghost predicate LeadsTo(mem: Memory, side: Side, price: int, q: seq<Addr>, locs: Index) {
    forall id :: id in locs && IsAt(locs[id], side, price) ==> locs[id].node in Elements(q) && At(mem, locs[id].node).id == id
  }

  /** Only nodes of `q` and `q'` change; those that come were free, those that go become free. */
  ghost predicate NodesChange(mem: Memory, mem': Memory, q: seq<Addr>, q': seq<Addr>) {
    && SameElsewhere(mem, mem', Elements(q) + Elements(q'))
    && (forall a :: a in Elements(q') && a !in Elements(q) ==> a !in mem || mem[a].FreeNode?)
    && (forall a :: a in Elements(q) && a !in Elements(q') ==> a !in mem' || mem'[a].FreeNode?)
  }

  /** One level goes from the nodes `q` to the nodes `q'`; memory and index change nowhere else. */
  ghost predicate LevelChange(mem: Memory, mem': Memory, side: Side, price: int,
                              q: seq<Addr>, q': seq<Addr>, locs: Index, locs': Index)
  {
    && NodesChange(mem, mem', q, q')
    && Indexed(mem', side, price, q', locs')
    && LocsChangeOnlyAt(locs, locs', side, price)
    && LeadsTo(mem', side, price, q', locs')
  }

  /** A level at another price or on the other side is not disturbed. */
  lemma OtherLevel(mem: Memory, mem': Memory, side: Side, price: int, q: seq<Addr>, q': seq<Addr>, locs: Index, locs': Index,
                   side2: Side, e2: Entry, q2: seq<Addr>)
    requires LevelChange(mem, mem', side, price, q, q', locs, locs') && Indexed(mem, side, price, q, locs)
    requires LevelOk(mem, side2, e2, q2, locs) && (side2 != side || e2.price != price)
    ensures LevelOk(mem', side2, e2, q2, locs') && OrdersOf(mem', q2) == OrdersOf(mem, q2)
    ensures forall a :: a in Elements(q2) ==> a in mem && a in mem' && mem'[a] == mem[a]
  {
    LinkedNodes(mem, q2, e2.level.head, NULL, e2.level.tail);
    forall a | a in Elements(q2) ensures a in mem && a in mem' && mem'[a] == mem[a] {
      assert locs[At(mem, a).id] == Location(side2, e2.price, a);
      assert a !in Elements(q);
    }
    LinkedFrame(mem, mem', q2, e2.level.head, NULL, e2.level.tail);
  }

  lemma OtherRests(mem: Memory, mem': Memory, side: Side, price: int, q: seq<Addr>, q': seq<Addr>, locs: Index, locs': Index,
                   side2: Side, es: seq<Entry>, qs: seq<seq<Addr>>, id: nat)
    requires LevelChange(mem, mem', side, price, q, q', locs, locs') && Indexed(mem, side, price, q, locs)
    requires TableOk(mem, side2, es, qs, locs)
    requires id in locs' && locs'[id].side == side2 && !IsAt(locs'[id], side, price)
    ensures Rests(mem', es, qs, id, locs'[id])
  {
    var l := locs'[id];
    assert Rests(mem, es, qs, id, l);
    var i :| 0 <= i < |es| && es[i].price == l.price && l.node in Elements(qs[i]);
    OtherLevel(mem, mem', side, price, q, q', locs, locs', side2, es[i], qs[i]);
  }

  /** The other side is not disturbed. */
  lemma OtherSide(mem: Memory, mem': Memory, side: Side, price: int, q: seq<Addr>, q': seq<Addr>, locs: Index, locs': Index,
                  side2: Side, es: seq<Entry>, qs: seq<seq<Addr>>)
    requires LevelChange(mem, mem', side, price, q, q', locs, locs') && Indexed(mem, side, price, q, locs)
    requires TableOk(mem, side2, es, qs, locs) && side2 != side
    ensures TableOk(mem', side2, es, qs, locs')
    ensures Flat(mem', qs) == Flat(mem, qs)
  {
    forall i | 0 <= i < |es|
      ensures LevelOk(mem', side2, es[i], qs[i], locs') && OrdersOf(mem', qs[i]) == OrdersOf(mem, qs[i])
    {
      OtherLevel(mem, mem', side, price, q, q', locs, locs', side2, es[i], qs[i]);
    }
    forall id | id in locs' && locs'[id].side == side2 ensures Rests(mem', es, qs, id, locs'[id]) {
      OtherRests(mem, mem', side, price, q, q', locs, locs', side2, es, qs, id);
    }
    FlatFrame(mem, mem', qs);
  }

  lemma OwnOtherLevel(mem: Memory, mem': Memory, side: Side, es: seq<Entry>, qs: seq<seq<Addr>>, locs: Index, locs': Index,
                      i: nat, q': seq<Addr>, j: nat)
    requires TableOk(mem, side, es, qs, locs) && i < |es| && j < |es| && j != i
    requires LevelChange(mem, mem', side, es[i].price, qs[i], q', locs, locs')
    ensures LevelOk(mem', side, es[j], qs[j], locs') && OrdersOf(mem', qs[j]) == OrdersOf(mem, qs[j])
  {
    OtherPrice(side, es, i, j);
    assert LevelOk(mem, side, es[i], qs[i], locs);
    OtherLevel(mem, mem', side, es[i].price, qs[i], q', locs, locs', side, es[j], qs[j]);
  }

  lemma OwnRests(mem: Memory, mem': Memory, side: Side, es: seq<Entry>, qs: seq<seq<Addr>>, locs: Index, locs': Index,
                 i: nat, level: PriceLevel, q': seq<Addr>, id: nat)
    requires TableOk(mem, side, es, qs, locs) && i < |es|
    requires LevelChange(mem, mem', side, es[i].price, qs[i], q', locs, locs')
    requires id in locs' && locs'[id].side == side
    ensures Rests(mem', es[i := Entry(es[i].price, level)], qs[i := q'], id, locs'[id])
  {
    var es', qs' := es[i := Entry(es[i].price, level)], qs[i := q'];
    if IsAt(locs'[id], side, es[i].price) {
      assert es'[i].price == es[i].price && qs'[i] == q';
    } else {
      assert LevelOk(mem, side, es[i], qs[i], locs);
      OtherRests(mem, mem', side, es[i].price, qs[i], q', locs, locs', side, es, qs, id);
      var j :| 0 <= j < |es| && es[j].price == locs'[id].price && locs'[id].node in Elements(qs[j]);
      assert es'[j] == es[j] && qs'[j] == qs[j];
    }
  }

  /** The side of the level that changed is as it was, but for that level. */
  lemma OwnSide(mem: Memory, mem': Memory, side: Side, es: seq<Entry>, qs: seq<seq<Addr>>, locs: Index, locs': Index,
                i: nat, level: PriceLevel, q': seq<Addr>)
    requires TableOk(mem, side, es, qs, locs) && i < |es|
    requires LevelChange(mem, mem', side, es[i].price, qs[i], q', locs, locs')
    requires Linked(mem', q', level.head, NULL, level.tail)
    ensures TableOk(mem', side, es[i := Entry(es[i].price, level)], qs[i := q'], locs')
  {
    var es', qs' := es[i := Entry(es[i].price, level)], qs[i := q'];
    forall j | 0 <= j < |es'| ensures LevelOk(mem', side, es'[j], qs'[j], locs') {
      if j != i {
        OwnOtherLevel(mem, mem', side, es, qs, locs, locs', i, q', j);
      }
    }
    forall id | id in locs' && locs'[id].side == side ensures Rests(mem', es', qs', id, locs'[id]) {
      OwnRests(mem, mem', side, es, qs, locs, locs', i, level, q', id);
    }
  }

  lemma OwnFlat(mem: Memory, mem': Memory, side: Side, es: seq<Entry>, qs: seq<seq<Addr>>, locs: Index, locs': Index,
                i: nat, q': seq<Addr>)
    requires TableOk(mem, side, es, qs, locs) && i < |es|
    requires LevelChange(mem, mem', side, es[i].price, qs[i], q', locs, locs')
    ensures Flat(mem', qs[i := q']) == Flat(mem, qs[..i]) + OrdersOf(mem', q') + Flat(mem, qs[i + 1..])
  {
    forall j | 0 <= j < |es| && j != i ensures OrdersOf(mem', qs[j]) == OrdersOf(mem, qs[j]) {
      OwnOtherLevel(mem, mem', side, es, qs, locs, locs', i, q', j);
    }
    FlatFrame(mem, mem', qs[..i]);
    FlatFrame(mem, mem', qs[i + 1..]);
    FlatSplit(mem', qs[i := q'], i);
    assert qs[i := q'][..i] == qs[..i] && qs[i := q'][i + 1..] == qs[i + 1..];
  }

  lemma OtherPrice(side: Side, es: seq<Entry>, i: nat, j: nat)
    requires PricesOk(side, es) && i < |es| && j < |es| && i != j
    ensures es[i].price != es[j].price
  {
    assert Better(side, es[if i < j then i else j].price, es[if i < j then j else i].price);
  }

  lemma SamePrice(side: Side, es: seq<Entry>, i: nat, j: nat)
    requires PricesOk(side, es) && i < |es| && j < |es| && es[i].price == es[j].price
    ensures i == j
  {
    if i != j {
      OtherPrice(side, es, i, j);
    }
  }

  lemma LiveAfter(mem: Memory, mem': Memory, side: Side, es: seq<Entry>, qs: seq<seq<Addr>>, locs: Index, locs': Index,
                  i: nat, q': seq<Addr>)
    requires TableOk(mem, side, es, qs, locs) && LiveOk(mem, locs) && i < |es|
    requires LevelChange(mem, mem', side, es[i].price, qs[i], q', locs, locs')
    requires forall a :: a in Elements(q') ==> IsNode(mem', a)
    ensures LiveOk(mem', locs')
  {
    forall a | a in mem' && !mem'[a].FreeNode?
      ensures IsNode(mem', a) && At(mem', a).id in locs' && locs'[At(mem', a).id].node == a
    {
      if a !in Elements(q') && a !in Elements(qs[i]) {
        var id := At(mem, a).id;
        if IsAt(locs[id], side, es[i].price) {
          assert Rests(mem, es, qs, id, locs[id]);
          var j :| 0 <= j < |es| && es[j].price == locs[id].price && locs[id].node in Elements(qs[j]);
          if j != i { OtherPrice(side, es, i, j); }
        }
      }
    }
  }

  // The orders of a side.

  ghost function Flat(mem: Memory, qs: seq<seq<Addr>>): seq<Order> {
    if qs == [] then [] else OrdersOf(mem, qs[0]) + Flat(mem, qs[1..])
  }

  lemma {:induction false} FlatFrame(mem: Memory, mem': Memory, qs: seq<seq<Addr>>)
    requires forall i :: 0 <= i < |qs| ==> OrdersOf(mem', qs[i]) == OrdersOf(mem, qs[i])
    ensures Flat(mem', qs) == Flat(mem, qs)
    decreases |qs|
  {
    if qs != [] {
      assert OrdersOf(mem', qs[0]) == OrdersOf(mem, qs[0]);
      FlatFrame(mem, mem', qs[1..]);
    }
  }

  lemma {:induction false} FlatSplit(mem: Memory, qs: seq<seq<Addr>>, i: nat)
    requires i < |qs|
    ensures Flat(mem, qs) == Flat(mem, qs[..i]) + OrdersOf(mem, qs[i]) + Flat(mem, qs[i + 1..])
    decreases |qs|
  {
    if i > 0 {
      FlatSplit(mem, qs[1..], i - 1);
      assert qs[1..][..i - 1] == qs[..i][1..];
      assert qs[1..][i..] == qs[i + 1..];
    }
  }
}
