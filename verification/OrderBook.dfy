/** The order book (order_book.hpp, order_book.cpp), proved to refine MatchingSpec. */
module MatchingEngine {
  import opened Types
  import opened MatchingSpec
  import opened BookInvariant
  import PoolCounters
  import opened Slab
  import opened BookLinks
  import opened BookUpdates
  import FillPrediction
  import opened BookReports

  /** Four 8-byte order fields and the two links of a node. */
  const NODE_SIZE: nat := 4 * 8 + 2 * POINTER_SIZE
  const NODE_ALIGN: nat := 8
  const INITIAL_CAPACITY: nat := 4096

  class OrderBook {
    const pool: SlabAllocator<OrderNode>
    var bids: seq<Entry>
    var asks: seq<Entry>
    var locations: Index
    var nextSequence: nat
    ghost var bidQueues: seq<seq<Addr>>
    ghost var askQueues: seq<seq<Addr>>

    function Levels(side: Side): seq<Entry>
      reads this
    {
      if side.Buy? then bids else asks
    }

    ghost function Queues(side: Side): seq<seq<Addr>>
      reads this
    {
      if side.Buy? then bidQueues else askQueues
    }

    /** The four structures agree: memory and free list, both level tables, the index. */
    ghost predicate Linking()
      reads this, pool
    {
      && pool.Valid()
      && BookLinked(pool.blocks, Buy, bids, bidQueues, asks, askQueues, locations)
      && |locations| == pool.inUse
    }

    /** The book that the pointer structure stands for. */
    ghost function Abs(): Book
      reads this, pool
    {
      Book(Flat(pool.blocks, bidQueues), Flat(pool.blocks, askQueues), nextSequence)
    }

    ghost predicate Valid()
      reads this, pool
    {
      Linking() && NoEmptyLevel(bidQueues) && NoEmptyLevel(askQueues) && BookOk(Abs())
    }

    constructor ()
      ensures Valid() && fresh(pool) && Abs() == EMPTY_BOOK == Book([], [], 0)
      ensures pool.Counted() == PoolCounters.Counters(4096, 4096, 0, 0)
      ensures |pool.blocks| == |pool.free| == 4096 && forall a :: a in pool.blocks ==> pool.blocks[a].FreeNode?
      ensures pool.layout.blockSize == 48 && pool.layout.blockAlign == 8
    {
      LayoutFitsRequest(NODE_SIZE, NODE_ALIGN, INITIAL_CAPACITY);
      pool := new SlabAllocator<OrderNode>(BlockLayout(NODE_SIZE, NODE_ALIGN, INITIAL_CAPACITY));
      bids, asks, locations, nextSequence := [], [], map[], 0;
      bidQueues, askQueues := [], [];
    }

    /** Appends an order to a level; the new node comes from the pool. */
    method PushBack(level: PriceLevel, order: Order, ghost q: seq<Addr>) returns (node: Addr, level': PriceLevel)
      requires pool.Valid() && Linked(pool.blocks, q, level.head, NULL, level.tail)
      modifies pool
      ensures pool.Valid() && pool.inUse == old(pool.inUse) + 1
      ensures NodeAppended(old(pool.blocks), pool.blocks, q, node, order)
      ensures Linked(pool.blocks, q + [node], level'.head, NULL, level'.tail)
      ensures OrdersOf(pool.blocks, q + [node]) == OrdersOf(old(pool.blocks), q) + [order]
    {
      ghost var before := pool.blocks;
      node := pool.Allocate();
      PushBackLinks(before, pool.blocks, q, level, node, order);
      pool.Store(node, OrderNode(order, level.tail, NULL));
      level' := PriceLevel(level.head, node);
      if level.tail != NULL {
        pool.Store(level.tail, pool.blocks[level.tail].value.(next := node));
      } else {
        level' := level'.(head := node);
      }
    }

    /** Takes the first order out of a level and gives its node back. */
    method PopFront(level: PriceLevel, ghost q: seq<Addr>) returns (level': PriceLevel)
      requires pool.Valid() && Linked(pool.blocks, q, level.head, NULL, level.tail) && q != []
      modifies pool
      ensures pool.Valid() && pool.inUse + 1 == old(pool.inUse)
      ensures NodeRemoved(old(pool.blocks), pool.blocks, q, 0)
      ensures Linked(pool.blocks, WithoutRank(q, 0), level'.head, NULL, level'.tail)
      ensures OrdersOf(pool.blocks, WithoutRank(q, 0)) == WithoutRank(OrdersOf(old(pool.blocks), q), 0)
    {
      EraseLinks(pool.blocks, q, level, 0, pool.freeList);
      var node := level.head;
      var next := pool.blocks[node].value.next;
      level' := level.(head := next);
      if next != NULL {
        pool.Store(next, pool.blocks[next].value.(prev := NULL));
      } else {
        level' := level'.(tail := NULL);
      }
      pool.Deallocate(node);
    }

    /** Takes any order out of a level and gives its node back. */
    method Erase(level: PriceLevel, node: Addr, ghost q: seq<Addr>, ghost k: nat) returns (level': PriceLevel)
      requires pool.Valid() && Linked(pool.blocks, q, level.head, NULL, level.tail)
      requires k < |q| && q[k] == node
      modifies pool
      ensures pool.Valid() && pool.inUse + 1 == old(pool.inUse)
      ensures NodeRemoved(old(pool.blocks), pool.blocks, q, k)
      ensures Linked(pool.blocks, WithoutRank(q, k), level'.head, NULL, level'.tail)
      ensures OrdersOf(pool.blocks, WithoutRank(q, k)) == WithoutRank(OrdersOf(old(pool.blocks), q), k)
    {
      EraseLinks(pool.blocks, q, level, k, pool.freeList);
      level' := level;
      var prev, next := pool.blocks[node].value.prev, pool.blocks[node].value.next;
      if prev != NULL {
        pool.Store(prev, pool.blocks[prev].value.(next := next));
      } else {
        level' := level'.(head := next);
      }
      if next != NULL {
        pool.Store(next, pool.blocks[next].value.(prev := prev));
      } else {
        level' := level'.(tail := prev);
      }
      pool.Deallocate(node);
    }

    // Matching.

    /** Writes the new remaining quantity of the first order of the best level of `side`. */
    method ReduceHead(side: Side, es: seq<Entry>, quantity: int,
                      ghost qs: seq<seq<Addr>>, ghost es2: seq<Entry>, ghost qs2: seq<seq<Addr>>)
      requires pool.Valid() && BookLinked(pool.blocks, side, es, qs, es2, qs2, locations) && es != [] && qs[0] != []
      modifies pool`blocks
      ensures pool.Valid() && BookLinked(pool.blocks, side, es, qs, es2, qs2, locations)
      ensures Flat(old(pool.blocks), qs) != []
      ensures Flat(pool.blocks, qs) == ReducedFirst(Flat(old(pool.blocks), qs), quantity)
      ensures Flat(pool.blocks, qs2) == Flat(old(pool.blocks), qs2)
    {
      BestOrder(pool.blocks, side, es, qs, locations);
      ReduceBestOrders(pool.blocks, side, es, qs, locations, quantity);
      ReduceBest(pool.blocks, side, es, qs, es2, qs2, locations, quantity);
      var node := pool.blocks[es[0].level.head].value;
      pool.Store(es[0].level.head, node.(order := node.order.(quantity := quantity)));
    }

    /** Drops the first order of the best level of `side`: its index entry and its node. */
    method RemoveHead(side: Side, es: seq<Entry>,
                      ghost qs: seq<seq<Addr>>, ghost es2: seq<Entry>, ghost qs2: seq<seq<Addr>>)
      returns (level: PriceLevel)
      requires pool.Valid() && BookLinked(pool.blocks, side, es, qs, es2, qs2, locations) && es != [] && qs[0] != []
      requires |locations| == pool.inUse
      modifies pool, this`locations
      ensures pool.Valid() && |locations| == pool.inUse
      ensures BookLinked(pool.blocks, side, es[0 := Entry(es[0].price, level)], qs[0 := WithoutRank(qs[0], 0)], es2, qs2, locations)
      ensures Flat(old(pool.blocks), qs) != []
      ensures Flat(pool.blocks, qs[0 := WithoutRank(qs[0], 0)]) == Flat(old(pool.blocks), qs)[1..]
      ensures Flat(pool.blocks, qs2) == Flat(old(pool.blocks), qs2)
    {
      ghost var mem := pool.blocks;
      BestOrder(mem, side, es, qs, locations);
      assert LevelOk(mem, side, es[0], qs[0], locations);
      var id := pool.blocks[es[0].level.head].value.order.id;
      level := PopFront(es[0].level, qs[0]);
      RemoveBest(mem, pool.blocks, side, es, qs, es2, qs2, locations, level);
      locations := locations - {id};
    }

    /** One trade against the first order of the best level of `side`. */
    method FillHead(id: nat, side: Side, es: seq<Entry>, remaining: int,
                    ghost qs: seq<seq<Addr>>, ghost es2: seq<Entry>, ghost qs2: seq<seq<Addr>>)
      returns (trade: Trade, level: PriceLevel, ghost q: seq<Addr>)
      requires pool.Valid() && BookLinked(pool.blocks, side, es, qs, es2, qs2, locations)
      requires es != [] && |qs| == |es| && qs[0] != []
      requires |locations| == pool.inUse
      modifies pool, this`locations, this`nextSequence
      ensures pool.Valid() && |locations| == pool.inUse && nextSequence == old(nextSequence) + 1
      ensures BookLinked(pool.blocks, side, es[0 := Entry(es[0].price, level)], qs[0 := q], es2, qs2, locations)
      ensures var orders := Flat(old(pool.blocks), qs);
              && orders != [] && orders[0].price == es[0].price
              && trade == Trade(id, orders[0].id, side.Opposite(), orders[0].price, Min(remaining, orders[0].quantity), old(nextSequence))
              && Flat(pool.blocks, qs[0 := q]) == AfterTrade(orders, trade.quantity)
      ensures Flat(pool.blocks, qs2) == Flat(old(pool.blocks), qs2)
    {
      hide BookLinked, SlabAllocator.Valid, AfterTrade, ReducedFirst;
      BestOfBook(pool.blocks, side, es, qs, es2, qs2, locations);
      var resting := pool.blocks[es[0].level.head].value.order;
      var traded := Min(remaining, resting.quantity);
      trade := Trade(id, resting.id, side.Opposite(), es[0].price, traded, nextSequence);
      nextSequence := nextSequence + 1;
      ghost var orders := Flat(pool.blocks, qs);
      assert resting == orders[0];
      ReduceHead(side, es, resting.quantity - traded, qs, es2, qs2);
      level, q := es[0].level, qs[0];
      ghost var reduced := Flat(pool.blocks, qs);
      if resting.quantity - traded == 0 {
        level := RemoveHead(side, es, qs, es2, qs2);
        q := WithoutRank(q, 0);
        assert Flat(pool.blocks, qs[0 := q]) == reduced[1..];
      } else {
        assert es[0 := Entry(es[0].price, level)] == es && qs[0 := q] == qs;
        assert Flat(pool.blocks, qs[0 := q]) == reduced;
      }
      ReducedOrDropped(orders, reduced, Flat(pool.blocks, qs[0 := q]), traded);
    }

    /** Trades against the best level of `side`, oldest order first, until it or the incoming order is used up. */
    method FillLevel(id: nat, side: Side, es: seq<Entry>, limit: int, quantity: int,
                     ghost qs: seq<seq<Addr>>, ghost es2: seq<Entry>, ghost qs2: seq<seq<Addr>>)
      returns (remaining: int, trades: seq<Trade>, level: PriceLevel, ghost q: seq<Addr>)
      requires pool.Valid() && BookLinked(pool.blocks, side, es, qs, es2, qs2, locations)
      requires es != [] && |qs| == |es| && qs[0] != []
      requires |locations| == pool.inUse && quantity > 0
      requires Positive(Flat(pool.blocks, qs)) && Crosses(side.Opposite(), limit, es[0].price)
      modifies pool, this`locations, this`nextSequence
      ensures pool.Valid() && |locations| == pool.inUse && nextSequence == old(nextSequence) + |trades|
      ensures BookLinked(pool.blocks, side, es[0 := Entry(es[0].price, level)], qs[0 := q], es2, qs2, locations)
      ensures Positive(Flat(pool.blocks, qs[0 := q])) && Flat(pool.blocks, qs2) == Flat(old(pool.blocks), qs2)
      ensures 0 <= remaining < quantity && (remaining == 0 || q == []) && (level.head == NULL <==> q == [])
      ensures Continues(Match(Flat(old(pool.blocks), qs), id, side.Opposite(), limit, quantity, old(nextSequence)),
                        trades, Flat(pool.blocks, qs[0 := q]), id, side.Opposite(), limit, remaining, nextSequence)
    {
      hide BookLinked, SlabAllocator.Valid, AfterTrade, Continues, Positive, Crosses;
      ghost var m := Match(Flat(pool.blocks, qs), id, side.Opposite(), limit, quantity, nextSequence);
      remaining, trades, level, q := quantity, [], es[0].level, qs[0];
      var now := es;
      ghost var queues := qs;
      ContinueAtStart(Flat(pool.blocks, qs), id, side.Opposite(), limit, quantity, nextSequence);
      LevelOfBook(pool.blocks, side, now, queues, es2, qs2, locations, 0);
      while remaining > 0 && level.head != NULL
        invariant pool.Valid() && |locations| == pool.inUse && nextSequence == old(nextSequence) + |trades|
        invariant now == es[0 := Entry(es[0].price, level)] && queues == qs[0 := q]
        invariant BookLinked(pool.blocks, side, now, queues, es2, qs2, locations)
        invariant Positive(Flat(pool.blocks, queues)) && Flat(pool.blocks, qs2) == Flat(old(pool.blocks), qs2)
        invariant 0 <= remaining <= quantity && (remaining == quantity ==> q == qs[0]) && (level.head == NULL <==> q == [])
        invariant Continues(m, trades, Flat(pool.blocks, queues), id, side.Opposite(), limit, remaining, nextSequence)
        decreases remaining
      {
        ghost var orders := Flat(pool.blocks, queues);
        var trade: Trade;
        trade, level, q := FillHead(id, side, now, remaining, queues, es2, qs2);
        FirstIsPositive(orders);
        PositiveAfterTrade(orders, trade.quantity);
        ContinueByOne(m, trades, orders, id, side.Opposite(), limit, remaining, trade.sequence);
        trades := trades + [trade];
        remaining := remaining - trade.quantity;
        now := now[0 := Entry(es[0].price, level)];
        queues := queues[0 := q];
        LevelOfBook(pool.blocks, side, now, queues, es2, qs2, locations, 0);
      }
    }

    /** The buy branch: matches against the asks while the best ask is at or below the limit. */
    method MatchAsks(id: nat, price: int, quantity: int) returns (remaining: int, trades: seq<Trade>)
      requires pool.Valid() && BookLinked(pool.blocks, Sell, asks, askQueues, bids, bidQueues, locations)
      requires |locations| == pool.inUse && NoEmptyLevel(askQueues) && Positive(Flat(pool.blocks, askQueues)) && quantity > 0
      modifies this`asks, this`askQueues, this`locations, this`nextSequence, pool
      ensures pool.Valid() && BookLinked(pool.blocks, Sell, asks, askQueues, bids, bidQueues, locations)
      ensures |locations| == pool.inUse && NoEmptyLevel(askQueues)
      ensures Match(Flat(old(pool.blocks), old(askQueues)), id, Buy, price, quantity, old(nextSequence))
           == Matched(Flat(pool.blocks, askQueues), remaining, trades)
      ensures Flat(pool.blocks, bidQueues) == Flat(old(pool.blocks), bidQueues)
      ensures nextSequence == old(nextSequence) + |trades|
    {
      hide BookLinked, SlabAllocator.Valid, Continues, Positive, NoEmptyLevel, Flat, Match;
      ghost var m := Match(Flat(pool.blocks, askQueues), id, Buy, price, quantity, nextSequence);
      remaining, trades := quantity, [];
      ContinueAtStart(Flat(pool.blocks, askQueues), id, Buy, price, quantity, nextSequence);
      SwapSides(pool.blocks, Sell, asks, askQueues, bids, bidQueues, locations);
      while remaining > 0 && asks != []
        invariant pool.Valid() && BookLinked(pool.blocks, Sell, asks, askQueues, bids, bidQueues, locations)
        invariant |locations| == pool.inUse && NoEmptyLevel(askQueues) && Positive(Flat(pool.blocks, askQueues))
        invariant |asks| == |askQueues| && remaining >= 0
        invariant Continues(m, trades, Flat(pool.blocks, askQueues), id, Buy, price, remaining, nextSequence)
        invariant Flat(pool.blocks, bidQueues) == Flat(old(pool.blocks), bidQueues)
        invariant nextSequence == old(nextSequence) + |trades|
        decreases |asks|, remaining
      {
        NoEmptyFirst(askQueues, []);
        if asks[0].price > price {
          BestOfBook(pool.blocks, Sell, asks, askQueues, bids, bidQueues, locations);
          break;
        }
        ghost var orders, sequence, before := Flat(pool.blocks, askQueues), nextSequence, askQueues;
        var left, more, level;
        ghost var q;
        left, more, level, q := FillLevel(id, Sell, asks, price, remaining, askQueues, bids, bidQueues);
        asks := asks[0 := Entry(asks[0].price, level)];
        askQueues := askQueues[0 := q];
        ContinueFurther(m, trades, Match(orders, id, Buy, price, remaining, sequence), more, orders, id, Buy, price, remaining,
                        sequence, Flat(pool.blocks, askQueues), left, nextSequence);
        remaining, trades := left, trades + more;
        NoEmptyFirst(before, q);
        if level.head == NULL {
          DropBest(pool.blocks, Sell, asks, askQueues, bids, bidQueues, locations);
          asks, askQueues := asks[1..], askQueues[1..];
        }
      }
      if asks == [] {
        NoLevelsNoOrders(pool.blocks, askQueues);
      }
      ContinueAtEnd(m, trades, Flat(pool.blocks, askQueues), id, Buy, price, remaining, nextSequence);
    }

    /** The sell branch: matches against the bids while the best bid is at or above the limit. */
    method MatchBids(id: nat, price: int, quantity: int) returns (remaining: int, trades: seq<Trade>)
      requires pool.Valid() && BookLinked(pool.blocks, Buy, bids, bidQueues, asks, askQueues, locations)
      requires |locations| == pool.inUse && NoEmptyLevel(bidQueues) && Positive(Flat(pool.blocks, bidQueues)) && quantity > 0
      modifies this`bids, this`bidQueues, this`locations, this`nextSequence, pool
      ensures pool.Valid() && BookLinked(pool.blocks, Buy, bids, bidQueues, asks, askQueues, locations)
      ensures |locations| == pool.inUse && NoEmptyLevel(bidQueues)
      ensures Match(Flat(old(pool.blocks), old(bidQueues)), id, Sell, price, quantity, old(nextSequence))
           == Matched(Flat(pool.blocks, bidQueues), remaining, trades)
      ensures Flat(pool.blocks, askQueues) == Flat(old(pool.blocks), askQueues)
      ensures nextSequence == old(nextSequence) + |trades|
    {
      hide BookLinked, SlabAllocator.Valid, Continues, Positive, NoEmptyLevel, Flat, Match;
      ghost var m := Match(Flat(pool.blocks, bidQueues), id, Sell, price, quantity, nextSequence);
      remaining, trades := quantity, [];
      ContinueAtStart(Flat(pool.blocks, bidQueues), id, Sell, price, quantity, nextSequence);
      SwapSides(pool.blocks, Buy, bids, bidQueues, asks, askQueues, locations);
      while remaining > 0 && bids != []
        invariant pool.Valid() && BookLinked(pool.blocks, Buy, bids, bidQueues, asks, askQueues, locations)
        invariant |locations| == pool.inUse && NoEmptyLevel(bidQueues) && Positive(Flat(pool.blocks, bidQueues))
        invariant |bids| == |bidQueues| && remaining >= 0
        invariant Continues(m, trades, Flat(pool.blocks, bidQueues), id, Sell, price, remaining, nextSequence)
        invariant Flat(pool.blocks, askQueues) == Flat(old(pool.blocks), askQueues)
        invariant nextSequence == old(nextSequence) + |trades|
        decreases |bids|, remaining
      {
        NoEmptyFirst(bidQueues, []);
        if bids[0].price < price {
          BestOfBook(pool.blocks, Buy, bids, bidQueues, asks, askQueues, locations);
          break;
        }
        ghost var orders, sequence, before := Flat(pool.blocks, bidQueues), nextSequence, bidQueues;
        var left, more, level;
        ghost var q;
        left, more, level, q := FillLevel(id, Buy, bids, price, remaining, bidQueues, asks, askQueues);
        bids := bids[0 := Entry(bids[0].price, level)];
        bidQueues := bidQueues[0 := q];
        ContinueFurther(m, trades, Match(orders, id, Sell, price, remaining, sequence), more, orders, id, Sell, price, remaining,
                        sequence, Flat(pool.blocks, bidQueues), left, nextSequence);
        remaining, trades := left, trades + more;
        NoEmptyFirst(before, q);
        if level.head == NULL {
          DropBest(pool.blocks, Buy, bids, bidQueues, asks, askQueues, locations);
          bids, bidQueues := bids[1..], bidQueues[1..];
        }
      }
      if bids == [] {
        NoLevelsNoOrders(pool.blocks, bidQueues);
      }
      ContinueAtEnd(m, trades, Flat(pool.blocks, bidQueues), id, Sell, price, remaining, nextSequence);
    }

    /** Rests what is left of an order behind the others at its price, in a fresh level if there is none. */
    method Rest(side: Side, es: seq<Entry>, order: Order,
                ghost qs: seq<seq<Addr>>, ghost es2: seq<Entry>, ghost qs2: seq<seq<Addr>>)
      returns (es': seq<Entry>, ghost qs': seq<seq<Addr>>)
      requires pool.Valid() && BookLinked(pool.blocks, side, es, qs, es2, qs2, locations) && |qs| == |es|
      requires |locations| == pool.inUse && NoEmptyLevel(qs) && order.id !in locations
      modifies pool, this`locations
      ensures pool.Valid() && BookLinked(pool.blocks, side, es', qs', es2, qs2, locations)
      ensures |locations| == pool.inUse && NoEmptyLevel(qs')
      ensures Flat(pool.blocks, qs') == Insert(side, Flat(old(pool.blocks), qs), order)
      ensures Flat(pool.blocks, qs2) == Flat(old(pool.blocks), qs2)
    {
      hide BookLinked, SlabAllocator.Valid, NoEmptyLevel, Flat, Insert, Linked, NodeAppended, OrdersOf;
      var i := PositionOf(side, es, order.price);
      es', qs' := es, qs;
      NoEmptyElsewhere(qs, i, 0);
      OthersNotEmpty(qs, i);
      if !(i < |es| && es[i].price == order.price) {
        FreshLevel(pool.blocks, side, es, qs, es2, qs2, locations, order.price);
        es', qs' := InsertAt(es, i, Entry(order.price, EMPTY_LEVEL)), InsertAt(qs, i, []);
      }
      ghost var mem := pool.blocks;
      LevelLinked(mem, side, es', qs', es2, qs2, locations, i);
      var node, level := PushBack(es'[i].level, order, qs'[i]);
      AppendOne(mem, pool.blocks, side, es', qs', es2, qs2, locations, i, level, node, order);
      NoEmptyElsewhere(qs, i, node);
      OneMoreKey(locations, order.id, Location(side, order.price, node));
      locations := locations[order.id := Location(side, order.price, node)];
      es' := es'[i := Entry(es'[i].price, level)];
      qs' := qs'[i := qs'[i] + [node]];
    }

    /** Submits a limit order: rejects it, or matches it and rests what is left. */
    method AddLimitOrder(id: nat, side: Side, price: int, quantity: int) returns (r: Result<seq<Trade>, AddError>)
      requires Valid()
      modifies this, pool
      ensures Valid() && (Abs(), r) == Add(old(Abs()), id, side, price, quantity)
    {
      hide BookLinked, SlabAllocator.Valid, NoEmptyLevel, Flat, Match, BookOk, Insert, Positive, HasId;
      if quantity <= 0 {
        return Failure(InvalidQuantity);
      }
      ghost var b := Abs();
      HoldsIffIndexed(pool.blocks, bids, bidQueues, asks, askQueues, locations, nextSequence, id);
      if id in locations {
        return Failure(DuplicateId);
      }
      AddKeepsBookOk(b, id, side, price, quantity);
      MatchingAddsNoId(b, id, side, price, quantity);
      SwapSides(pool.blocks, Buy, bids, bidQueues, asks, askQueues, locations);
      var remaining, trades;
      if side.Buy? {
        remaining, trades := MatchAsks(id, price, quantity);
        SwapSides(pool.blocks, Sell, asks, askQueues, bids, bidQueues, locations);
      } else {
        remaining, trades := MatchBids(id, price, quantity);
        SwapSides(pool.blocks, Buy, bids, bidQueues, asks, askQueues, locations);
      }
      if remaining > 0 {
        var order := Order(id, price, remaining, nextSequence);
        nextSequence := nextSequence + 1;
        HoldsIffIndexed(pool.blocks, bids, bidQueues, asks, askQueues, locations, nextSequence, id);
        if side.Buy? {
          bids, bidQueues := Rest(Buy, bids, order, bidQueues, asks, askQueues);
        } else {
          asks, askQueues := Rest(Sell, asks, order, askQueues, bids, bidQueues);
          SwapSides(pool.blocks, Sell, asks, askQueues, bids, bidQueues, locations);
        }
      }
      r := Success(trades);
    }

    /** Takes one order out of its level, and drops the level if it was the last one in it. */
    method EraseFrom(side: Side, es: seq<Entry>, id: nat,
                     ghost qs: seq<seq<Addr>>, ghost es2: seq<Entry>, ghost qs2: seq<seq<Addr>>)
      returns (es': seq<Entry>, ghost qs': seq<seq<Addr>>)
      requires pool.Valid() && BookLinked(pool.blocks, side, es, qs, es2, qs2, locations) && |qs| == |es|
      requires |locations| == pool.inUse && NoEmptyLevel(qs) && UniqueIds(Flat(pool.blocks, qs))
      requires id in locations && locations[id].side == side
      modifies pool, this`locations
      ensures pool.Valid() && BookLinked(pool.blocks, side, es', qs', es2, qs2, locations)
      ensures |locations| == pool.inUse && NoEmptyLevel(qs')
      ensures Flat(pool.blocks, qs') == Remove(Flat(old(pool.blocks), qs), id)
      ensures Flat(pool.blocks, qs2) == Flat(old(pool.blocks), qs2)
    {
      hide BookLinked, SlabAllocator.Valid, NoEmptyLevel, Flat, Remove, Linked, NodeRemoved, OrdersOf, UniqueIds;
      var loc := locations[id];
      ghost var k := IndexedLevelExists(pool.blocks, side, es, qs, es2, qs2, locations, id);
      var i := PositionOf(side, es, loc.price);
      ghost var mem := pool.blocks;
      LevelLinked(mem, side, es, qs, es2, qs2, locations, i);
      var level := Erase(es[i].level, loc.node, qs[i], k);
      RemoveOne(mem, pool.blocks, side, es, qs, es2, qs2, locations, i, k, level);
      CancelInLevel(mem, qs, i, k, id);
      FewerKeys(locations, id);
      NoEmptyAfterErase(qs, i, WithoutRank(qs[i], k));
      locations := locations - {id};
      es', qs' := es[i := Entry(es[i].price, level)], qs[i := WithoutRank(qs[i], k)];
      LevelOfBook(pool.blocks, side, es', qs', es2, qs2, locations, i);
      if level.head == NULL {
        DropLevel(pool.blocks, side, es', qs', es2, qs2, locations, i);
        es', qs' := WithoutRank(es', i), WithoutRank(qs', i);
      }
    }

    /** Cancels a resting order; false if no order with this id rests. */
    method CancelOrder(id: nat) returns (found: bool)
      requires Valid()
      modifies this, pool
      ensures Valid() && (Abs(), found) == Cancel(old(Abs()), id)
    {
      hide BookLinked, SlabAllocator.Valid, NoEmptyLevel, Flat, Remove, HasId, SideOk;
      ghost var b := Abs();
      CancelKeepsBookOk(b, id);
      HoldsIffIndexed(pool.blocks, bids, bidQueues, asks, askQueues, locations, nextSequence, id);
      if id !in locations {
        RemoveAbsent(b.bids, id);
        RemoveAbsent(b.asks, id);
        return false;
      }
      SwapSides(pool.blocks, Buy, bids, bidQueues, asks, askQueues, locations);
      if locations[id].side.Buy? {
        RemoveAbsent(b.asks, id);
        SideHasUniqueIds(b, Buy);
        bids, bidQueues := EraseFrom(Buy, bids, id, bidQueues, asks, askQueues);
      } else {
        RemoveAbsent(b.bids, id);
        SideHasUniqueIds(b, Sell);
        asks, askQueues := EraseFrom(Sell, asks, id, askQueues, bids, bidQueues);
        SwapSides(pool.blocks, Sell, asks, askQueues, bids, bidQueues, locations);
      }
      found := true;
    }

    // Reports.

    method BestBid() returns (r: Option<int>)
      requires Valid()
      ensures r == if Abs().bids == [] then None else Some(Abs().bids[0].price)
    {
      if bids == [] {
        return None;
      }
      BestOrder(pool.blocks, Buy, bids, bidQueues, locations);
      return Some(bids[0].price);
    }

    method BestAsk() returns (r: Option<int>)
      requires Valid()
      ensures r == if Abs().asks == [] then None else Some(Abs().asks[0].price)
    {
      if asks == [] {
        return None;
      }
      BestOrder(pool.blocks, Sell, asks, askQueues, locations);
      return Some(asks[0].price);
    }

    method OrderCount() returns (count: nat)
      requires Valid()
      ensures count == |Abs().bids| + |Abs().asks| == pool.inUse
    {
      IndexCountsOrders(pool.blocks, bids, bidQueues, asks, askQueues, locations, nextSequence);
      count := |locations|;
    }

    /** Walks a level and adds up what rests in it. */
    method SumQuantity(level: PriceLevel, ghost q: seq<Addr>) returns (total: int)
      requires Linked(pool.blocks, q, level.head, NULL, level.tail)
      ensures total == Total(OrdersOf(pool.blocks, q))
    {
      total := 0;
      var node := level.head;
      ghost var rest, before := q, NULL;
      while node != NULL
        invariant Linked(pool.blocks, rest, node, before, level.tail)
        invariant total + Total(OrdersOf(pool.blocks, rest)) == Total(OrdersOf(pool.blocks, q))
        decreases |rest|
      {
        total := total + pool.blocks[node].value.order.quantity;
        before, rest := node, rest[1..];
        node := pool.blocks[node].value.next;
      }
    }

    /** Walks a level and lists its order ids. */
    method CollectIds(level: PriceLevel, ghost q: seq<Addr>) returns (ids: seq<nat>)
      requires Linked(pool.blocks, q, level.head, NULL, level.tail)
      ensures ids == Ids(OrdersOf(pool.blocks, q))
    {
      ids := [];
      var node := level.head;
      ghost var rest, before := q, NULL;
      while node != NULL
        invariant Linked(pool.blocks, rest, node, before, level.tail)
        invariant ids + Ids(OrdersOf(pool.blocks, rest)) == Ids(OrdersOf(pool.blocks, q))
        decreases |rest|
      {
        ids := ids + [pool.blocks[node].value.order.id];
        before, rest := node, rest[1..];
        node := pool.blocks[node].value.next;
      }
    }

    method QuantityAt(side: Side, price: int) returns (total: int)
      requires Valid()
      ensures total == TotalAt(Abs().Resting(side), price)
    {
      hide BookLinked, SlabAllocator.Valid, NoEmptyLevel, Flat, BookOk, Linked, OrdersOf, Total, TotalAt, IdsAt;
      var es := Levels(side);
      var i := PositionOf(side, es, price);
      SwapSides(pool.blocks, Buy, bids, bidQueues, asks, askQueues, locations);
      LevelHoldsPrice(pool.blocks, side, es, Queues(side), Levels(side.Opposite()), Queues(side.Opposite()), locations, price);
      if i < |es| && es[i].price == price {
        LevelLinked(pool.blocks, side, es, Queues(side), Levels(side.Opposite()), Queues(side.Opposite()), locations, i);
        total := SumQuantity(es[i].level, Queues(side)[i]);
      } else {
        total := 0;
      }
    }

    method OrdersAt(side: Side, price: int) returns (ids: seq<nat>)
      requires Valid()
      ensures ids == IdsAt(Abs().Resting(side), price)
    {
      hide BookLinked, SlabAllocator.Valid, NoEmptyLevel, Flat, BookOk, Linked, OrdersOf, TotalAt, Ids, IdsAt;
      var es := Levels(side);
      var i := PositionOf(side, es, price);
      SwapSides(pool.blocks, Buy, bids, bidQueues, asks, askQueues, locations);
      LevelHoldsPrice(pool.blocks, side, es, Queues(side), Levels(side.Opposite()), Queues(side.Opposite()), locations, price);
      if i < |es| && es[i].price == price {
        LevelLinked(pool.blocks, side, es, Queues(side), Levels(side.Opposite()), Queues(side.Opposite()), locations, i);
        ids := CollectIds(es[i].level, Queues(side)[i]);
      } else {
        ids := [];
      }
    }

    /** The levels of a side with their totals, best price first (bid_levels, ask_levels). */
    method SideLevels(side: Side) returns (levels: seq<PriceQuantity>)
      requires Valid()
      ensures levels == FillPrediction.Levels(Abs().Resting(side))
    {
      hide BookLinked, SlabAllocator.Valid, NoEmptyLevel, Flat, BookOk, Linked, OrdersOf, Total, FillPrediction.Levels;
      levels := [];
      var es := Levels(side);
      ghost var mem, qs := pool.blocks, Queues(side);
      SwapSides(mem, Buy, bids, bidQueues, asks, askQueues, locations);
      assert qs[0..] == qs;
      var i := 0;
      while i < |es|
        invariant 0 <= i <= |es|
        invariant levels + FillPrediction.Levels(Flat(mem, qs[i..])) == FillPrediction.Levels(Flat(mem, qs))
      {
        LevelsOfTable(mem, side, es, qs, Levels(side.Opposite()), Queues(side.Opposite()), locations, i);
        LevelLinked(mem, side, es, qs, Levels(side.Opposite()), Queues(side.Opposite()), locations, i);
        var total := SumQuantity(es[i].level, qs[i]);
        ghost var rest := FillPrediction.Levels(Flat(mem, qs[i + 1..]));
        assert levels + ([PriceQuantity(es[i].price, total)] + rest) == (levels + [PriceQuantity(es[i].price, total)]) + rest;
        levels := levels + [PriceQuantity(es[i].price, total)];
        i := i + 1;
      }
      NoLevelsNoOrders(mem, qs[i..]);
      FillPrediction.LevelsStart([]);
    }

    // Taking the book down.

    /** Gives back the nodes of one level, in list order; reads each link before its block goes. */
    method DestroyLevel(level: PriceLevel, ghost q: seq<Addr>)
      requires pool.Valid() && Linked(pool.blocks, q, level.head, NULL, level.tail)
      modifies pool
      ensures pool.Valid() && pool.inUse + |q| == old(pool.inUse)
      ensures forall a :: a in old(pool.blocks) && !old(pool.blocks)[a].FreeNode? && a !in Elements(q) ==>
                a in pool.blocks && pool.blocks[a] == old(pool.blocks)[a]
    {
      hide SlabAllocator.Valid;
      var node := level.head;
      ghost var rest, before := q, NULL;
      while node != NULL
        invariant pool.Valid() && pool.inUse + |q| == old(pool.inUse) + |rest|
        invariant Linked(pool.blocks, rest, node, before, level.tail) && Elements(rest) <= Elements(q)
        invariant forall a :: a in old(pool.blocks) && !old(pool.blocks)[a].FreeNode? && a !in Elements(q) ==>
                    a in pool.blocks && pool.blocks[a] == old(pool.blocks)[a]
        decreases |rest|
      {
        var next := pool.blocks[node].value.next;
        LinkedNodes(pool.blocks, rest[1..], next, node, level.tail);
        ghost var mem := pool.blocks;
        pool.Deallocate(node);
        LinkedFrame(mem, pool.blocks, rest[1..], next, node, level.tail);
        before, rest := node, rest[1..];
        node := next;
      }
    }

    /** The same for level `i` of a table whose later levels are intact: those stay so. */
    method DestroyNext(level: PriceLevel, ghost es: seq<Entry>, ghost qs: seq<seq<Addr>>, ghost i: nat)
      requires pool.Valid() && Intact(pool.blocks, es, qs, i) && i < |es| == |qs| && es[i].level == level
      requires pool.inUse == Nodes(qs[i..])
      modifies pool
      ensures pool.Valid() && Intact(pool.blocks, es, qs, i + 1) && pool.inUse == Nodes(qs[i + 1..])
    {
      hide SlabAllocator.Valid, Intact, Linked;
      ghost var mem := pool.blocks;
      IntactLevel(mem, es, qs, i);
      DestroyLevel(level, qs[i]);
      IntactAfter(mem, pool.blocks, es, qs, i);
    }

    /** The destructor: every node of both sides goes back to the pool, and none is left in use. */
    method Destroy()
      requires Valid()
      modifies pool
      ensures pool.Valid() && pool.inUse == 0
    {
      hide BookLinked, SlabAllocator.Valid, NoEmptyLevel, Flat, BookOk, Linked, Intact;
      ghost var es, qs := bids + asks, bidQueues + askQueues;
      AllIntact(pool.blocks, bids, bidQueues, asks, askQueues, locations);
      SwapSides(pool.blocks, Buy, bids, bidQueues, asks, askQueues, locations);
      IndexCountsOrders(pool.blocks, bids, bidQueues, asks, askQueues, locations, nextSequence);
      NodesCountOrders(pool.blocks, bidQueues);
      NodesCountOrders(pool.blocks, askQueues);
      NodesAppend(bidQueues, askQueues);
      assert qs[0..] == qs;
      var i := 0;
      while i < |bids|
        invariant 0 <= i <= |bids|
        invariant pool.Valid() && Intact(pool.blocks, es, qs, i) && pool.inUse == Nodes(qs[i..])
      {
        DestroyNext(bids[i].level, es, qs, i);
        i := i + 1;
      }
      i := 0;
      while i < |asks|
        invariant 0 <= i <= |asks|
        invariant pool.Valid() && Intact(pool.blocks, es, qs, |bids| + i) && pool.inUse == Nodes(qs[|bids| + i..])
      {
        DestroyNext(asks[i].level, es, qs, |bids| + i);
        i := i + 1;
      }
    }

    // Every reachable state.

    /** Each block is free or holds the node of exactly one indexed order, never both. */
    lemma EveryBlockHasOneRole(a: Addr)
      requires Valid() && a in pool.blocks
      ensures a in Elements(pool.free) <==> !exists id :: id in locations && locations[id].node == a
      ensures forall id, id' :: id in locations && id' in locations && locations[id].node == a && locations[id'].node == a ==> id == id'
    {
      forall id | id in locations && locations[id].node == a
        ensures IsNode(pool.blocks, a) && At(pool.blocks, a).id == id
      {
        IndexedNode(pool.blocks, Buy, bids, bidQueues, asks, askQueues, locations, id);
      }
      if !pool.blocks[a].FreeNode? {
        assert locations[At(pool.blocks, a).id].node == a;
      }
    }
  }

  /** Runs commands on a new book (the shape of every driver of the book). */
  method Replay(cs: seq<Command>) returns (book: OrderBook, os: seq<Outcome>)
    ensures fresh(book) && fresh(book.pool) && book.Valid()
    ensures (book.Abs(), os) == Run(EMPTY_BOOK, cs)
  {
    hide OrderBook.Valid, OrderBook.Abs, Add, Cancel, Run;
    EmptyRun(EMPTY_BOOK);
    book := new OrderBook();
    os := [];
    var i := 0;
    while i < |cs|
      invariant 0 <= i <= |cs| && fresh(book) && fresh(book.pool) && book.Valid()
      invariant (book.Abs(), os) == Run(EMPTY_BOOK, cs[..i])
    {
      RunAppend(EMPTY_BOOK, cs[..i], cs[i]);
      assert cs[..i] + [cs[i]] == cs[..i + 1];
      match cs[i] {
        case AddLimit(id, side, price, quantity) =>
          var r := book.AddLimitOrder(id, side, price, quantity);
          os := os + [Added(r)];
        case CancelOrder(id) =>
          var found := book.CancelOrder(id);
          os := os + [Cancelled(found)];
      }
      i := i + 1;
    }
    assert cs[..i] == cs;
  }

  lemma SideHasUniqueIds(b: Book, side: Side)
    requires BookOk(b)
    ensures UniqueIds(b.Resting(side))
  {
  }
}
