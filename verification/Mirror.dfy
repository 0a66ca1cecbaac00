/** The buy and sell branches mirror each other: swap the sides, negate the prices, nothing else changes. */
module Mirror {
  import opened Types
  import opened MatchingSpec

  function MirrorOrder(o: Order): Order {
    o.(price := -o.price)
  }

  function MirrorOrders(orders: seq<Order>): seq<Order> {
    if orders == [] then [] else [MirrorOrder(orders[0])] + MirrorOrders(orders[1..])
  }

  function MirrorTrades(trades: seq<Trade>): seq<Trade> {
    if trades == [] then []
    else [trades[0].(price := -trades[0].price, aggressorSide := trades[0].aggressorSide.Opposite())]
         + MirrorTrades(trades[1..])
  }

  function MirrorBook(b: Book): Book {
    Book(MirrorOrders(b.asks), MirrorOrders(b.bids), b.nextSequence)
  }

  function MirrorCommand(c: Command): Command {
    match c
    case AddLimit(id, side, price, quantity) => AddLimit(id, side.Opposite(), -price, quantity)
    case CancelOrder(id) => c
  }

  function MirrorCommands(cs: seq<Command>): seq<Command> {
    if cs == [] then [] else [MirrorCommand(cs[0])] + MirrorCommands(cs[1..])
  }

  function MirrorResult(r: Result<seq<Trade>, AddError>): Result<seq<Trade>, AddError> {
    if r.Success? then Success(MirrorTrades(r.value)) else r
  }

  function MirrorOutcome(o: Outcome): Outcome {
    match o
    case Added(r) => Added(MirrorResult(r))
    case Cancelled(found) => o
  }

  function MirrorOutcomes(os: seq<Outcome>): seq<Outcome> {
    if os == [] then [] else [MirrorOutcome(os[0])] + MirrorOutcomes(os[1..])
  }

  lemma {:induction false} MirrorLengths(orders: seq<Order>, trades: seq<Trade>)
    ensures |MirrorOrders(orders)| == |orders| && |MirrorTrades(trades)| == |trades|
    decreases |orders| + |trades|
  {
    if orders != [] {
      MirrorLengths(orders[1..], trades);
    } else if trades != [] {
      MirrorLengths(orders, trades[1..]);
    }
  }

  lemma {:induction false} MirrorHasId(orders: seq<Order>, id: nat)
    ensures HasId(MirrorOrders(orders), id) == HasId(orders, id)
    decreases |orders|
  {
    if orders != [] {
      MirrorHasId(orders[1..], id);
      HasIdFirst(orders, id);
      HasIdFirst(MirrorOrders(orders), id);
      assert MirrorOrders(orders)[1..] == MirrorOrders(orders[1..]);
    }
  }

  lemma HasIdFirst(orders: seq<Order>, id: nat)
    requires orders != []
    ensures HasId(orders, id) == (orders[0].id == id || HasId(orders[1..], id))
  {
    if HasId(orders[1..], id) {
      var k :| 0 <= k < |orders[1..]| && orders[1..][k].id == id;
      assert orders[k + 1].id == id;
    }
    if HasId(orders, id) && orders[0].id != id {
      var k :| 0 <= k < |orders| && orders[k].id == id;
      assert orders[1..][k - 1].id == id;
    }
  }

  lemma {:induction false} MirrorMatch(resting: seq<Order>, id: nat, side: Side, limit: int, quantity: int, sequence: nat)
    ensures var m := Match(resting, id, side, limit, quantity, sequence);
            Match(MirrorOrders(resting), id, side.Opposite(), -limit, quantity, sequence)
            == Matched(MirrorOrders(m.resting), m.remaining, MirrorTrades(m.trades))
    decreases |resting|
  {
    if quantity > 0 && resting != [] && Crosses(side, limit, resting[0].price) {
      var best, tail := resting[0], resting[1..];
      assert MirrorOrders(resting)[0] == MirrorOrder(best) && MirrorOrders(resting)[1..] == MirrorOrders(tail);
      if quantity < best.quantity {
        var left := best.(quantity := best.quantity - quantity);
        assert ([left] + tail)[1..] == tail;
        assert MirrorOrders([left] + tail) == [MirrorOrder(left)] + MirrorOrders(tail);
      } else {
        MirrorMatch(tail, id, side, limit, quantity - best.quantity, sequence + 1);
        var rest := Match(tail, id, side, limit, quantity - best.quantity, sequence + 1);
        var trades := Match(resting, id, side, limit, quantity, sequence).trades;
        assert trades[1..] == rest.trades;
      }
    }
  }

  lemma {:induction false} MirrorInsert(side: Side, orders: seq<Order>, order: Order)
    ensures Insert(side.Opposite(), MirrorOrders(orders), MirrorOrder(order)) == MirrorOrders(Insert(side, orders, order))
    decreases |orders|
  {
    if orders == [] || Better(side, order.price, orders[0].price) {
      assert ([order] + orders)[1..] == orders;
    } else {
      MirrorInsert(side, orders[1..], order);
      var rest := Insert(side, orders[1..], order);
      assert ([orders[0]] + rest)[1..] == rest;
      assert MirrorOrders(orders)[1..] == MirrorOrders(orders[1..]);
    }
  }

  lemma {:induction false} MirrorRemove(orders: seq<Order>, id: nat)
    ensures Remove(MirrorOrders(orders), id) == MirrorOrders(Remove(orders, id))
    decreases |orders|
  {
    if orders != [] {
      assert MirrorOrders(orders)[1..] == MirrorOrders(orders[1..]);
      if orders[0].id != id {
        MirrorRemove(orders[1..], id);
        var rest := Remove(orders[1..], id);
        assert ([orders[0]] + rest)[1..] == rest;
      }
    }
  }

  function MirrorMatched(m: Matched): Matched {
    Matched(MirrorOrders(m.resting), m.remaining, MirrorTrades(m.trades))
  }

  lemma MirrorSettle(b: Book, id: nat, side: Side, price: int, m: Matched)
    ensures Settle(MirrorBook(b), id, side.Opposite(), -price, MirrorMatched(m)) == MirrorBook(Settle(b, id, side, price, m))
  {
    MirrorLengths([], m.trades);
    var order := Order(id, price, m.remaining, b.nextSequence + |m.trades|);
    MirrorInsert(side, b.Resting(side), order);
    assert MirrorOrder(order) == order.(price := -price);
  }

  lemma MirrorAdd(b: Book, id: nat, side: Side, price: int, quantity: int)
    ensures var (b', r) := Add(b, id, side, price, quantity);
            Add(MirrorBook(b), id, side.Opposite(), -price, quantity) == (MirrorBook(b'), MirrorResult(r))
  {
    MirrorHasId(b.bids, id);
    MirrorHasId(b.asks, id);
    var resting := b.Resting(side.Opposite());
    assert MirrorBook(b).Resting(side) == MirrorOrders(resting);
    if quantity > 0 && !b.Holds(id) {
      MirrorMatch(resting, id, side, price, quantity, b.nextSequence);
      MirrorSettle(b, id, side, price, Match(resting, id, side, price, quantity, b.nextSequence));
    }
  }

  lemma MirrorStep(b: Book, c: Command)
    ensures var (b', o) := Step(b, c);
            Step(MirrorBook(b), MirrorCommand(c)) == (MirrorBook(b'), MirrorOutcome(o))
  {
    match c
    case AddLimit(id, side, price, quantity) => MirrorAdd(b, id, side, price, quantity);
    case CancelOrder(id) =>
      MirrorRemove(b.bids, id);
      MirrorRemove(b.asks, id);
      MirrorHasId(b.bids, id);
      MirrorHasId(b.asks, id);
  }

  /**
   A mirrored command history gives the same trades with sides swapped and prices negated, the same
   sequence numbers, and the mirrored book.
   */
  lemma {:induction false} MirrorRun(b: Book, cs: seq<Command>)
    ensures var (b', os) := Run(b, cs);
            Run(MirrorBook(b), MirrorCommands(cs)) == (MirrorBook(b'), MirrorOutcomes(os))
    decreases |cs|
  {
    if cs != [] {
      var (b1, o) := Step(b, cs[0]);
      var (b2, os) := Run(b1, cs[1..]);
      MirrorStep(b, cs[0]);
      MirrorRun(b1, cs[1..]);
      assert MirrorCommands(cs)[0] == MirrorCommand(cs[0]) && MirrorCommands(cs)[1..] == MirrorCommands(cs[1..]);
      assert ([o] + os)[1..] == os;
    }
  }
}
