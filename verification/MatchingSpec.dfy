/**
 The meaning of the order book, without pointers: each side is a sequence of orders, best price
 first and oldest first within a price, and an incoming order is matched by recursion on the
 opposite sequence. Class OrderBook is proved to refine this module.
 */
module MatchingSpec {
  import opened Types

  /** On `side`, price `p` is matched before price `q`: bids highest first, asks lowest first. */
  predicate Better(side: Side, p: int, q: int) {
    if side.Buy? then p > q else p < q
  }

  /** An incoming order of `side` with this limit accepts to trade at the resting price `p`. */
  predicate Crosses(side: Side, limit: int, p: int) {
    if side.Buy? then p <= limit else p >= limit
  }

  /** Price-time priority: better price first, then the older order. */
  predicate Precedes(side: Side, x: Order, y: Order) {
    Better(side, x.price, y.price) || (x.price == y.price && x.sequence < y.sequence)
  }

  datatype Book = Book(bids: seq<Order>, asks: seq<Order>, nextSequence: nat) {
    function Resting(side: Side): seq<Order> {
      if side.Buy? then bids else asks
    }

    function With(side: Side, orders: seq<Order>): Book {
      if side.Buy? then this.(bids := orders) else this.(asks := orders)
    }

    predicate Holds(id: nat) {
      HasId(bids, id) || HasId(asks, id)
    }
  }

  const EMPTY_BOOK := Book([], [], 0)

  predicate HasId(orders: seq<Order>, id: nat) {
    exists k :: 0 <= k < |orders| && orders[k].id == id
  }

  datatype Matched = Matched(resting: seq<Order>, remaining: int, trades: seq<Trade>)

  /** Matches an incoming order against the opposite side's orders, front first. */
  function Match(resting: seq<Order>, id: nat, side: Side, limit: int, quantity: int, sequence: nat): Matched
    decreases |resting|
  {
    if quantity <= 0 || resting == [] || !Crosses(side, limit, resting[0].price) then
      Matched(resting, quantity, [])
    else
      var best := resting[0];
      var traded := Min(quantity, best.quantity);
      var trade := Trade(id, best.id, side, best.price, traded, sequence);
      if traded < best.quantity then
        Matched([best.(quantity := best.quantity - traded)] + resting[1..], quantity - traded, [trade])
      else
        var rest := Match(resting[1..], id, side, limit, quantity - traded, sequence + 1);
        rest.(trades := [trade] + rest.trades)
  }

  /** The first order of a side after trading `traded` of it: gone if that is all of it. */
  function AfterTrade(orders: seq<Order>, traded: int): seq<Order>
    requires orders != []
  {
    if traded == orders[0].quantity then orders[1..]
    else [orders[0].(quantity := orders[0].quantity - traded)] + orders[1..]
  }

  /** `m` is what `trades` followed by matching `quantity` against `resting` comes to. */
  ghost predicate Continues(m: Matched, trades: seq<Trade>, resting: seq<Order>, id: nat, side: Side, limit: int,
                            quantity: int, sequence: nat)
  {
    var rest := Match(resting, id, side, limit, quantity, sequence);
    m.resting == rest.resting && m.remaining == rest.remaining && m.trades == trades + rest.trades
  }

  lemma ContinueAtStart(resting: seq<Order>, id: nat, side: Side, limit: int, quantity: int, sequence: nat)
    ensures Continues(Match(resting, id, side, limit, quantity, sequence), [], resting, id, side, limit, quantity, sequence)
  {
  }

  /** When nothing more trades, the trades so far are all there are. */
  lemma ContinueAtEnd(m: Matched, trades: seq<Trade>, resting: seq<Order>, id: nat, side: Side, limit: int,
                      quantity: int, sequence: nat)
    requires Continues(m, trades, resting, id, side, limit, quantity, sequence)
    requires quantity <= 0 || resting == [] || !Crosses(side, limit, resting[0].price)
    ensures m == Matched(resting, quantity, trades)
  {
  }

  lemma ContinueFurther(m: Matched, trades: seq<Trade>, m': Matched, more: seq<Trade>, resting: seq<Order>, id: nat, side: Side,
                        limit: int, quantity: int, sequence: nat,
                        resting': seq<Order>, quantity': int, sequence': nat)
    requires Continues(m, trades, resting, id, side, limit, quantity, sequence)
    requires m' == Match(resting, id, side, limit, quantity, sequence)
    requires Continues(m', more, resting', id, side, limit, quantity', sequence')
    ensures Continues(m, trades + more, resting', id, side, limit, quantity', sequence')
  {
    var rest := Match(resting', id, side, limit, quantity', sequence');
    assert trades + (more + rest.trades) == (trades + more) + rest.trades;
  }

  /** Matching can be done one trade at a time. */
  lemma ContinueByOne(m: Matched, trades: seq<Trade>, resting: seq<Order>, id: nat, side: Side, limit: int,
                      quantity: int, sequence: nat)
    requires Continues(m, trades, resting, id, side, limit, quantity, sequence)
    requires quantity > 0 && resting != [] && resting[0].quantity > 0 && Crosses(side, limit, resting[0].price)
    ensures var traded := Min(quantity, resting[0].quantity);
            var trade := Trade(id, resting[0].id, side, resting[0].price, traded, sequence);
            Continues(m, trades + [trade], AfterTrade(resting, traded), id, side, limit, quantity - traded, sequence + 1)
  {
    var traded := Min(quantity, resting[0].quantity);
    var trade := Trade(id, resting[0].id, side, resting[0].price, traded, sequence);
    var rest := Match(AfterTrade(resting, traded), id, side, limit, quantity - traded, sequence + 1);
    assert Match(resting, id, side, limit, quantity, sequence).trades == [trade] + rest.trades;
    assert trades + ([trade] + rest.trades) == (trades + [trade]) + rest.trades;
  }

  /** Places an order behind every order whose price is at least as good. */
  function Insert(side: Side, orders: seq<Order>, order: Order): seq<Order> {
    if orders == [] || Better(side, order.price, orders[0].price) then
      [order] + orders
    else
      [orders[0]] + Insert(side, orders[1..], order)
  }

  function Remove(orders: seq<Order>, id: nat): seq<Order> {
    if orders == [] then []
    else if orders[0].id == id then orders[1..]
    else [orders[0]] + Remove(orders[1..], id)
  }

  datatype AddError = InvalidQuantity | DuplicateId

  /** What is left of an order after matching rests on its own side; nothing rests if it is filled. */
  function Settle(b: Book, id: nat, side: Side, price: int, m: Matched): Book {
    var matched := b.With(side.Opposite(), m.resting).(nextSequence := b.nextSequence + |m.trades|);
    if m.remaining > 0 then
      var order := Order(id, price, m.remaining, matched.nextSequence);
      matched.With(side, Insert(side, matched.Resting(side), order)).(nextSequence := matched.nextSequence + 1)
    else
      matched
  }

  function Add(b: Book, id: nat, side: Side, price: int, quantity: int): (Book, Result<seq<Trade>, AddError>) {
    if quantity <= 0 then (b, Failure(InvalidQuantity))
    else if b.Holds(id) then (b, Failure(DuplicateId))
    else
      var m := Match(b.Resting(side.Opposite()), id, side, price, quantity, b.nextSequence);
      (Settle(b, id, side, price, m), Success(m.trades))
  }

  function Cancel(b: Book, id: nat): (Book, bool) {
    (Book(Remove(b.bids, id), Remove(b.asks, id), b.nextSequence), b.Holds(id))
  }

  datatype Command = AddLimit(id: nat, side: Side, price: int, quantity: int) | CancelOrder(id: nat)

  datatype Outcome = Added(result: Result<seq<Trade>, AddError>) | Cancelled(found: bool)

  function Step(b: Book, c: Command): (Book, Outcome) {
    match c
    case AddLimit(id, side, price, quantity) =>
      var (b', r) := Add(b, id, side, price, quantity);
      (b', Added(r))
    case CancelOrder(id) =>
      var (b', found) := Cancel(b, id);
      (b', Cancelled(found))
  }

  function Run(b: Book, cs: seq<Command>): (Book, seq<Outcome>)
    decreases |cs|
  {
    if cs == [] then (b, [])
    else
      var (b1, o) := Step(b, cs[0]);
      var (b2, os) := Run(b1, cs[1..]);
      (b2, [o] + os)
  }

  lemma EmptyRun(b: Book)
    ensures Run(b, []) == (b, [])
  {
  }

  lemma {:induction false} RunAppend(b: Book, cs: seq<Command>, c: Command)
    ensures var (b1, os) := Run(b, cs);
            var (b2, o) := Step(b1, c);
            Run(b, cs + [c]) == (b2, os + [o])
    decreases |cs|
  {
    if cs == [] {
      var (b2, o) := Step(b, c);
      assert cs + [c] == [c] && [c][1..] == [];
      assert Run(b, [c]) == (b2, [o] + []);
      assert [] + [o] == [o] + [];
    } else {
      var (b1, o1) := Step(b, cs[0]);
      var (b2, os) := Run(b1, cs[1..]);
      RunAppend(b1, cs[1..], c);
      assert (cs + [c])[0] == cs[0] && (cs + [c])[1..] == cs[1..] + [c];
      assert [o1] + (os + [Step(b2, c).1]) == ([o1] + os) + [Step(b2, c).1];
    }
  }

  // Sums over a side and over a list of trades.

  function Total(orders: seq<Order>): int {
    if orders == [] then 0 else orders[0].quantity + Total(orders[1..])
  }

  function TotalAt(orders: seq<Order>, price: int): int {
    if orders == [] then 0
    else (if orders[0].price == price then orders[0].quantity else 0) + TotalAt(orders[1..], price)
  }

  function Traded(trades: seq<Trade>): int {
    if trades == [] then 0 else trades[0].quantity + Traded(trades[1..])
  }

  lemma {:induction false} TotalAppend(a: seq<Order>, b: seq<Order>)
    ensures Total(a + b) == Total(a) + Total(b)
  {
    if a == [] {
      assert a + b == b;
    } else {
      TotalAppend(a[1..], b);
      assert (a + b)[1..] == a[1..] + b;
    }
  }

  lemma {:induction false} TotalAtAppend(a: seq<Order>, b: seq<Order>, price: int)
    ensures TotalAt(a + b, price) == TotalAt(a, price) + TotalAt(b, price)
  {
    if a == [] {
      assert a + b == b;
    } else {
      TotalAtAppend(a[1..], b, price);
      assert (a + b)[1..] == a[1..] + b;
    }
  }
}
