/** No quantity is created or lost: by a match, by an order, and over a whole run. */
module Conservation {
  import opened Types
  import opened MatchingSpec
  import opened BookInvariant
  import opened Priority

  /** What the order with this id has resting (ids are unique on a side). */
  function RestingOf(orders: seq<Order>, id: nat): int {
    if orders == [] then 0
    else (if orders[0].id == id then orders[0].quantity else 0) + RestingOf(orders[1..], id)
  }

  lemma {:induction false} MatchConservesQuantity(resting: seq<Order>, id: nat, side: Side, limit: int, quantity: int, sequence: nat)
    ensures var m := Match(resting, id, side, limit, quantity, sequence);
            && Traded(m.trades) + m.remaining == quantity
            && Total(m.resting) + Traded(m.trades) == Total(resting)
    decreases |resting|
  {
    if quantity > 0 && resting != [] && Crosses(side, limit, resting[0].price) {
      if quantity < resting[0].quantity {
        assert Match(resting, id, side, limit, quantity, sequence).resting[1..] == resting[1..];
      } else {
        MatchConservesQuantity(resting[1..], id, side, limit, quantity - resting[0].quantity, sequence + 1);
      }
    }
  }

  /** Each resting order loses exactly what it traded, and no other order changes. */
  lemma {:induction false} MatchConservesEachOrder(resting: seq<Order>, id: nat, side: Side, limit: int, quantity: int, sequence: nat, restingId: nat)
    ensures var m := Match(resting, id, side, limit, quantity, sequence);
            RestingOf(m.resting, restingId) == RestingOf(resting, restingId) - FilledFrom(m.trades, restingId)
    decreases |resting|
  {
    if quantity > 0 && resting != [] && Crosses(side, limit, resting[0].price) {
      if quantity < resting[0].quantity {
        assert Match(resting, id, side, limit, quantity, sequence).resting[1..] == resting[1..];
      } else {
        MatchConservesEachOrder(resting[1..], id, side, limit, quantity - resting[0].quantity, sequence + 1, restingId);
      }
    }
  }

  /** The two sides of an exchange's books over a run. */
  datatype Ledger = Ledger(accepted: int, cancelled: int, traded: int) {
    function Plus(l: Ledger): Ledger {
      Ledger(accepted + l.accepted, cancelled + l.cancelled, traded + l.traded)
    }
  }

  /** What one command enters, withdraws and trades on `side`; a trade counts on both sides. */
  function Entry(b: Book, c: Command, side: Side): Ledger {
    match c
    case AddLimit(id, s, price, quantity) =>
      var r := Add(b, id, s, price, quantity).1;
      if r.Success? then Ledger(if s == side then quantity else 0, 0, Traded(r.value)) else Ledger(0, 0, 0)
    case CancelOrder(id) =>
      Ledger(0, RestingOf(b.Resting(side), id), 0)
  }

  function Entries(b: Book, cs: seq<Command>, side: Side): Ledger
    decreases |cs|
  {
    if cs == [] then Ledger(0, 0, 0) else Entry(b, cs[0], side).Plus(Entries(Step(b, cs[0]).0, cs[1..], side))
  }

  lemma TotalOfInsert(side: Side, orders: seq<Order>, order: Order)
    ensures Total(Insert(side, orders, order)) == Total(orders) + order.quantity
  {
    var k := InsertSplits(side, orders, order);
    assert orders == orders[..k] + orders[k..];
    TotalAppend(orders[..k], orders[k..]);
    TotalAppend(orders[..k] + [order], orders[k..]);
    TotalAppend(orders[..k], [order]);
  }

  lemma {:induction false} RestingOfAbsent(orders: seq<Order>, id: nat)
    requires !HasId(orders, id)
    ensures RestingOf(orders, id) == 0
    decreases |orders|
  {
    if orders != [] {
      assert orders[0].id != id;
      assert forall k :: 0 <= k < |orders[1..]| ==> orders[1..][k] == orders[k + 1];
      RestingOfAbsent(orders[1..], id);
    }
  }

  lemma {:induction false} TotalOfRemove(orders: seq<Order>, id: nat)
    requires UniqueIds(orders)
    ensures Total(Remove(orders, id)) == Total(orders) - RestingOf(orders, id)
    decreases |orders|
  {
    if orders != [] {
      if orders[0].id == id {
        RestingOfAbsent(orders[1..], id);
      } else {
        TotalOfRemove(orders[1..], id);
        assert Remove(orders, id)[1..] == Remove(orders[1..], id);
      }
    }
  }

  lemma StepConserves(b: Book, c: Command, side: Side)
    requires BookOk(b)
    ensures var e := Entry(b, c, side);
            Total(Step(b, c).0.Resting(side)) == Total(b.Resting(side)) + e.accepted - e.cancelled - e.traded
  {
    match c
    case AddLimit(id, s, price, quantity) =>
      if quantity > 0 && !b.Holds(id) {
        var m := Match(b.Resting(s.Opposite()), id, s, price, quantity, b.nextSequence);
        MatchConservesQuantity(b.Resting(s.Opposite()), id, s, price, quantity, b.nextSequence);
        MatchStopsWhenDone(b.Resting(s.Opposite()), id, s, price, quantity, b.nextSequence);
        TotalOfInsert(s, b.Resting(s), Order(id, price, m.remaining, b.nextSequence + |m.trades|));
      }
    case CancelOrder(id) =>
      TotalOfRemove(b.Resting(side), id);
  }

  /** Per side: what rests at the end is what rested, plus accepted, less cancelled, less traded. */
  lemma {:induction false} RunConservesSide(b: Book, cs: seq<Command>, side: Side)
    requires BookOk(b)
    ensures var l := Entries(b, cs, side);
            Total(Run(b, cs).0.Resting(side)) == Total(b.Resting(side)) + l.accepted - l.cancelled - l.traded
    decreases |cs|
  {
    if cs != [] {
      StepConserves(b, cs[0], side);
      StepKeepsBookOk(b, cs[0]);
      RunConservesSide(Step(b, cs[0]).0, cs[1..], side);
    }
  }

  lemma {:induction false} BothSidesTradeAlike(b: Book, cs: seq<Command>)
    ensures Entries(b, cs, Buy).traded == Entries(b, cs, Sell).traded
    decreases |cs|
  {
    if cs != [] {
      BothSidesTradeAlike(Step(b, cs[0]).0, cs[1..]);
    }
  }

  /** From an empty book, every accepted lot rests, was cancelled, or is in a trade, which holds two. */
  lemma RunConservesQuantity(cs: seq<Command>)
    ensures var buys, sells := Entries(EMPTY_BOOK, cs, Buy), Entries(EMPTY_BOOK, cs, Sell);
            var b := Run(EMPTY_BOOK, cs).0;
            buys.accepted + sells.accepted
            == Total(b.bids) + Total(b.asks) + buys.cancelled + sells.cancelled + 2 * buys.traded
  {
    RunConservesSide(EMPTY_BOOK, cs, Buy);
    RunConservesSide(EMPTY_BOOK, cs, Sell);
    BothSidesTradeAlike(EMPTY_BOOK, cs);
  }

  /** The sequence numbers of a run's trades, in the order they were made. */
  function TradeSequences(os: seq<Outcome>): seq<nat> {
    if os == [] then []
    else (if os[0].Added? && os[0].result.Success? then Sequences(os[0].result.value) else []) + TradeSequences(os[1..])
  }

  function Sequences(trades: seq<Trade>): seq<nat> {
    seq(|trades|, k requires 0 <= k < |trades| => trades[k].sequence)
  }

  ghost predicate StrictlyIncreasing(s: seq<nat>, from: nat, to: nat) {
    && (forall k :: 0 <= k < |s| ==> from <= s[k] < to)
    && forall i, j :: 0 <= i < j < |s| ==> s[i] < s[j]
  }

  lemma StepNumbersTrades(b: Book, c: Command)
    requires BookOk(b)
    ensures var (b', o) := Step(b, c);
            b.nextSequence <= b'.nextSequence && StrictlyIncreasing(TradeSequences([o]), b.nextSequence, b'.nextSequence)
  {
    var (b', o) := Step(b, c);
    assert TradeSequences([o][1..]) == [];
    match c
    case AddLimit(id, s, price, quantity) =>
      if quantity > 0 && !b.Holds(id) {
        var trades := Match(b.Resting(s.Opposite()), id, s, price, quantity, b.nextSequence).trades;
        TradesFollowRanks(b.Resting(s.Opposite()), id, s, price, quantity, b.nextSequence);
        assert TradeSequences([o]) == Sequences(trades);
        assert forall k :: 0 <= k < |trades| ==> Sequences(trades)[k] == b.nextSequence + k;
      }
    case CancelOrder(id) =>
  }

  /** Trades over a whole run are numbered in the order they happen, with no number used twice. */
  lemma {:induction false} RunNumbersTrades(b: Book, cs: seq<Command>)
    requires BookOk(b)
    ensures var (b', os) := Run(b, cs);
            b.nextSequence <= b'.nextSequence && StrictlyIncreasing(TradeSequences(os), b.nextSequence, b'.nextSequence)
    decreases |cs|
  {
    if cs != [] {
      var (b1, o) := Step(b, cs[0]);
      var (b2, os) := Run(b1, cs[1..]);
      StepNumbersTrades(b, cs[0]);
      StepKeepsBookOk(b, cs[0]);
      RunNumbersTrades(b1, cs[1..]);
      var first, rest := TradeSequences([o]), TradeSequences(os);
      assert ([o] + os)[1..] == os && [o][1..] == [];
      assert TradeSequences([o]) == (if o.Added? && o.result.Success? then Sequences(o.result.value) else []);
      assert TradeSequences([o] + os) == first + rest;
    }
  }
}
