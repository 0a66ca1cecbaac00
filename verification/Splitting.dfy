/** Submitting an order in two parts trades the same, and leaves the same, as submitting it whole. */
module Splitting {
  import opened Types
  import opened MatchingSpec
  import opened BookInvariant
  import opened Priority
  import opened Conservation

  /** What a trade does to the resting order it is with. */
  datatype Fill = Fill(restingId: nat, price: int, quantity: int)

  function Fills(trades: seq<Trade>): seq<Fill> {
    if trades == [] then []
    else [Fill(trades[0].restingId, trades[0].price, trades[0].quantity)] + Fills(trades[1..])
  }

  /** Two lists of fills in a row; a resting order that ends one and starts the other has one fill. */
  function Join(a: seq<Fill>, b: seq<Fill>): seq<Fill> {
    if a != [] && b != [] && a[|a| - 1].restingId == b[0].restingId then
      a[..|a| - 1] + [b[0].(quantity := a[|a| - 1].quantity + b[0].quantity)] + b[1..]
    else
      a + b
  }

  /** One fill for each trade, in order. */
  lemma {:induction false} FillsOfTrades(trades: seq<Trade>)
    ensures |Fills(trades)| == |trades|
    ensures forall k :: 0 <= k < |trades| ==> Fills(trades)[k] == Fill(trades[k].restingId, trades[k].price, trades[k].quantity)
    decreases |trades|
  {
    if trades != [] {
      FillsOfTrades(trades[1..]);
    }
  }

  lemma JoinTail(x: Fill, a: seq<Fill>, b: seq<Fill>)
    requires a != []
    ensures Join([x] + a, b) == [x] + Join(a, b)
  {
    var xa := [x] + a;
    assert xa[|xa| - 1] == a[|a| - 1];
    assert xa[..|xa| - 1] == [x] + a[..|a| - 1];
    if b != [] && a[|a| - 1].restingId == b[0].restingId {
      var joined := [b[0].(quantity := a[|a| - 1].quantity + b[0].quantity)];
      assert ([x] + a[..|a| - 1]) + joined + b[1..] == [x] + (a[..|a| - 1] + joined + b[1..]);
    } else {
      assert xa + b == [x] + (a + b);
    }
  }

  lemma JoinFromFirst(x: Fill, a: seq<Fill>, b: seq<Fill>)
    requires a == [] && b != [] ==> b[0].restingId != x.restingId
    ensures Join([x] + a, b) == [x] + Join(a, b)
  {
    if a == [] {
      assert [x] + a == [x];
    } else {
      JoinTail(x, a, b);
    }
  }

  lemma UniqueTail(orders: seq<Order>)
    requires UniqueIds(orders) && orders != []
    ensures UniqueIds(orders[1..]) && !HasId(orders[1..], orders[0].id)
  {
  }

  lemma FirstFillIsResting(resting: seq<Order>, id: nat, side: Side, limit: int, quantity: int, sequence: nat)
    ensures var fills := Fills(Match(resting, id, side, limit, quantity, sequence).trades);
            fills != [] ==> resting != [] && fills[0].restingId == resting[0].id
  {
  }

  /** Fills and what is left depend neither on the incoming order's id nor on the numbering. */
  lemma {:induction false} FillsIgnoreNumbering(resting: seq<Order>, id: nat, id': nat, side: Side, limit: int, quantity: int, sequence: nat, sequence': nat)
    ensures var m, m' := Match(resting, id, side, limit, quantity, sequence), Match(resting, id', side, limit, quantity, sequence');
            m.resting == m'.resting && m.remaining == m'.remaining && Fills(m.trades) == Fills(m'.trades) && |m.trades| == |m'.trades|
    decreases |resting|
  {
    if quantity > 0 && resting != [] && Crosses(side, limit, resting[0].price) && quantity >= resting[0].quantity {
      FillsIgnoreNumbering(resting[1..], id, id', side, limit, quantity - resting[0].quantity, sequence + 1, sequence' + 1);
    }
  }

  /** `m` does to a side what `m1` and then `m2` do to it. */
  ghost predicate IsSplit(m: Matched, m1: Matched, m2: Matched) {
    && m.resting == m2.resting && m.remaining == m1.remaining + m2.remaining
    && Fills(m.trades) == Join(Fills(m1.trades), Fills(m2.trades))
  }

  /** Matching q1 and then q2 against what q1 left is matching q1 + q2. */
  lemma {:induction false} MatchSplits(resting: seq<Order>, id: nat, side: Side, limit: int, q1: int, q2: int, sequence: nat)
    requires Positive(resting) && UniqueIds(resting) && q1 > 0 && q2 > 0
    ensures var m1 := Match(resting, id, side, limit, q1, sequence);
            IsSplit(Match(resting, id, side, limit, q1 + q2, sequence), m1, Match(m1.resting, id, side, limit, q2, sequence))
    decreases |resting|
  {
    if resting != [] && Crosses(side, limit, resting[0].price) {
      UniqueTail(resting);
      if q1 < resting[0].quantity {
        SplitWithinFirst(resting, id, side, limit, q1, q2, sequence);
      } else if q1 == resting[0].quantity {
        SplitAfterFirst(resting, id, side, limit, q2, sequence);
      } else {
        MatchSplits(resting[1..], id, side, limit, q1 - resting[0].quantity, q2, sequence + 1);
        SplitBeyondFirst(resting, id, side, limit, q1, q2, sequence);
      }
    }
  }

  /** One unfolding of `Match` when the first order is used up. */
  lemma MatchUsesUpFirst(resting: seq<Order>, id: nat, side: Side, limit: int, quantity: int, sequence: nat)
    requires resting != [] && Crosses(side, limit, resting[0].price) && quantity > 0 && quantity >= resting[0].quantity
    ensures var m := Match(resting, id, side, limit, quantity, sequence);
            var rest := Match(resting[1..], id, side, limit, quantity - resting[0].quantity, sequence + 1);
            && m.resting == rest.resting && m.remaining == rest.remaining
            && Fills(m.trades) == [Fill(resting[0].id, resting[0].price, resting[0].quantity)] + Fills(rest.trades)
  {
    var m := Match(resting, id, side, limit, quantity, sequence);
    var rest := Match(resting[1..], id, side, limit, quantity - resting[0].quantity, sequence + 1);
    assert m.trades[1..] == rest.trades;
  }

  lemma SplitAfterFirst(resting: seq<Order>, id: nat, side: Side, limit: int, q2: int, sequence: nat)
    requires resting != [] && resting[0].quantity > 0 && q2 > 0 && !HasId(resting[1..], resting[0].id)
    requires Crosses(side, limit, resting[0].price)
    ensures var q1 := resting[0].quantity;
            var m1 := Match(resting, id, side, limit, q1, sequence);
            IsSplit(Match(resting, id, side, limit, q1 + q2, sequence), m1, Match(m1.resting, id, side, limit, q2, sequence))
  {
    var q1, tail := resting[0].quantity, resting[1..];
    MatchUsesUpFirst(resting, id, side, limit, q1, sequence);
    MatchUsesUpFirst(resting, id, side, limit, q1 + q2, sequence);
    FillsIgnoreNumbering(tail, id, id, side, limit, q2, sequence, sequence + 1);
    FirstFillIsResting(tail, id, side, limit, q2, sequence);
    assert tail != [] ==> tail[0].id != resting[0].id;
  }

  /** The first fill of the second part is not with the order that ended the first. */
  lemma SecondPartStartsLater(resting: seq<Order>, first: Order, id: nat, side: Side, limit: int, q1: int, q2: int, sequence: nat)
    requires !HasId(resting, first.id)
    ensures var m1 := Match(resting, id, side, limit, q1, sequence);
            var f2 := Fills(Match(m1.resting, id, side, limit, q2, sequence).trades);
            Fills(m1.trades) == [] && f2 != [] ==> f2[0].restingId != first.id
  {
    if Fills(Match(resting, id, side, limit, q1, sequence).trades) == [] {
      NoFillsMeansUntouched(resting, id, side, limit, q1, sequence);
      FirstFillIsResting(resting, id, side, limit, q2, sequence);
      assert resting != [] ==> resting[0].id != first.id;
    }
  }

  lemma SplitBeyondFirst(resting: seq<Order>, id: nat, side: Side, limit: int, q1: int, q2: int, sequence: nat)
    requires resting != [] && !HasId(resting[1..], resting[0].id) && Crosses(side, limit, resting[0].price)
    requires 0 < resting[0].quantity < q1 && q2 > 0
    requires var q := q1 - resting[0].quantity;
             var m1 := Match(resting[1..], id, side, limit, q, sequence + 1);
             IsSplit(Match(resting[1..], id, side, limit, q + q2, sequence + 1), m1, Match(m1.resting, id, side, limit, q2, sequence + 1))
    ensures var m1 := Match(resting, id, side, limit, q1, sequence);
            IsSplit(Match(resting, id, side, limit, q1 + q2, sequence), m1, Match(m1.resting, id, side, limit, q2, sequence))
  {
    hide Match, Fills, Join, HasId;
    var tail, q := resting[1..], q1 - resting[0].quantity;
    var rest := Match(tail, id, side, limit, q, sequence + 1);
    var x := Fill(resting[0].id, resting[0].price, resting[0].quantity);
    MatchUsesUpFirst(resting, id, side, limit, q1, sequence);
    MatchUsesUpFirst(resting, id, side, limit, q1 + q2, sequence);
    FillsIgnoreNumbering(rest.resting, id, id, side, limit, q2, sequence, sequence + 1);
    SecondPartStartsLater(tail, resting[0], id, side, limit, q, q2, sequence + 1);
    JoinFromFirst(x, Fills(rest.trades), Fills(Match(rest.resting, id, side, limit, q2, sequence + 1).trades));
  }

  lemma NoFillsMeansUntouched(resting: seq<Order>, id: nat, side: Side, limit: int, quantity: int, sequence: nat)
    requires Fills(Match(resting, id, side, limit, quantity, sequence).trades) == []
    ensures Match(resting, id, side, limit, quantity, sequence).resting == resting
  {
  }

  lemma SplitWithinFirst(resting: seq<Order>, id: nat, side: Side, limit: int, q1: int, q2: int, sequence: nat)
    requires Positive(resting) && resting != [] && Crosses(side, limit, resting[0].price)
    requires 0 < q1 < resting[0].quantity && q2 > 0
    ensures var m1 := Match(resting, id, side, limit, q1, sequence);
            IsSplit(Match(resting, id, side, limit, q1 + q2, sequence), m1, Match(m1.resting, id, side, limit, q2, sequence))
  {
    var best := resting[0];
    var m1 := Match(resting, id, side, limit, q1, sequence);
    assert m1.resting[0] == best.(quantity := best.quantity - q1) && m1.resting[1..] == resting[1..];
    assert Fills(m1.trades) == [Fill(best.id, best.price, q1)];
  }

  lemma TotalAtOfInsert(side: Side, orders: seq<Order>, order: Order, price: int)
    ensures TotalAt(Insert(side, orders, order), price)
         == TotalAt(orders, price) + if order.price == price then order.quantity else 0
  {
    var k := InsertSplits(side, orders, order);
    assert orders == orders[..k] + orders[k..];
    TotalAtAppend(orders[..k], orders[k..], price);
    TotalAtAppend(orders[..k] + [order], orders[k..], price);
    TotalAtAppend(orders[..k], [order], price);
  }

  lemma OwnTotalAfterAdd(b: Book, id: nat, side: Side, limit: int, quantity: int, price: int)
    requires quantity > 0 && !b.Holds(id)
    ensures TotalAt(Add(b, id, side, limit, quantity).0.Resting(side), price)
         == TotalAt(b.Resting(side), price)
            + if limit == price then Match(b.Resting(side.Opposite()), id, side, limit, quantity, b.nextSequence).remaining else 0
  {
    var m := Match(b.Resting(side.Opposite()), id, side, limit, quantity, b.nextSequence);
    MatchStopsWhenDone(b.Resting(side.Opposite()), id, side, limit, quantity, b.nextSequence);
    if m.remaining > 0 {
      TotalAtOfInsert(side, b.Resting(side), Order(id, limit, m.remaining, b.nextSequence + |m.trades|), price);
    }
  }

  /**
   An order of q1 followed by one of q2 at the same side and limit, against one order of q1 + q2:
   same opposite side, same fills of the same resting orders in the same order, and the same total
   resting at every price of their own side.
   */
  lemma SplittingAnOrderChangesNothing(b: Book, id1: nat, id2: nat, id: nat, side: Side, limit: int, q1: int, q2: int)
    requires BookOk(b) && q1 > 0 && q2 > 0
    requires !b.Holds(id1) && !b.Holds(id2) && !b.Holds(id) && id1 != id2
    ensures var (b1, r1) := Add(b, id1, side, limit, q1);
            var (b2, r2) := Add(b1, id2, side, limit, q2);
            var (b', r) := Add(b, id, side, limit, q1 + q2);
            && r1.Success? && r2.Success? && r.Success?
            && b'.Resting(side.Opposite()) == b2.Resting(side.Opposite())
            && Fills(r.value) == Join(Fills(r1.value), Fills(r2.value))
            && forall price :: TotalAt(b'.Resting(side), price) == TotalAt(b2.Resting(side), price)
  {
    var opp, next := side.Opposite(), b.nextSequence;
    var b1 := Add(b, id1, side, limit, q1).0;
    var m1 := MatchedSide(b, id1, side, limit, q1);
    SecondIdIsFree(b, id1, id2, side, limit, q1, m1);
    assert b1.Resting(opp) == m1.resting;
    FillsIgnoreNumbering(b.Resting(opp), id1, id, side, limit, q1, next, next);
    FillsIgnoreNumbering(m1.resting, id2, id, side, limit, q2, b1.nextSequence, next);
    MatchSplits(b.Resting(opp), id, side, limit, q1, q2, next);
    forall price
      ensures TotalAt(Add(b, id, side, limit, q1 + q2).0.Resting(side), price)
           == TotalAt(Add(b1, id2, side, limit, q2).0.Resting(side), price)
    {
      SplitKeepsOwnTotal(b, id1, id2, id, side, limit, q1, q2, price);
    }
  }

  /** In particular, every resting order gets the same quantity in all. */
  lemma SplittingKeepsEachFill(b: Book, id1: nat, id2: nat, id: nat, side: Side, limit: int, q1: int, q2: int, restingId: nat)
    requires BookOk(b) && q1 > 0 && q2 > 0
    requires !b.Holds(id1) && !b.Holds(id2) && !b.Holds(id) && id1 != id2
    ensures var (b1, r1) := Add(b, id1, side, limit, q1);
            var r2, r := Add(b1, id2, side, limit, q2).1, Add(b, id, side, limit, q1 + q2).1;
            && r1.Success? && r2.Success? && r.Success?
            && FilledFrom(r.value, restingId) == FilledFrom(r1.value, restingId) + FilledFrom(r2.value, restingId)
  {
    SplittingAnOrderChangesNothing(b, id1, id2, id, side, limit, q1, q2);
    var opp, b1 := side.Opposite(), Add(b, id1, side, limit, q1).0;
    MatchConservesEachOrder(b.Resting(opp), id1, side, limit, q1, b.nextSequence, restingId);
    MatchConservesEachOrder(b1.Resting(opp), id2, side, limit, q2, b1.nextSequence, restingId);
    MatchConservesEachOrder(b.Resting(opp), id, side, limit, q1 + q2, b.nextSequence, restingId);
  }

  lemma SplitKeepsOwnTotal(b: Book, id1: nat, id2: nat, id: nat, side: Side, limit: int, q1: int, q2: int, price: int)
    requires q1 > 0 && q2 > 0
    requires !b.Holds(id1) && !Add(b, id1, side, limit, q1).0.Holds(id2) && !b.Holds(id)
    requires var b1 := Add(b, id1, side, limit, q1).0;
             var opp := b.Resting(side.Opposite());
             Match(opp, id, side, limit, q1 + q2, b.nextSequence).remaining
             == Match(opp, id1, side, limit, q1, b.nextSequence).remaining
                + Match(b1.Resting(side.Opposite()), id2, side, limit, q2, b1.nextSequence).remaining
    ensures TotalAt(Add(b, id, side, limit, q1 + q2).0.Resting(side), price)
         == TotalAt(Add(Add(b, id1, side, limit, q1).0, id2, side, limit, q2).0.Resting(side), price)
  {
    OwnTotalAfterAdd(b, id1, side, limit, q1, price);
    OwnTotalAfterAdd(Add(b, id1, side, limit, q1).0, id2, side, limit, q2, price);
    OwnTotalAfterAdd(b, id, side, limit, q1 + q2, price);
  }

  lemma SecondIdIsFree(b: Book, id1: nat, id2: nat, side: Side, limit: int, q1: int, m1: Matched)
    requires !b.Holds(id1) && !b.Holds(id2) && id1 != id2 && q1 > 0
    requires m1 == Match(b.Resting(side.Opposite()), id1, side, limit, q1, b.nextSequence)
    requires forall k :: 0 <= k < |m1.resting| ==> HasId(b.Resting(side.Opposite()), m1.resting[k].id)
    ensures !Add(b, id1, side, limit, q1).0.Holds(id2)
  {
    var b1 := Add(b, id1, side, limit, q1).0;
    var own, own' := b.Resting(side), b1.Resting(side);
    assert b1.Resting(side.Opposite()) == m1.resting;
    if m1.remaining > 0 {
      var order := Order(id1, limit, m1.remaining, b.nextSequence + |m1.trades|);
      InsertHolds(side, own, order);
      forall k | 0 <= k < |own'| ensures own'[k].id != id2 {
        assert own'[k] == order || own'[k] in own;
      }
    } else {
      assert own' == own;
    }
    assert !HasId(own', id2);
    assert !HasId(m1.resting, id2);
  }
}
