/** What every reachable book satisfies: sorted sides, positive quantities, unique ids, never crossed. */
module BookInvariant {
  import opened Types
  import opened MatchingSpec

  ghost predicate Sorted(side: Side, orders: seq<Order>) {
    forall i, j :: 0 <= i < j < |orders| ==> Precedes(side, orders[i], orders[j])
  }

  ghost predicate Positive(orders: seq<Order>) {
    forall i :: 0 <= i < |orders| ==> orders[i].quantity > 0
  }

  ghost predicate Older(orders: seq<Order>, next: nat) {
    forall i :: 0 <= i < |orders| ==> orders[i].sequence < next
  }

  ghost predicate UniqueIds(orders: seq<Order>) {
    forall i, j :: 0 <= i < j < |orders| ==> orders[i].id != orders[j].id
  }

  ghost predicate SideOk(side: Side, orders: seq<Order>, next: nat) {
    Sorted(side, orders) && Positive(orders) && Older(orders, next) && UniqueIds(orders)
  }

  ghost predicate DisjointIds(xs: seq<Order>, ys: seq<Order>) {
    forall i, j :: 0 <= i < |xs| && 0 <= j < |ys| ==> xs[i].id != ys[j].id
  }

  /** The best bid is strictly below the best ask. */
  ghost predicate Uncrossed(b: Book) {
    b.bids != [] && b.asks != [] ==> b.bids[0].price < b.asks[0].price
  }

  ghost predicate BookOk(b: Book) {
    && SideOk(Buy, b.bids, b.nextSequence)
    && SideOk(Sell, b.asks, b.nextSequence)
    && DisjointIds(b.bids, b.asks)
    && Uncrossed(b)
  }

  /** The orders left by `Match` are a suffix of those given to it, the first perhaps reduced. */
  ghost predicate IsReducedSuffix(left: seq<Order>, orders: seq<Order>) {
    && |left| <= |orders|
    && (forall k {:trigger left[k]} :: 0 < k < |left| ==> left[k] == orders[|orders| - |left| + k])
    && (left != [] ==>
          var o := orders[|orders| - |left|];
          left[0] == o.(quantity := left[0].quantity) && 0 < left[0].quantity <= o.quantity)
  }

  lemma {:induction false} MatchLeavesSuffix(resting: seq<Order>, id: nat, side: Side, limit: int, quantity: int, sequence: nat)
    requires Positive(resting)
    ensures IsReducedSuffix(Match(resting, id, side, limit, quantity, sequence).resting, resting)
    decreases |resting|
  {
    if quantity <= 0 || resting == [] || !Crosses(side, limit, resting[0].price) {
    } else if quantity < resting[0].quantity {
      var left := Match(resting, id, side, limit, quantity, sequence).resting;
      assert left == [resting[0].(quantity := resting[0].quantity - quantity)] + resting[1..];
    } else {
      MatchLeavesSuffix(resting[1..], id, side, limit, quantity - resting[0].quantity, sequence + 1);
      SuffixOfTail(Match(resting[1..], id, side, limit, quantity - resting[0].quantity, sequence + 1).resting, resting);
    }
  }

  lemma SuffixOfTail(left: seq<Order>, orders: seq<Order>)
    requires orders != [] && IsReducedSuffix(left, orders[1..])
    ensures IsReducedSuffix(left, orders)
  {
    var tail := orders[1..];
    assert |tail| == |orders| - 1;
    forall k {:trigger left[k]} | 0 < k < |left| ensures left[k] == orders[|orders| - |left| + k] {
      assert left[k] == tail[|tail| - |left| + k];
    }
  }

  /** Matching never overfills, and stops only when filled or when nothing left is within the limit. */
  lemma {:induction false} MatchStopsWhenDone(resting: seq<Order>, id: nat, side: Side, limit: int, quantity: int, sequence: nat)
    requires quantity >= 0
    ensures var m := Match(resting, id, side, limit, quantity, sequence);
            && m.remaining >= 0
            && (m.remaining > 0 && m.resting != [] ==> !Crosses(side, limit, m.resting[0].price))
    decreases |resting|
  {
    if quantity <= 0 || resting == [] || !Crosses(side, limit, resting[0].price) {
    } else if quantity < resting[0].quantity {
    } else {
      MatchStopsWhenDone(resting[1..], id, side, limit, quantity - resting[0].quantity, sequence + 1);
    }
  }

  lemma SuffixKeepsSideOk(side: Side, left: seq<Order>, orders: seq<Order>, next: nat, later: nat)
    requires SideOk(side, orders, next) && IsReducedSuffix(left, orders) && next <= later
    ensures SideOk(side, left, later)
    ensures forall k :: 0 <= k < |left| ==> HasId(orders, left[k].id)
  {
    var d := |orders| - |left|;
    assert forall k {:trigger left[k]} :: 0 <= k < |left| ==>
      left[k].id == orders[d + k].id && left[k].price == orders[d + k].price && left[k].sequence == orders[d + k].sequence;
  }

  /** Where `Insert` puts the order: behind all at least as good, before all worse. */
  lemma {:induction false} InsertSplits(side: Side, orders: seq<Order>, order: Order) returns (k: nat)
    ensures k <= |orders|
    ensures Insert(side, orders, order) == orders[..k] + [order] + orders[k..]
    ensures forall i :: 0 <= i < k ==> !Better(side, order.price, orders[i].price)
    ensures k < |orders| ==> Better(side, order.price, orders[k].price)
    decreases |orders|
  {
    if orders == [] || Better(side, order.price, orders[0].price) {
      k := 0;
      assert orders[..k] + [order] + orders[k..] == [order] + orders;
    } else {
      k := InsertSplits(side, orders[1..], order);
      k := k + 1;
      assert orders[..k] == [orders[0]] + orders[1..][..k - 1];
    }
  }

  /** Every order of `a` goes before every order of `b`. */
  ghost predicate Before(side: Side, a: seq<Order>, b: seq<Order>) {
    && (forall i, j :: 0 <= i < |a| && 0 <= j < |b| ==> Precedes(side, a[i], b[j]))
    && DisjointIds(a, b)
  }

  lemma SideOkJoin(side: Side, a: seq<Order>, b: seq<Order>, next: nat)
    requires SideOk(side, a, next) && SideOk(side, b, next) && Before(side, a, b)
    ensures SideOk(side, a + b, next)
  {
    var s := a + b;
    forall i, j | 0 <= i < j < |s| ensures Precedes(side, s[i], s[j]) && s[i].id != s[j].id {
      if j < |a| {
        assert Precedes(side, a[i], a[j]) && a[i].id != a[j].id;
      } else if i < |a| {
        assert Precedes(side, a[i], b[j - |a|]) && a[i].id != b[j - |a|].id;
      } else {
        assert Precedes(side, b[i - |a|], b[j - |a|]) && b[i - |a|].id != b[j - |a|].id;
      }
    }
  }

  lemma SideOkPart(side: Side, s: seq<Order>, from: nat, to: nat, next: nat)
    requires SideOk(side, s, next) && from <= to <= |s|
    ensures SideOk(side, s[from..to], next)
  {
    var part := s[from..to];
    forall i, j | 0 <= i < j < |part| ensures Precedes(side, part[i], part[j]) && part[i].id != part[j].id {
      assert Precedes(side, s[from + i], s[from + j]) && s[from + i].id != s[from + j].id;
    }
  }

  lemma InsertedInOrder(side: Side, a: seq<Order>, order: Order, b: seq<Order>)
    requires SideOk(side, a + b, order.sequence) && order.quantity > 0 && !HasId(a + b, order.id)
    requires forall i :: 0 <= i < |a| ==> !Better(side, order.price, a[i].price)
    requires b != [] ==> Better(side, order.price, b[0].price)
    ensures SideOk(side, a + [order] + b, order.sequence + 1)
  {
    var s, next := a + b, order.sequence;
    SideOkPart(side, s, 0, |a|, next);
    SideOkPart(side, s, |a|, |s|, next);
    assert s[0..|a|] == a && s[|a|..|s|] == b;
    forall i | 0 <= i < |a| ensures Precedes(side, a[i], order) && a[i].id != order.id {
      assert a[i] == s[i];
    }
    SideOkJoin(side, a, [order], next + 1);
    forall j | 0 <= j < |b| ensures Precedes(side, order, b[j]) && order.id != b[j].id {
      assert b[j] == s[|a| + j];
      assert j > 0 ==> Precedes(side, b[0], b[j]);
    }
    forall i, j | 0 <= i < |a| && 0 <= j < |b| ensures Precedes(side, a[i], b[j]) && a[i].id != b[j].id {
      assert a[i] == s[i] && b[j] == s[|a| + j];
    }
    SideOkJoin(side, a + [order], b, next + 1);
  }

  lemma InsertKeepsSideOk(side: Side, orders: seq<Order>, order: Order)
    requires SideOk(side, orders, order.sequence) && order.quantity > 0 && !HasId(orders, order.id)
    ensures var r := Insert(side, orders, order);
            && SideOk(side, r, order.sequence + 1)
            && (r[0] == order || (orders != [] && r[0] == orders[0]))
  {
    var k := InsertSplits(side, orders, order);
    assert orders[..k] + orders[k..] == orders;
    InsertedInOrder(side, orders[..k], order, orders[k..]);
  }

  lemma InsertHolds(side: Side, orders: seq<Order>, order: Order)
    ensures forall x :: x in Insert(side, orders, order) <==> x == order || x in orders
  {
    var k := InsertSplits(side, orders, order);
    assert orders[..k] + orders[k..] == orders;
  }

  lemma {:induction false} RemoveSplits(orders: seq<Order>, id: nat) returns (k: nat)
    requires HasId(orders, id)
    ensures k < |orders| && orders[k].id == id
    ensures Remove(orders, id) == orders[..k] + orders[k + 1..]
    decreases |orders|
  {
    if orders[0].id == id {
      k := 0;
    } else {
      var j :| 0 <= j < |orders| && orders[j].id == id;
      assert orders[1..][j - 1].id == id;
      k := RemoveSplits(orders[1..], id);
      k := k + 1;
      assert orders[..k] == [orders[0]] + orders[1..][..k - 1];
    }
  }

  lemma {:induction false} RemoveAbsent(orders: seq<Order>, id: nat)
    requires !HasId(orders, id)
    ensures Remove(orders, id) == orders
    decreases |orders|
  {
    if orders != [] {
      assert orders[0].id != id;
      forall k | 0 <= k < |orders[1..]| ensures orders[1..][k].id != id {
        assert orders[1..][k] == orders[k + 1];
      }
      RemoveAbsent(orders[1..], id);
    }
  }

  lemma RemoveKeepsSideOk(side: Side, orders: seq<Order>, id: nat, next: nat)
    requires SideOk(side, orders, next)
    ensures SideOk(side, Remove(orders, id), next)
    ensures Remove(orders, id) != [] ==> !Better(side, Remove(orders, id)[0].price, orders[0].price)
  {
    if HasId(orders, id) {
      var k := RemoveSplits(orders, id);
      var a, b := orders[..k], orders[k + 1..];
      SideOkPart(side, orders, 0, k, next);
      SideOkPart(side, orders, k + 1, |orders|, next);
      assert a == orders[0..k] && b == orders[k + 1..|orders|];
      forall i, j | 0 <= i < |a| && 0 <= j < |b| ensures Precedes(side, a[i], b[j]) && a[i].id != b[j].id {
        assert a[i] == orders[i] && b[j] == orders[k + 1 + j];
      }
      SideOkJoin(side, a, b, next);
      assert k == 0 && b != [] ==> Precedes(side, orders[0], orders[1]);
    } else {
      RemoveAbsent(orders, id);
    }
  }

  lemma RemoveHolds(orders: seq<Order>, id: nat)
    requires UniqueIds(orders)
    ensures forall x :: x in Remove(orders, id) <==> x in orders && x.id != id
  {
    if HasId(orders, id) {
      var k := RemoveSplits(orders, id);
      assert orders == orders[..k] + [orders[k]] + orders[k + 1..];
      assert forall x :: x in orders[..k] ==> x.id != id;
      assert forall x :: x in orders[k + 1..] ==> x.id != id;
    } else {
      RemoveAbsent(orders, id);
    }
  }

  lemma DisjointMembers(xs: seq<Order>, ys: seq<Order>)
    ensures DisjointIds(xs, ys) <==> forall x, y :: x in xs && y in ys ==> x.id != y.id
  {
    if DisjointIds(xs, ys) {
      forall x, y | x in xs && y in ys ensures x.id != y.id {
        var i :| 0 <= i < |xs| && xs[i] == x;
        var j :| 0 <= j < |ys| && ys[j] == y;
      }
    }
  }

  /** Facts about the opposite side after matching: still sorted, no new ids, no better front. */
  lemma MatchedSide(b: Book, id: nat, side: Side, price: int, quantity: int) returns (m: Matched)
    requires BookOk(b) && quantity > 0
    ensures m == Match(b.Resting(side.Opposite()), id, side, price, quantity, b.nextSequence)
    ensures SideOk(side.Opposite(), m.resting, b.nextSequence)
    ensures forall k :: 0 <= k < |m.resting| ==> HasId(b.Resting(side.Opposite()), m.resting[k].id)
    ensures m.resting != [] ==>
              b.Resting(side.Opposite()) != [] &&
              !Better(side.Opposite(), m.resting[0].price, b.Resting(side.Opposite())[0].price)
    ensures m.remaining >= 0
    ensures m.remaining > 0 && m.resting != [] ==> !Crosses(side, price, m.resting[0].price)
  {
    var opp := side.Opposite();
    var resting := b.Resting(opp);
    m := Match(resting, id, side, price, quantity, b.nextSequence);
    MatchLeavesSuffix(resting, id, side, price, quantity, b.nextSequence);
    MatchStopsWhenDone(resting, id, side, price, quantity, b.nextSequence);
    SuffixKeepsSideOk(opp, m.resting, resting, b.nextSequence, b.nextSequence);
    if m.resting != [] && |m.resting| < |resting| {
      assert Precedes(opp, resting[0], resting[|resting| - |m.resting|]);
    }
  }

  lemma MatchingAddsNoId(b: Book, id: nat, side: Side, price: int, quantity: int)
    requires BookOk(b) && quantity > 0 && !b.Holds(id)
    ensures Positive(b.Resting(side.Opposite()))
    ensures !HasId(Match(b.Resting(side.Opposite()), id, side, price, quantity, b.nextSequence).resting, id)
  {
    var m := MatchedSide(b, id, side, price, quantity);
    forall k | 0 <= k < |m.resting| ensures m.resting[k].id != id {
      assert HasId(b.Resting(side.Opposite()), m.resting[k].id);
    }
  }

  /** One accepted or rejected order keeps the book well formed. */
  lemma AddKeepsBookOk(b: Book, id: nat, side: Side, price: int, quantity: int)
    requires BookOk(b)
    ensures BookOk(Add(b, id, side, price, quantity).0)
  {
    if quantity > 0 && !b.Holds(id) {
      var opp := side.Opposite();
      var m := MatchedSide(b, id, side, price, quantity);
      var own := b.Resting(side);
      var next := b.nextSequence + |m.trades|;
      assert DisjointIds(own, m.resting) by {
        forall i, k | 0 <= i < |own| && 0 <= k < |m.resting| ensures own[i].id != m.resting[k].id {
          assert HasId(b.Resting(opp), m.resting[k].id);
        }
      }
      assert Faces(side, own, m.resting);
      if m.remaining > 0 {
        assert !HasId(m.resting, id) by {
          forall k | 0 <= k < |m.resting| ensures m.resting[k].id != id {
            assert HasId(b.Resting(opp), m.resting[k].id);
          }
        }
        AddRemainderKeepsBookOk(b, id, side, price, m);
      }
    }
  }

  /** `Uncrossed`, seen from either side. */
  ghost predicate Faces(side: Side, own: seq<Order>, opposite: seq<Order>) {
    own != [] && opposite != [] ==> !Crosses(side, own[0].price, opposite[0].price)
  }

  lemma AddRemainderKeepsBookOk(b: Book, id: nat, side: Side, price: int, m: Matched)
    requires var own := b.Resting(side);
             && SideOk(side, own, b.nextSequence) && SideOk(side.Opposite(), m.resting, b.nextSequence)
             && !HasId(own, id) && !HasId(m.resting, id)
             && DisjointIds(own, m.resting) && Faces(side, own, m.resting)
    requires m.remaining > 0
    requires m.resting != [] ==> !Crosses(side, price, m.resting[0].price)
    ensures BookOk(Settle(b, id, side, price, m))
  {
    var own, next := b.Resting(side), b.nextSequence + |m.trades|;
    var order := Order(id, price, m.remaining, next);
    var own' := Insert(side, own, order);
    assert SideOk(side, own, next);
    InsertKeepsSideOk(side, own, order);
    InsertKeepsDisjoint(side, own, order, m.resting);
    BookOkFromSides(Settle(b, id, side, price, m), side, own', m.resting);
  }

  lemma InsertKeepsDisjoint(side: Side, own: seq<Order>, order: Order, other: seq<Order>)
    requires DisjointIds(own, other) && !HasId(other, order.id)
    ensures DisjointIds(Insert(side, own, order), other)
  {
    var own' := Insert(side, own, order);
    InsertHolds(side, own, order);
    forall i, k | 0 <= i < |own'| && 0 <= k < |other| ensures own'[i].id != other[k].id {
      assert own'[i] == order || own'[i] in own;
    }
  }

  lemma BookOkFromSides(b: Book, side: Side, own: seq<Order>, opposite: seq<Order>)
    requires b.Resting(side) == own && b.Resting(side.Opposite()) == opposite
    requires SideOk(side, own, b.nextSequence) && SideOk(side.Opposite(), opposite, b.nextSequence)
    requires DisjointIds(own, opposite) && Faces(side, own, opposite)
    ensures BookOk(b)
  {
  }

  lemma CancelKeepsBookOk(b: Book, id: nat)
    requires BookOk(b)
    ensures BookOk(Cancel(b, id).0)
  {
    var b' := Cancel(b, id).0;
    RemoveKeepsSideOk(Buy, b.bids, id, b.nextSequence);
    RemoveKeepsSideOk(Sell, b.asks, id, b.nextSequence);
    RemoveHolds(b.bids, id);
    RemoveHolds(b.asks, id);
    DisjointMembers(b.bids, b.asks);
    DisjointMembers(b'.bids, b'.asks);
  }

  lemma StepKeepsBookOk(b: Book, c: Command)
    requires BookOk(b)
    ensures BookOk(Step(b, c).0)
  {
    match c
    case AddLimit(id, side, price, quantity) => AddKeepsBookOk(b, id, side, price, quantity);
    case CancelOrder(id) => CancelKeepsBookOk(b, id);
  }

  /** In every state reachable from an empty book the sides are sorted and never crossed. */
  lemma {:induction false} RunKeepsBookOk(b: Book, cs: seq<Command>)
    requires BookOk(b)
    ensures BookOk(Run(b, cs).0)
    decreases |cs|
  {
    if cs != [] {
      StepKeepsBookOk(b, cs[0]);
      RunKeepsBookOk(Step(b, cs[0]).0, cs[1..]);
    }
  }

  /** If part of an order rests, nothing on the opposite side is within its limit any more. */
  lemma RestingRemainderFacesNoCrossingOrder(b: Book, id: nat, side: Side, price: int, quantity: int)
    requires BookOk(b) && quantity > 0 && !b.Holds(id)
    ensures var b' := Add(b, id, side, price, quantity).0;
            HasId(b'.Resting(side), id) ==>
              forall k :: 0 <= k < |b'.Resting(side.Opposite())| ==>
                !Crosses(side, price, b'.Resting(side.Opposite())[k].price)
  {
    var m := MatchedSide(b, id, side, price, quantity);
    var b' := Add(b, id, side, price, quantity).0;
    assert b'.Resting(side.Opposite()) == m.resting;
    if m.remaining > 0 {
      forall k | 0 <= k < |m.resting| ensures !Crosses(side, price, m.resting[k].price) {
        assert k > 0 ==> Precedes(side.Opposite(), m.resting[0], m.resting[k]);
      }
    } else {
      assert b'.Resting(side) == b.Resting(side);
    }
  }

  /** Cancelling removes exactly the order with that id and keeps all others in their order. */
  lemma CancelRemovesExactlyOne(b: Book, id: nat) returns (side: Side, k: nat)
    requires BookOk(b)
    ensures Cancel(b, id).1 == b.Holds(id)
    ensures !Cancel(b, id).0.Holds(id)
    ensures !b.Holds(id) ==> Cancel(b, id).0 == b
    ensures b.Holds(id) ==>
              var orders := b.Resting(side);
              k < |orders| && orders[k].id == id &&
              Cancel(b, id).0 == b.With(side, orders[..k] + orders[k + 1..])
  {
    side, k := if HasId(b.bids, id) then Buy else Sell, 0;
    RemoveHolds(b.bids, id);
    RemoveHolds(b.asks, id);
    if HasId(b.Resting(side), id) {
      k := RemoveSplits(b.Resting(side), id);
    } else {
      RemoveAbsent(b.Resting(side), id);
    }
    assert !HasId(b.Resting(side.Opposite()), id) by {
      DisjointMembers(b.bids, b.asks);
    }
    RemoveAbsent(b.Resting(side.Opposite()), id);
  }

  /** Cancelling undoes the resting of an order that traded nothing, up to the sequence counter. */
  lemma CancelUndoesRestingAdd(b: Book, id: nat, side: Side, price: int, quantity: int)
    requires quantity > 0 && !b.Holds(id)
    requires var opp := b.Resting(side.Opposite()); opp == [] || !Crosses(side, price, opp[0].price)
    ensures Cancel(Add(b, id, side, price, quantity).0, id) == (b.(nextSequence := b.nextSequence + 1), true)
  {
    var b' := Add(b, id, side, price, quantity).0;
    var order := Order(id, price, quantity, b.nextSequence);
    assert b' == b.With(side, Insert(side, b.Resting(side), order)).(nextSequence := b.nextSequence + 1);
    RemoveAfterInsert(side, b.Resting(side), order);
    RemoveAbsent(b.Resting(side.Opposite()), id);
  }

  lemma {:induction false} RemoveAfterInsert(side: Side, orders: seq<Order>, order: Order)
    requires !HasId(orders, order.id)
    ensures Remove(Insert(side, orders, order), order.id) == orders
    ensures HasId(Insert(side, orders, order), order.id)
    decreases |orders|
  {
    var r := Insert(side, orders, order);
    if orders == [] || Better(side, order.price, orders[0].price) {
      assert r[0].id == order.id;
      assert r[1..] == orders;
    } else {
      assert orders[0].id != order.id;
      forall k | 0 <= k < |orders[1..]| ensures orders[1..][k].id != order.id {
        assert orders[1..][k] == orders[k + 1];
      }
      RemoveAfterInsert(side, orders[1..], order);
      var rest := Insert(side, orders[1..], order);
      var j :| 0 <= j < |rest| && rest[j].id == order.id;
      assert r[1..] == rest && r[j + 1].id == order.id;
    }
  }
}
