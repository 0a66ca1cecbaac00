/** What the outcomes of a run are, and what can be told from the commands and their outcomes alone. */
module RunOutcomes {
  import opened Types
  import opened MatchingSpec
  import opened BookInvariant
  import opened Priority
  import opened Conservation
  import opened AddEffects

  // Outcomes, one by one.

  /** Outcome `i` is that of command `i` on the book that the commands before it lead to, and so is the next book. */
  lemma {:induction false} OutcomeAt(b: Book, cs: seq<Command>, i: nat)
    requires i < |cs|
    ensures |Run(b, cs).1| == |cs|
    ensures var before, after, o := Run(b, cs[..i]).0, Run(b, cs[..i + 1]).0, Run(b, cs).1[i];
            match cs[i]
            case AddLimit(id, side, price, quantity) =>
              after == Add(before, id, side, price, quantity).0 && o == Added(Add(before, id, side, price, quantity).1)
            case CancelOrder(id) =>
              after == Cancel(before, id).0 && o == Cancelled(before.Holds(id))
    decreases i
  {
    OutcomesMatchCommands(b, cs);
    var b1 := Step(b, cs[0]).0;
    assert cs[..i + 1][1..] == cs[1..][..i];
    if i == 0 {
      EmptyRun(b);
      EmptyRun(b1);
      assert cs[..0] == [] && cs[1..][..0] == [];
    } else {
      assert cs[..i][1..] == cs[1..][..i - 1];
      OutcomeAt(b1, cs[1..], i - 1);
    }
  }

  lemma {:induction false} OutcomesMatchCommands(b: Book, cs: seq<Command>)
    ensures |Run(b, cs).1| == |cs|
    decreases |cs|
  {
    if cs != [] {
      OutcomesMatchCommands(Step(b, cs[0]).0, cs[1..]);
    }
  }

  function TradesOf(o: Outcome): seq<Trade> {
    if o.Added? && o.result.Success? then o.result.value else []
  }

  /** Any two trades of a run are numbered in the order in which they were made. */
  lemma RunOrdersTrades(cs: seq<Command>, i: nat, j: nat, k: nat, l: nat)
    requires i <= j < |cs|
    requires var os := Run(EMPTY_BOOK, cs).1;
             |os| == |cs| && k < |TradesOf(os[i])| && l < |TradesOf(os[j])| && (i < j || k < l)
    ensures var os := Run(EMPTY_BOOK, cs).1; TradesOf(os[i])[k].sequence < TradesOf(os[j])[l].sequence
  {
    TradeNumbers(EMPTY_BOOK, cs, i, k);
    TradeNumbers(EMPTY_BOOK, cs, j, l);
    if i < j {
      CounterGrows(EMPTY_BOOK, cs, i + 1, j);
    }
  }

  /** Trade `k` of outcome `i` has the number that the counter was at, plus `k`. */
  lemma TradeNumbers(b: Book, cs: seq<Command>, i: nat, k: nat)
    requires BookOk(b) && i < |cs| && |Run(b, cs).1| == |cs| && k < |TradesOf(Run(b, cs).1[i])|
    ensures TradesOf(Run(b, cs).1[i])[k].sequence == Run(b, cs[..i]).0.nextSequence + k < Run(b, cs[..i + 1]).0.nextSequence
  {
    OutcomeAt(b, cs, i);
    RunKeepsBookOk(b, cs[..i]);
    var before, c := Run(b, cs[..i]).0, cs[i];
    RejectedOrderChangesNothing(before, c.id, c.side, c.price, c.quantity);
    TradesOfOrder(before, c.id, c.side, c.price, c.quantity);
    CounterAfterOrder(before, c.id, c.side, c.price, c.quantity);
  }

  lemma {:induction false} CounterGrows(b: Book, cs: seq<Command>, i: nat, j: nat)
    requires BookOk(b) && i <= j <= |cs|
    ensures Run(b, cs[..i]).0.nextSequence <= Run(b, cs[..j]).0.nextSequence
    decreases j
  {
    if i < j {
      CounterGrows(b, cs, i, j - 1);
      OutcomeAt(b, cs, j - 1);
      match cs[j - 1]
      case AddLimit(id, side, price, quantity) =>
        var before := Run(b, cs[..j - 1]).0;
        RejectedOrderChangesNothing(before, id, side, price, quantity);
        if quantity > 0 && !before.Holds(id) {
          CounterAfterOrder(before, id, side, price, quantity);
        }
      case CancelOrder(id) =>
    }
  }

  // Sums over commands and outcomes.

  function TradedIn(os: seq<Outcome>): int {
    if os == [] then 0 else Traded(TradesOf(os[0])) + TradedIn(os[1..])
  }

  function TradeCount(os: seq<Outcome>): nat {
    if os == [] then 0 else |TradesOf(os[0])| + TradeCount(os[1..])
  }

  predicate Accepted(c: Command, o: Outcome) {
    c.AddLimit? && o.Added? && o.result.Success?
  }

  /** The order was accepted and not filled when it came in. */
  predicate Rested(c: Command, o: Outcome) {
    Accepted(c, o) && Traded(TradesOf(o)) < c.quantity
  }

  function RestedCount(cs: seq<Command>, os: seq<Outcome>): nat
    requires |cs| == |os|
  {
    if cs == [] then 0 else (if Rested(cs[0], os[0]) then 1 else 0) + RestedCount(cs[1..], os[1..])
  }

  function AcceptedIn(cs: seq<Command>, os: seq<Outcome>, side: Side): int
    requires |cs| == |os|
  {
    if cs == [] then 0
    else (if Accepted(cs[0], os[0]) && cs[0].side == side then cs[0].quantity else 0) + AcceptedIn(cs[1..], os[1..], side)
  }

  /** Over a run the counter grows by exactly the number of trades and of orders that rested. */
  lemma {:induction false} RunCountsSequences(b: Book, cs: seq<Command>)
    ensures var (b', os) := Run(b, cs);
            |os| == |cs| && b'.nextSequence == b.nextSequence + TradeCount(os) + RestedCount(cs, os)
    decreases |cs|
  {
    if cs != [] {
      var (b1, o) := Step(b, cs[0]);
      var (b2, os) := Run(b1, cs[1..]);
      RunCountsSequences(b1, cs[1..]);
      StepCountsSequences(b, cs[0]);
      assert ([o] + os)[1..] == os;
    }
  }

  lemma StepCountsSequences(b: Book, c: Command)
    ensures var (b', o) := Step(b, c);
            b'.nextSequence == b.nextSequence + |TradesOf(o)| + if Rested(c, o) then 1 else 0
  {
    match c
    case AddLimit(id, side, price, quantity) =>
      RejectedOrderChangesNothing(b, id, side, price, quantity);
      if quantity > 0 && !b.Holds(id) {
        CounterAfterOrder(b, id, side, price, quantity);
      }
    case CancelOrder(id) =>
  }

  lemma OutcomeTellsEntry(b: Book, c: Command, side: Side)
    ensures var o, e := Step(b, c).1, Entry(b, c, side);
            e.traded == Traded(TradesOf(o)) && e.accepted == if Accepted(c, o) && c.side == side then c.quantity else 0
  {
  }

  /** The outcomes say what a run accepted and traded on each side. */
  lemma {:induction false} OutcomesTellLedger(b: Book, cs: seq<Command>, side: Side)
    ensures var os := Run(b, cs).1;
            && |os| == |cs|
            && Entries(b, cs, side).traded == TradedIn(os)
            && Entries(b, cs, side).accepted == AcceptedIn(cs, os, side)
    decreases |cs|
  {
    hide Step, Entry, Traded, Accepted;
    if cs != [] {
      var (b1, o) := Step(b, cs[0]);
      var (b2, os) := Run(b1, cs[1..]);
      OutcomeTellsEntry(b, cs[0], side);
      OutcomesTellLedger(b1, cs[1..], side);
      assert ([o] + os)[1..] == os;
    }
  }

  // What each order has left, told from the history alone.

  /** What the order `id` has resting after a command, from what it had before and the outcome. */
  function LeftAfter(left: int, c: Command, o: Outcome, id: nat): int {
    match c
    case AddLimit(newId, _, _, quantity) =>
      if !Accepted(c, o) then left
      else if newId == id then quantity - Traded(TradesOf(o))
      else left - FilledFrom(TradesOf(o), id)
    case CancelOrder(cancelled) =>
      if o == Cancelled(true) && cancelled == id then 0 else left
  }

  function Left(left: int, cs: seq<Command>, os: seq<Outcome>, id: nat): int
    requires |cs| == |os|
    decreases |cs|
  {
    if cs == [] then left else Left(LeftAfter(left, cs[0], os[0], id), cs[1..], os[1..], id)
  }

  /** What the order `id` has resting in a book. */
  function RestingIn(b: Book, id: nat): int {
    RestingOf(b.bids, id) + RestingOf(b.asks, id)
  }

  lemma {:induction false} RestingOfAppend(a: seq<Order>, b: seq<Order>, id: nat)
    ensures RestingOf(a + b, id) == RestingOf(a, id) + RestingOf(b, id)
    decreases |a|
  {
    if a == [] {
      assert a + b == b;
    } else {
      RestingOfAppend(a[1..], b, id);
      assert (a + b)[1..] == a[1..] + b;
    }
  }

  lemma RestingOfInserted(orders: seq<Order>, k: nat, order: Order, id: nat)
    requires k <= |orders|
    ensures RestingOf(orders[..k] + [order] + orders[k..], id)
         == RestingOf(orders, id) + if order.id == id then order.quantity else 0
  {
    assert orders == orders[..k] + orders[k..];
    RestingOfAppend(orders[..k] + [order], orders[k..], id);
    RestingOfAppend(orders[..k], [order], id);
    RestingOfAppend(orders[..k], orders[k..], id);
  }

  lemma RestingOfRemoved(orders: seq<Order>, cancelled: nat, id: nat)
    requires UniqueIds(orders)
    ensures RestingOf(Remove(orders, cancelled), id) == if cancelled == id then 0 else RestingOf(orders, id)
  {
    if HasId(orders, cancelled) {
      var k := RemoveSplits(orders, cancelled);
      assert orders == orders[..k] + [orders[k]] + orders[k + 1..];
      RestingOfAppend(orders[..k] + [orders[k]], orders[k + 1..], id);
      RestingOfAppend(orders[..k], [orders[k]], id);
      RestingOfAppend(orders[..k], orders[k + 1..], id);
      if cancelled == id {
        RemoveHolds(orders, cancelled);
        RestingOfAbsent(Remove(orders, cancelled), id);
      }
    } else {
      RemoveAbsent(orders, cancelled);
      if cancelled == id {
        RestingOfAbsent(orders, id);
      }
    }
  }

  lemma OwnSideMovesLeft(b: Book, newId: nat, side: Side, price: int, quantity: int, id: nat)
    requires quantity > 0 && !b.Holds(newId)
    ensures var (b', r) := Add(b, newId, side, price, quantity);
            && r.Success?
            && RestingOf(b'.Resting(side), id)
               == RestingOf(b.Resting(side), id) + if newId == id then quantity - Traded(r.value) else 0
  {
    var own, r := b.Resting(side), Add(b, newId, side, price, quantity).1;
    var k := RemainderOfOrder(b, newId, side, price, quantity);
    hide Add, RestingOf, Traded;
    RestingOfInserted(own, k, Order(newId, price, quantity - Traded(r.value), b.nextSequence + |r.value|), id);
  }

  lemma OppositeSideMovesLeft(b: Book, newId: nat, side: Side, price: int, quantity: int, id: nat)
    requires quantity > 0 && !b.Holds(newId)
    ensures var (b', r), opp := Add(b, newId, side, price, quantity), side.Opposite();
            && r.Success?
            && RestingOf(b'.Resting(opp), id) == RestingOf(b.Resting(opp), id) - FilledFrom(r.value, id)
  {
    hide Match, RestingOf, FilledFrom;
    MatchConservesEachOrder(b.Resting(side.Opposite()), newId, side, price, quantity, b.nextSequence, id);
  }

  /** A new order has nothing resting before, and does not trade with itself. */
  lemma NewOrderStartsFresh(b: Book, newId: nat, side: Side, price: int, quantity: int)
    requires BookOk(b) && quantity > 0 && !b.Holds(newId)
    ensures RestingIn(b, newId) == 0
    ensures var r := Add(b, newId, side, price, quantity).1; r.Success? && FilledFrom(r.value, newId) == 0
  {
    RestingOfAbsent(b.bids, newId);
    RestingOfAbsent(b.asks, newId);
    TradesOfOrder(b, newId, side, price, quantity);
    var r, opposite := Add(b, newId, side, price, quantity).1, b.Resting(side.Opposite());
    hide Add;
    assert forall k :: 0 <= k < |r.value| ==> r.value[k].restingId == opposite[k].id != newId;
    FilledFromNone(r.value, newId);
  }

  lemma AcceptedOrderMovesLeft(b: Book, newId: nat, side: Side, price: int, quantity: int, id: nat)
    requires BookOk(b) && quantity > 0 && !b.Holds(newId)
    ensures var (b', r) := Add(b, newId, side, price, quantity);
            r.Success? &&
            RestingIn(b', id) == if newId == id then quantity - Traded(r.value) else RestingIn(b, id) - FilledFrom(r.value, id)
  {
    hide Add, BookOk, RestingOf, FilledFrom, Traded;
    OwnSideMovesLeft(b, newId, side, price, quantity, id);
    OppositeSideMovesLeft(b, newId, side, price, quantity, id);
    if newId == id {
      NewOrderStartsFresh(b, newId, side, price, quantity);
    }
  }

  lemma StepMovesLeft(b: Book, c: Command, id: nat)
    requires BookOk(b)
    ensures var (b', o) := Step(b, c); RestingIn(b', id) == LeftAfter(RestingIn(b, id), c, o, id)
  {
    match c
    case AddLimit(newId, side, price, quantity) =>
      RejectedOrderChangesNothing(b, newId, side, price, quantity);
      if quantity > 0 && !b.Holds(newId) {
        AcceptedOrderMovesLeft(b, newId, side, price, quantity, id);
      }
    case CancelOrder(cancelled) =>
      RestingOfRemoved(b.bids, cancelled, id);
      RestingOfRemoved(b.asks, cancelled, id);
      if !b.Holds(cancelled) {
        RemoveAbsent(b.bids, cancelled);
        RemoveAbsent(b.asks, cancelled);
      }
  }

  /** The commands and their outcomes tell what every order has resting at the end. */
  lemma {:induction false} HistoryTellsBook(b: Book, cs: seq<Command>, id: nat)
    requires BookOk(b)
    ensures var (b', os) := Run(b, cs); |os| == |cs| && RestingIn(b', id) == Left(RestingIn(b, id), cs, os, id)
    decreases |cs|
  {
    if cs != [] {
      var (b1, o) := Step(b, cs[0]);
      var (b2, os) := Run(b1, cs[1..]);
      StepMovesLeft(b, cs[0], id);
      StepKeepsBookOk(b, cs[0]);
      HistoryTellsBook(b1, cs[1..], id);
      assert ([o] + os)[1..] == os;
    }
  }

  /** What the first `n` commands of a new book's history cancelled, told from the history before each cancel. */
  function CancelledIn(cs: seq<Command>, os: seq<Outcome>, n: nat): int
    requires |cs| == |os| && n <= |cs|
  {
    if n == 0 then 0
    else CancelledIn(cs, os, n - 1) +
         if cs[n - 1].CancelOrder? then Left(0, cs[..n - 1], os[..n - 1], cs[n - 1].id) else 0
  }

  lemma {:induction false} OutcomesOfPrefix(b: Book, cs: seq<Command>, n: nat)
    requires n <= |cs|
    ensures |Run(b, cs).1| == |cs| && Run(b, cs[..n]).1 == Run(b, cs).1[..n]
    decreases n
  {
    OutcomesMatchCommands(b, cs);
    if n == 0 {
      EmptyRun(b);
      assert cs[..0] == [];
    } else {
      OutcomesOfPrefix(Step(b, cs[0]).0, cs[1..], n - 1);
      assert cs[..n][1..] == cs[1..][..n - 1];
    }
  }

  lemma {:induction false} EntriesAppend(b: Book, cs: seq<Command>, c: Command, side: Side)
    ensures Entries(b, cs + [c], side) == Entries(b, cs, side).Plus(Entry(Run(b, cs).0, c, side))
    decreases |cs|
  {
    if cs == [] {
      assert cs + [c] == [c] && [c][1..] == [];
    } else {
      EntriesAppend(Step(b, cs[0]).0, cs[1..], c, side);
      assert (cs + [c])[1..] == cs[1..] + [c];
    }
  }

  lemma CancelTellsLeft(cs: seq<Command>, id: nat)
    ensures var (b, os) := Run(EMPTY_BOOK, cs);
            && |os| == |cs|
            && Entry(b, CancelOrder(id), Buy).cancelled + Entry(b, CancelOrder(id), Sell).cancelled == Left(0, cs, os, id)
  {
    HistoryTellsBook(EMPTY_BOOK, cs, id);
  }

  lemma {:induction false} HistoryTellsCancelled(cs: seq<Command>, n: nat)
    requires n <= |cs|
    ensures var os := Run(EMPTY_BOOK, cs).1;
            && |os| == |cs|
            && Entries(EMPTY_BOOK, cs[..n], Buy).cancelled + Entries(EMPTY_BOOK, cs[..n], Sell).cancelled == CancelledIn(cs, os, n)
    decreases n
  {
    OutcomesMatchCommands(EMPTY_BOOK, cs);
    hide Run, Left;
    if n > 0 {
      var before, c := cs[..n - 1], cs[n - 1];
      HistoryTellsCancelled(cs, n - 1);
      assert cs[..n] == before + [c];
      EntriesAppend(EMPTY_BOOK, before, c, Buy);
      EntriesAppend(EMPTY_BOOK, before, c, Sell);
      OutcomesOfPrefix(EMPTY_BOOK, cs, n - 1);
      if c.CancelOrder? {
        CancelTellsLeft(before, c.id);
      }
    }
  }

  /**
   Conservation told from the commands and their outcomes alone: what was accepted rests, was
   cancelled, or is in a trade, which holds a bought and a sold lot.
   */
  lemma HistoryConservesQuantity(cs: seq<Command>)
    ensures var (b, os) := Run(EMPTY_BOOK, cs);
            && |os| == |cs|
            && AcceptedIn(cs, os, Buy) + AcceptedIn(cs, os, Sell)
               == Total(b.bids) + Total(b.asks) + CancelledIn(cs, os, |cs|) + 2 * TradedIn(os)
  {
    RunConservesQuantity(cs);
    OutcomesTellLedger(EMPTY_BOOK, cs, Buy);
    OutcomesTellLedger(EMPTY_BOOK, cs, Sell);
    HistoryTellsCancelled(cs, |cs|);
    assert cs[..|cs|] == cs;
  }
}
