/** What one submitted order does, said about the book, the trades and the error that it gets back. */
module AddEffects {
  import opened Types
  import opened MatchingSpec
  import opened BookInvariant
  import opened Priority
  import opened Conservation

  /** An order is rejected for its quantity first, then for a resting id; the book stays as it was. */
  lemma RejectedOrderChangesNothing(b: Book, id: nat, side: Side, price: int, quantity: int)
    ensures var (b', r) := Add(b, id, side, price, quantity);
            && (r.Success? <==> quantity > 0 && !b.Holds(id))
            && (r.Failure? ==> b' == b && r.error == if quantity <= 0 then InvalidQuantity else DuplicateId)
  {
  }

  /** Trade `k` of an accepted order is with the opposite order of rank `k`, for what those before it left over. */
  lemma TradesOfOrder(b: Book, id: nat, side: Side, price: int, quantity: int)
    requires BookOk(b) && quantity > 0 && !b.Holds(id)
    ensures var r, opposite := Add(b, id, side, price, quantity).1, b.Resting(side.Opposite());
            && r.Success? && |r.value| <= |opposite|
            && (forall k :: 0 <= k < |r.value| ==>
                  r.value[k] == Trade(id, opposite[k].id, side, opposite[k].price,
                                      Min(opposite[k].quantity, quantity - Total(opposite[..k])), b.nextSequence + k))
            && (forall k :: 0 <= k < |opposite| ==>
                  (k < |r.value| <==> Crosses(side, price, opposite[k].price) && Total(opposite[..k]) < quantity))
  {
    var opposite := b.Resting(side.Opposite());
    TradesFollowRanks(opposite, id, side, price, quantity, b.nextSequence);
    var trades := Match(opposite, id, side, price, quantity, b.nextSequence).trades;
    forall k | 0 <= k < |opposite|
      ensures k < |trades| <==> Crosses(side, price, opposite[k].price) && Total(opposite[..k]) < quantity
    {
      RankTradesIff(opposite, id, side, price, quantity, b.nextSequence, k);
      assert forall j :: 0 <= j < k ==> Precedes(side.Opposite(), opposite[j], opposite[k]);
    }
  }

  /** Every resting order gets from an accepted order what price-time priority entitles it to. */
  lemma OrderFillsByPriority(b: Book, id: nat, side: Side, price: int, quantity: int, k: nat)
    requires BookOk(b) && quantity > 0 && !b.Holds(id) && k < |b.Resting(side.Opposite())|
    ensures var r, opposite := Add(b, id, side, price, quantity).1, b.Resting(side.Opposite());
            r.Success? && FilledFrom(r.value, opposite[k].id) == Entitlement(opposite, opposite[k], side, price, quantity)
  {
    MatchIsPriceTimePriority(b.Resting(side.Opposite()), id, side, price, quantity, b.nextSequence, k);
  }

  /** The counter moves by one for each trade and one more if anything is left to rest. */
  lemma CounterAfterOrder(b: Book, id: nat, side: Side, price: int, quantity: int)
    requires quantity > 0 && !b.Holds(id)
    ensures var (b', r) := Add(b, id, side, price, quantity);
            && r.Success? && Traded(r.value) <= quantity
            && b'.nextSequence == b.nextSequence + |r.value| + if Traded(r.value) < quantity then 1 else 0
  {
    var opposite := b.Resting(side.Opposite());
    MatchConservesQuantity(opposite, id, side, price, quantity, b.nextSequence);
    MatchStopsWhenDone(opposite, id, side, price, quantity, b.nextSequence);
  }

  /** What did not trade rests with the next number at rank `k` of the otherwise unchanged own side. */
  lemma RemainderOfOrder(b: Book, id: nat, side: Side, price: int, quantity: int) returns (k: nat)
    requires quantity > 0 && !b.Holds(id)
    ensures k <= |b.Resting(side)|
    ensures var (b', r), own := Add(b, id, side, price, quantity), b.Resting(side);
            && r.Success?
            && b'.Resting(side) ==
                 if Traded(r.value) == quantity then own
                 else own[..k] + [Order(id, price, quantity - Traded(r.value), b.nextSequence + |r.value|)] + own[k..]
    ensures forall i :: 0 <= i < k ==> !Better(side, price, b.Resting(side)[i].price)
    ensures k < |b.Resting(side)| ==> Better(side, price, b.Resting(side)[k].price)
  {
    hide Match, Better;
    var opposite := b.Resting(side.Opposite());
    var m := Match(opposite, id, side, price, quantity, b.nextSequence);
    MatchConservesQuantity(opposite, id, side, price, quantity, b.nextSequence);
    MatchStopsWhenDone(opposite, id, side, price, quantity, b.nextSequence);
    k := InsertSplits(side, b.Resting(side), Order(id, price, m.remaining, b.nextSequence + |m.trades|));
  }

  /** The opposite side keeps a suffix, the first of it perhaps reduced, that is smaller by what traded. */
  lemma OppositeAfterOrder(b: Book, id: nat, side: Side, price: int, quantity: int)
    requires BookOk(b) && quantity > 0 && !b.Holds(id)
    ensures var (b', r), opp := Add(b, id, side, price, quantity), side.Opposite();
            && r.Success? && IsReducedSuffix(b'.Resting(opp), b.Resting(opp))
            && Total(b'.Resting(opp)) == Total(b.Resting(opp)) - Traded(r.value)
  {
    var opposite := b.Resting(side.Opposite());
    MatchLeavesSuffix(opposite, id, side, price, quantity, b.nextSequence);
    MatchConservesQuantity(opposite, id, side, price, quantity, b.nextSequence);
  }
}
