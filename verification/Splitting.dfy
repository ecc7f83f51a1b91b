/** When the split of an `l2update` keeps the meaning of one message: the exact condition. */
module Splitting {
  import opened Options
  import opened Levels
  import opened BookSpec
  import opened Sequences
  import opened Delta
  import opened Coinbase

  function NameOf(side: Side): string {
    if side.Bid? then BUY else SELL
  }

  predicate Touches(c: Change, side: Side, p: Price) {
    c.side == NameOf(side) && c.price == p
  }

  predicate TouchedIn(changes: seq<Change>, side: Side, p: Price, from: nat, to: nat)
    requires to <= |changes|
  {
    exists k :: from <= k < to && Touches(changes[k], side, p)
  }

  predicate RemovedIn(changes: seq<Change>, side: Side, p: Price, from: nat, to: nat)
    requires to <= |changes|
  {
    exists k :: from <= k < to && Touches(changes[k], side, p) && changes[k].size == 0.0
  }

  /** The last entry of its price and side. */
  predicate IsLast(changes: seq<Change>, k: nat, side: Side, p: Price)
    requires k < |changes|
  {
    Touches(changes[k], side, p) && !TouchedIn(changes, side, p, k + 1, |changes|)
  }

  lemma {:induction false} LastTouch(changes: seq<Change>, side: Side, p: Price, n: nat) returns (k: nat)
    requires n <= |changes| && TouchedIn(changes, side, p, 0, n)
    ensures k < n && Touches(changes[k], side, p) && !TouchedIn(changes, side, p, k + 1, n)
  {
    if Touches(changes[n - 1], side, p) {
      k := n - 1;
    } else {
      k := LastTouch(changes, side, p, n - 1);
    }
  }

  // ---------------------------------------------------------------------------------------
  // One price in wire order
  // ---------------------------------------------------------------------------------------

  /** The book after the first `n` changes in wire order. */
  ghost function Wire(b: Book, changes: seq<Change>, n: nat): Book
    requires n <= |changes|
  {
    Run(b, WireOps(changes[..n]))
  }

  ghost function ApplyChange(w: Book, c: Change): Book {
    if c.side == BUY then Apply(w, LevelOp(Bid, LevelOf(c)))
    else if c.side == SELL then Apply(w, LevelOp(Ask, LevelOf(c)))
    else w
  }

  lemma WireStep(b: Book, changes: seq<Change>, n: nat)
    requires n < |changes|
    ensures Wire(b, changes, n + 1) == ApplyChange(Wire(b, changes, n), changes[n])
  {
    var c := changes[n];
    assert changes[..n + 1] == changes[..n] + [c];
    SnocLists(changes[..n], c);
    if c.side == BUY {
      RunSnoc(b, WireOps(changes[..n]), LevelOp(Bid, LevelOf(c)));
    } else if c.side == SELL {
      RunSnoc(b, WireOps(changes[..n]), LevelOp(Ask, LevelOf(c)));
    } else {
      assert WireOps(changes[..n + 1]) == WireOps(changes[..n]);
    }
  }

  /** What one change does to one price. */
  ghost function ChangeOf(w: Book, c: Change, side: Side, p: Price): Option<Size> {
    if !Touches(c, side, p) then Lookup(w.On(side), p)
    else if c.size == 0.0 then None
    else if Admits(side, p, w.On(side.Opposite())) then Some(c.size)
    else Lookup(w.On(side), p)
  }

  lemma WireAt(b: Book, changes: seq<Change>, n: nat, side: Side, p: Price)
    requires n < |changes|
    ensures Lookup(Wire(b, changes, n + 1).On(side), p) == ChangeOf(Wire(b, changes, n), changes[n], side, p)
  {
    WireStep(b, changes, n);
    ChangeAt(Wire(b, changes, n), changes[n], side, p);
  }

  lemma ChangeAt(w: Book, c: Change, side: Side, p: Price)
    ensures Lookup(ApplyChange(w, c).On(side), p) == ChangeOf(w, c, side, p)
  {
    assert |BUY| != |SELL|;
  }

  lemma {:induction false} Untouched(b: Book, changes: seq<Change>, side: Side, p: Price, m: nat, n: nat)
    requires m <= n <= |changes| && !TouchedIn(changes, side, p, m, n)
    ensures Lookup(Wire(b, changes, n).On(side), p) == Lookup(Wire(b, changes, m).On(side), p)
  {
    if m < n {
      Untouched(b, changes, side, p, m, n - 1);
      WireAt(b, changes, n - 1, side, p);
    }
  }

  lemma {:induction false} Stays(b: Book, changes: seq<Change>, side: Side, p: Price, m: nat, n: nat)
    requires m <= n <= |changes| && !RemovedIn(changes, side, p, m, n) && p in Wire(b, changes, m).On(side)
    ensures p in Wire(b, changes, n).On(side)
  {
    if m < n {
      Stays(b, changes, side, p, m, n - 1);
      WireAt(b, changes, n - 1, side, p);
    }
  }

  /** The update at `k` was admitted, and no removal of its price follows before `n`. */
  ghost predicate Entered(b: Book, changes: seq<Change>, side: Side, p: Price, k: nat, n: nat)
    requires n <= |changes|
  {
    && k < n && Touches(changes[k], side, p) && changes[k].size != 0.0
    && Admits(side, p, Wire(b, changes, k).On(side.Opposite())) && !RemovedIn(changes, side, p, k + 1, n)
  }

  ghost predicate OnlyRemovalsActed(b: Book, changes: seq<Change>, side: Side, p: Price, n: nat)
    requires n <= |changes|
  {
    Lookup(Wire(b, changes, n).On(side), p)
    == if RemovedIn(changes, side, p, 0, n) then None else Lookup(b.On(side), p)
  }

  lemma OutcomeStep(b: Book, changes: seq<Change>, side: Side, p: Price, n: nat)
    requires n < |changes| && OnlyRemovalsActed(b, changes, side, p, n)
    ensures OnlyRemovalsActed(b, changes, side, p, n + 1) || Entered(b, changes, side, p, n, n + 1)
  {
    WireAt(b, changes, n, side, p);
  }

  lemma OutcomeRemoved(b: Book, changes: seq<Change>, side: Side, p: Price, n: nat)
    requires n < |changes| && Touches(changes[n], side, p) && changes[n].size == 0.0
    ensures OnlyRemovalsActed(b, changes, side, p, n + 1)
  {
    WireAt(b, changes, n, side, p);
  }

  /** Either some update entered and no removal followed, or only removals have acted. */
  lemma {:induction false} Outcome(b: Book, changes: seq<Change>, side: Side, p: Price, n: nat)
    requires n <= |changes|
    ensures (exists k: nat :: Entered(b, changes, side, p, k, n)) || OnlyRemovalsActed(b, changes, side, p, n)
  {
    if n > 0 {
      var m := n - 1;
      Outcome(b, changes, side, p, m);
      if Touches(changes[m], side, p) && changes[m].size == 0.0 {
        OutcomeRemoved(b, changes, side, p, m);
      } else if k: nat :| Entered(b, changes, side, p, k, m) {
        assert Entered(b, changes, side, p, k, n);
      } else {
        OutcomeStep(b, changes, side, p, m);
      }
    }
  }

  lemma LastDecides(b: Book, changes: seq<Change>, side: Side, p: Price, k: nat)
    requires k < |changes| && IsLast(changes, k, side, p)
    requires changes[k].size == 0.0 || Admits(side, p, Wire(b, changes, k).On(side.Opposite()))
    ensures Lookup(Wire(b, changes, |changes|).On(side), p)
         == if changes[k].size == 0.0 then None else Some(changes[k].size)
  {
    WireAt(b, changes, k, side, p);
    Untouched(b, changes, side, p, k + 1, |changes|);
  }

  // ---------------------------------------------------------------------------------------
  // One price after the split
  // ---------------------------------------------------------------------------------------

  ghost function Split(b: Book, changes: seq<Change>): Book {
    Run(b, SplitOps(changes))
  }

  /** The levels the guard of a side is tested against: the old asks, and the new bids. */
  ghost function Guard(b: Book, changes: seq<Change>, side: Side): Ladder {
    if side.Bid? then b.asks else Split(b, changes).bids
  }

  /** The size the last entry of a price gives. */
  function LastSize(changes: seq<Change>, side: Side, p: Price): Option<Size> {
    if changes == [] then None
    else if Touches(changes[|changes| - 1], side, p) then Some(changes[|changes| - 1].size)
    else LastSize(changes[..|changes| - 1], side, p)
  }

  lemma {:induction false} ListAt(changes: seq<Change>, side: Side, p: Price)
    ensures Lookup(ToMap(OfSide(changes, NameOf(side))), p) == LastSize(changes, side, p)
  {
    if changes != [] {
      var init, c := changes[..|changes| - 1], changes[|changes| - 1];
      assert changes == init + [c];
      ListAt(init, side, p);
      SelectSnoc(init, c, Names(NameOf(side)), LevelOf);
      var levels := OfSide(init, NameOf(side));
      assert (levels + [LevelOf(c)])[..|levels|] == levels;
    }
  }

  lemma {:induction false} LastSizeIs(changes: seq<Change>, side: Side, p: Price, k: nat, n: nat)
    requires k < n <= |changes| && Touches(changes[k], side, p) && !TouchedIn(changes, side, p, k + 1, n)
    ensures LastSize(changes[..n], side, p) == Some(changes[k].size)
  {
    if k < n - 1 {
      assert changes[..n][..n - 1] == changes[..n - 1];
      LastSizeIs(changes, side, p, k, n - 1);
    }
  }

  lemma {:induction false} NoLastSize(changes: seq<Change>, side: Side, p: Price, n: nat)
    requires n <= |changes| && !TouchedIn(changes, side, p, 0, n)
    ensures LastSize(changes[..n], side, p) == None
  {
    if n > 0 {
      assert changes[..n][..n - 1] == changes[..n - 1];
      NoLastSize(changes, side, p, n - 1);
    }
  }

  lemma ListRemoved(changes: seq<Change>, side: Side, p: Price)
    ensures Level(p, 0.0) in OfSide(changes, NameOf(side)) <==> RemovedIn(changes, side, p, 0, |changes|)
  {
    SelectMember(changes, Names(NameOf(side)), LevelOf, Level(p, 0.0));
    if RemovedIn(changes, side, p, 0, |changes|) {
      var k :| 0 <= k < |changes| && Touches(changes[k], side, p) && changes[k].size == 0.0;
      assert changes[k] in changes && LevelOf(changes[k]) == Level(p, 0.0);
    }
    if Level(p, 0.0) in OfSide(changes, NameOf(side)) {
      var c :| c in changes && Names(NameOf(side))(c) && LevelOf(c) == Level(p, 0.0);
      var k :| 0 <= k < |changes| && changes[k] == c;
      assert Touches(changes[k], side, p);
    }
  }

  lemma SplitAt(b: Book, changes: seq<Change>, side: Side, p: Price)
    ensures Lookup(Split(b, changes).On(side), p)
         == Resolved(side, b.On(side), Guard(b, changes, side), OfSide(changes, NameOf(side)), p)
  {
    DeltaClosedForm(b, OfSide(changes, BUY), OfSide(changes, SELL));
    MergedAt(side, b.On(side), Guard(b, changes, side), OfSide(changes, NameOf(side)), p);
  }

  lemma SplitUntouched(b: Book, changes: seq<Change>, side: Side, p: Price)
    requires !TouchedIn(changes, side, p, 0, |changes|)
    ensures Lookup(Split(b, changes).On(side), p) == Lookup(b.On(side), p)
  {
    SplitAt(b, changes, side, p);
    ListAt(changes, side, p);
    assert changes[..|changes|] == changes;
    NoLastSize(changes, side, p, |changes|);
    ListRemoved(changes, side, p);
  }

  lemma SplitLastDecides(b: Book, changes: seq<Change>, side: Side, p: Price, k: nat)
    requires k < |changes| && IsLast(changes, k, side, p)
    ensures Lookup(Split(b, changes).On(side), p)
         == if changes[k].size == 0.0 then None
            else if Admits(side, p, Guard(b, changes, side)) then Some(changes[k].size)
            else if RemovedIn(changes, side, p, 0, |changes|) then None
            else Lookup(b.On(side), p)
  {
    SplitAt(b, changes, side, p);
    ListAt(changes, side, p);
    assert changes[..|changes|] == changes;
    LastSizeIs(changes, side, p, k, |changes|);
    ListRemoved(changes, side, p);
  }

  // ---------------------------------------------------------------------------------------
  // The condition
  // ---------------------------------------------------------------------------------------

  /** An earlier buy, not yet removed when the sell at `i` comes, is as high as it and no higher than
      the buy at `j`: unless that earlier buy is refused, and then the later one is too, it keeps the
      sell out. */
  predicate Shielded(changes: seq<Change>, i: nat, j: nat)
    requires i < |changes| && j < |changes|
  {
    exists k :: 0 <= k < i && IsShield(changes, k, i, changes[i].price, changes[j].price)
  }

  predicate IsShield(changes: seq<Change>, k: nat, i: nat, low: Price, high: Price)
    requires k < i <= |changes|
  {
    && changes[k].side == BUY && changes[k].size != 0.0 && low <= changes[k].price <= high
    && !RemovedIn(changes, Bid, changes[k].price, k + 1, i)
  }

  /** The sell at `i` is followed by the buy at `j`, which is at least as high. */
  predicate LateCross(changes: seq<Change>, i: nat, j: nat) {
    && i < j < |changes| && changes[i].side == SELL && changes[j].side == BUY
    && changes[i].price <= changes[j].price
  }

  /** A final bid makes no difference to an earlier sell it crosses if that is an update kept out anyway. */
  predicate BuysHarmless(changes: seq<Change>) {
    forall i, j | 0 <= i < j < |changes| && LateCross(changes, i, j)
                  && changes[j].size != 0.0 && IsLast(changes, j, Bid, changes[j].price)
      :: changes[i].size != 0.0 && Shielded(changes, i, j)
  }

  /** The removal of a bid makes no difference to an earlier sell it crosses unless the sell sets the
      final level of its price, and the bid may have been there from the start. */
  predicate SellsHarmless(changes: seq<Change>) {
    forall i, j | 0 <= i < j < |changes| && LateCross(changes, i, j)
                  && changes[j].size == 0.0 && changes[i].size != 0.0 && IsLast(changes, i, Ask, changes[i].price)
      :: RemovedIn(changes, Bid, changes[j].price, 0, i)
  }

  /** A bid is removed, set again and removed again within the message. */
  predicate Revives(changes: seq<Change>) {
    exists i, j, k :: 0 <= i < j < k < |changes| && RevivedAt(changes, i, j, k)
  }

  predicate RevivedAt(changes: seq<Change>, i: nat, j: nat, k: nat)
    requires i < j < k < |changes|
  {
    var p := changes[i].price;
    && Touches(changes[i], Bid, p) && changes[i].size == 0.0
    && Touches(changes[j], Bid, p) && changes[j].size != 0.0
    && Touches(changes[k], Bid, p) && changes[k].size == 0.0
  }

  // ---------------------------------------------------------------------------------------
  // It is sufficient
  // ---------------------------------------------------------------------------------------

  /** Every shield that stands before change `n` is a bid of the book. */
  ghost predicate ShieldsIn(b: Book, changes: seq<Change>, high: Price, n: nat)
    requires n <= |changes|
  {
    forall k, low | 0 <= k < n && IsShield(changes, k, n, low, high) :: changes[k].price in Wire(b, changes, n).bids
  }

  /** Up to the final buy at `j`, the asks stay above it if they were, and standing shields are bids. */
  lemma {:induction false} StaysAbove(b: Book, changes: seq<Change>, j: nat, n: nat)
    requires BuysHarmless(changes) && n <= j < |changes| && changes[j].side == BUY && changes[j].size != 0.0
    requires IsLast(changes, j, Bid, changes[j].price) && Admits(Bid, changes[j].price, b.asks)
    ensures Admits(Bid, changes[j].price, Wire(b, changes, n).asks) && ShieldsIn(b, changes, changes[j].price, n)
  {
    if n > 0 {
      StaysAbove(b, changes, j, n - 1);
      AsksStayAbove(b, changes, j, n - 1);
      ShieldsStay(b, changes, changes[j].price, n - 1);
    }
  }

  lemma AsksStayAbove(b: Book, changes: seq<Change>, j: nat, n: nat)
    requires BuysHarmless(changes) && n < j < |changes| && changes[j].side == BUY && changes[j].size != 0.0
    requires IsLast(changes, j, Bid, changes[j].price) && ShieldsIn(b, changes, changes[j].price, n)
    requires Admits(Bid, changes[j].price, Wire(b, changes, n).asks)
    ensures Admits(Bid, changes[j].price, Wire(b, changes, n + 1).On(Ask))
  {
    forall q | q in Wire(b, changes, n + 1).On(Ask)
      ensures Apart(Bid, changes[j].price, q)
    {
      WireAt(b, changes, n, Ask, q);
      if Touches(changes[n], Ask, q) && q <= changes[j].price {
        SellKeptOut(b, changes, j, n);
      } else {
        assert q in Wire(b, changes, n).asks || Touches(changes[n], Ask, q);
      }
    }
  }

  lemma ShieldsStay(b: Book, changes: seq<Change>, high: Price, n: nat)
    requires n < |changes| && ShieldsIn(b, changes, high, n) && Admits(Bid, high, Wire(b, changes, n).asks)
    ensures ShieldsIn(b, changes, high, n + 1)
  {
    var m := n + 1;
    forall k, low | 0 <= k < m && IsShield(changes, k, m, low, high)
      ensures changes[k].price in Wire(b, changes, m).On(Bid)
    {
      WireAt(b, changes, n, Bid, changes[k].price);
      if k < n {
        assert IsShield(changes, k, n, low, high);
      }
    }
  }

  lemma SellKeptOut(b: Book, changes: seq<Change>, j: nat, i: nat)
    requires BuysHarmless(changes) && LateCross(changes, i, j) && changes[j].size != 0.0
    requires IsLast(changes, j, Bid, changes[j].price)
    requires ShieldsIn(b, changes, changes[j].price, i)
    ensures changes[i].size != 0.0 && !Admits(Ask, changes[i].price, Wire(b, changes, i).bids)
  {
    var k :| 0 <= k < i && IsShield(changes, k, i, changes[i].price, changes[j].price);
    assert changes[k].price in Wire(b, changes, i).bids && !Apart(Ask, changes[i].price, changes[k].price);
  }

  lemma SameBid(b: Book, changes: seq<Change>, p: Price)
    requires BuysHarmless(changes)
    ensures Lookup(Wire(b, changes, |changes|).On(Bid), p) == Lookup(Split(b, changes).On(Bid), p)
  {
    if !TouchedIn(changes, Bid, p, 0, |changes|) {
      SplitUntouched(b, changes, Bid, p);
      Untouched(b, changes, Bid, p, 0, |changes|);
    } else {
      var j := LastTouch(changes, Bid, p, |changes|);
      SplitLastDecides(b, changes, Bid, p, j);
      if changes[j].size == 0.0 {
        LastDecides(b, changes, Bid, p, j);
      } else if Admits(Bid, p, b.asks) {
        StaysAbove(b, changes, j, j);
        LastDecides(b, changes, Bid, p, j);
      } else {
        RefusedThroughout(b, changes, p, j);
      }
    }
  }

  /** An old ask that crosses the final buy outlives it, so no buy at that price gets in. */
  lemma RefusedThroughout(b: Book, changes: seq<Change>, p: Price, j: nat)
    requires BuysHarmless(changes) && j < |changes| && IsLast(changes, j, Bid, p) && changes[j].size != 0.0
    requires !Admits(Bid, p, b.asks)
    ensures OnlyRemovalsActed(b, changes, Bid, p, |changes|)
  {
    var a :| a in b.asks && !Apart(Bid, p, a);
    Outcome(b, changes, Bid, p, |changes|);
    if k: nat :| Entered(b, changes, Bid, p, k, |changes|) {
      assert k <= j;
      forall i | 0 <= i < k && Touches(changes[i], Ask, a)
        ensures changes[i].size != 0.0
      {
        assert LateCross(changes, i, j);
      }
      Stays(b, changes, Ask, a, 0, k);
      assert false;
    }
  }

  /** A final sell that the bids of the split admit is also admitted when it comes in wire order. */
  ghost predicate AdmittedInTime(b: Book, changes: seq<Change>, i: nat, q: Price)
    requires i < |changes|
  {
    IsLast(changes, i, Ask, q) && changes[i].size != 0.0 && Admits(Ask, q, Split(b, changes).bids) ==>
      Admits(Ask, q, Wire(b, changes, i).On(Bid))
  }

  ghost predicate SameBids(b: Book, changes: seq<Change>) {
    forall p :: Lookup(Wire(b, changes, |changes|).On(Bid), p) == Lookup(Split(b, changes).On(Bid), p)
  }

  lemma SameAsk(b: Book, changes: seq<Change>, q: Price)
    requires SameBids(b, changes) && forall i: nat | i < |changes| :: AdmittedInTime(b, changes, i, q)
    ensures Lookup(Wire(b, changes, |changes|).On(Ask), q) == Lookup(Split(b, changes).On(Ask), q)
  {
    if !TouchedIn(changes, Ask, q, 0, |changes|) {
      SplitUntouched(b, changes, Ask, q);
      Untouched(b, changes, Ask, q, 0, |changes|);
    } else {
      var i := LastTouch(changes, Ask, q, |changes|);
      SplitLastDecides(b, changes, Ask, q, i);
      assert AdmittedInTime(b, changes, i, q);
      if changes[i].size == 0.0 || Admits(Ask, q, Split(b, changes).bids) {
        LastDecides(b, changes, Ask, q, i);
      } else {
        BlockedThroughout(b, changes, q);
      }
    }
  }

  /** Bids that cross a final sell and are gone in the end were gone when it came. */
  lemma GoneInTime(b: Book, changes: seq<Change>, i: nat, q: Price)
    requires BuysHarmless(changes) && SellsHarmless(changes) && !Revives(changes) && i < |changes|
    ensures AdmittedInTime(b, changes, i, q)
  {
    if IsLast(changes, i, Ask, q) && changes[i].size != 0.0 && Admits(Ask, q, Split(b, changes).bids) {
      forall x | x in Wire(b, changes, i).On(Bid)
        ensures Apart(Ask, q, x)
      {
        if !Apart(Ask, q, x) {
          SameBid(b, changes, x);
          assert x !in Split(b, changes).bids;
          if !RemovedIn(changes, Bid, x, i, |changes|) {
            Stays(b, changes, Bid, x, i, |changes|);
          }
          var m :| i <= m < |changes| && Touches(changes[m], Bid, x) && changes[m].size == 0.0;
          assert LateCross(changes, i, m);
          SetAgain(b, changes, x, i, m);
        }
      }
    }
  }

  /** A bid that stands although it was removed before was set again in between. */
  lemma SetAgain(b: Book, changes: seq<Change>, x: Price, i: nat, m: nat)
    requires i < m < |changes| && x in Wire(b, changes, i).On(Bid)
    requires RemovedIn(changes, Bid, x, 0, i) && Touches(changes[m], Bid, x) && changes[m].size == 0.0
    ensures Revives(changes)
  {
    var k :| 0 <= k < i && Touches(changes[k], Bid, x) && changes[k].size == 0.0;
    WireAt(b, changes, k, Bid, x);
    if TouchedIn(changes, Bid, x, k + 1, i) {
      var l := LastTouch(changes, Bid, x, i);
      assert k < l;
      if changes[l].size == 0.0 {
        WireAt(b, changes, l, Bid, x);
        Untouched(b, changes, Bid, x, l + 1, i);
      } else {
        assert RevivedAt(changes, k, l, m);
      }
    } else {
      Untouched(b, changes, Bid, x, k + 1, i);
    }
  }

  /** A bid that stands in the end and crosses a sell never let it stay. */
  lemma BlockedThroughout(b: Book, changes: seq<Change>, q: Price)
    requires SameBids(b, changes)
    requires !Admits(Ask, q, Split(b, changes).bids)
    ensures OnlyRemovalsActed(b, changes, Ask, q, |changes|)
  {
    var x :| x in Split(b, changes).bids && !Apart(Ask, q, x);
    assert Lookup(Wire(b, changes, |changes|).On(Bid), x) == Lookup(Split(b, changes).On(Bid), x);
    Outcome(b, changes, Ask, q, |changes|);
    if k: nat :| Entered(b, changes, Ask, q, k, |changes|) {
      WireAt(b, changes, k, Ask, q);
      NeverAfter(b, changes, q, x, k, |changes|);
      assert false;
    }
  }

  lemma {:induction false} NeverAfter(b: Book, changes: seq<Change>, q: Price, x: Price, k: nat, n: nat)
    requires Entered(b, changes, Ask, q, k, |changes|) && k < n <= |changes| && !Apart(Ask, q, x)
    ensures x !in Wire(b, changes, n).On(Bid)
  {
    WireAt(b, changes, n - 1, Bid, x);
    if n > k + 1 {
      NeverAfter(b, changes, q, x, k, n - 1);
      WireAt(b, changes, k, Ask, q);
      Stays(b, changes, Ask, q, k + 1, n - 1);
    } else {
      assert !Touches(changes[k], Bid, x) by { assert |BUY| != |SELL|; }
    }
  }

  lemma HarmlessSplits(b: Book, changes: seq<Change>)
    requires BuysHarmless(changes) && forall i: nat, q | i < |changes| :: AdmittedInTime(b, changes, i, q)
    ensures Split(b, changes) == Run(b, WireOps(changes))
  {
    assert changes[..|changes|] == changes;
    var w, t := Wire(b, changes, |changes|), Split(b, changes);
    forall p
      ensures Lookup(w.On(Bid), p) == Lookup(t.On(Bid), p)
    {
      SameBid(b, changes, p);
    }
    forall q
      ensures Lookup(w.On(Ask), q) == Lookup(t.On(Ask), q)
    {
      SameAsk(b, changes, q);
    }
    LookupExtensional(w.On(Bid), t.On(Bid));
    LookupExtensional(w.On(Ask), t.On(Ask));
  }

  // ---------------------------------------------------------------------------------------
  // It is necessary
  // ---------------------------------------------------------------------------------------

  lemma {:induction false} JustAbove(changes: seq<Change>, p: Price) returns (c: Price)
    ensures p < c && forall d | d in changes :: d.price <= p || c < d.price
  {
    if changes == [] {
      c := p + 1.0;
    } else {
      var init, d := changes[..|changes| - 1], changes[|changes| - 1];
      assert changes == init + [d];
      c := JustAbove(init, p);
      if p < d.price <= c {
        c := (p + d.price) / 2.0;
      }
    }
  }

  lemma {:induction false} Outside(changes: seq<Change>) returns (low: Price, high: Price)
    ensures low < high && forall d | d in changes :: low < d.price < high
  {
    if changes == [] {
      low, high := 0.0, 1.0;
    } else {
      var init, d := changes[..|changes| - 1], changes[|changes| - 1];
      assert changes == init + [d];
      low, high := Outside(init);
      low := if d.price <= low then d.price - 1.0 else low;
      high := if d.price >= high then d.price + 1.0 else high;
    }
  }

  /** A level at a price the message does not mention stays. */
  lemma Unmentioned(b: Book, changes: seq<Change>, side: Side, p: Price, n: nat)
    requires n <= |changes| && p in b.On(side) && forall d | d in changes :: d.price != p
    ensures p in Wire(b, changes, n).On(side)
  {
    forall k | 0 <= k < n
      ensures !Touches(changes[k], side, p)
    {
      assert changes[k] in changes;
    }
    Stays(b, changes, side, p, 0, n);
  }

  /** A side whose every price the unmentioned opposite level `r` blocks only loses levels. */
  lemma OnlyLoses(b: Book, changes: seq<Change>, side: Side, r: Price, p: Price, n: nat)
    requires n <= |changes| && r in b.On(side.Opposite())
    requires forall d | d in changes :: d.price != r && !Apart(side, d.price, r)
    ensures OnlyRemovalsActed(b, changes, side, p, n)
  {
    Outcome(b, changes, side, p, n);
    if k: nat :| Entered(b, changes, side, p, k, n) {
      assert changes[k] in changes;
      Unmentioned(b, changes, side.Opposite(), r, k);
      assert false;
    }
  }

  /** A final buy that follows the removal of an ask it crosses. */
  lemma RemovalBreaks(changes: seq<Change>, i: nat, j: nat)
    requires LateCross(changes, i, j) && changes[i].size == 0.0
    requires changes[j].size != 0.0 && IsLast(changes, j, Bid, changes[j].price)
    ensures !SplitIsFaithful(changes)
  {
    var low, high := Outside(changes);
    var a, p := changes[i].price, changes[j].price;
    var b := Book(map[high := 1.0], map[a := 1.0]);
    assert changes[j] in changes && high in b.On(Bid) && a in b.asks && !Apart(Bid, p, a);
    forall q | q in Wire(b, changes, j).On(Ask)
      ensures false
    {
      OnlyLoses(b, changes, Ask, high, q, j);
      assert q == a && Touches(changes[i], Ask, a);
      assert false;
    }
    LastDecides(b, changes, Bid, p, j);
    SplitLastDecides(b, changes, Bid, p, j);
    Differ(b, changes, Bid, p);
  }

  lemma Differ(b: Book, changes: seq<Change>, side: Side, p: Price)
    requires Lookup(Wire(b, changes, |changes|).On(side), p) != Lookup(Split(b, changes).On(side), p)
    ensures !SplitIsFaithful(changes)
  {
    assert changes[..|changes|] == changes;
  }

  /** In a book that admits no bid above `p`, the bids when the sell at `i` comes are below it. */
  lemma BelowSell(b: Book, changes: seq<Change>, i: nat, j: nat, c: Price)
    requires LateCross(changes, i, j) && !Shielded(changes, i, j)
    requires b == Book(map[], map[c := 1.0])
    requires forall d | d in changes :: d.price <= changes[j].price || c < d.price
    requires changes[j].price < c
    ensures Admits(Ask, changes[i].price, Wire(b, changes, i).On(Bid))
  {
    forall x | x in Wire(b, changes, i).On(Bid)
      ensures Apart(Ask, changes[i].price, x)
    {
      Outcome(b, changes, Bid, x, i);
      var k: nat :| Entered(b, changes, Bid, x, k, i);
      assert changes[k] in changes && c in b.On(Ask);
      Unmentioned(b, changes, Ask, c, k);
      if x >= changes[i].price {
        assert IsShield(changes, k, i, changes[i].price, changes[j].price);
      }
    }
  }

  /** A sell without a shield gets in and keeps out the final buy that crosses it. */
  lemma UnshieldedBreaks(changes: seq<Change>, i: nat, j: nat)
    requires LateCross(changes, i, j) && changes[i].size != 0.0 && !Shielded(changes, i, j)
    requires changes[j].size != 0.0 && IsLast(changes, j, Bid, changes[j].price)
    requires !RemovedIn(changes, Ask, changes[i].price, 0, j)
    ensures !SplitIsFaithful(changes)
  {
    var q, p := changes[i].price, changes[j].price;
    var c := JustAbove(changes, p);
    var b := Book(map[], map[c := 1.0]);
    assert Touches(changes[i], Ask, q);
    BelowSell(b, changes, i, j, c);
    WireAt(b, changes, i, Ask, q);
    Outcome(b, changes, Bid, p, |changes|);
    if k: nat :| Entered(b, changes, Bid, p, k, |changes|) {
      if k < i {
        WireAt(b, changes, k, Bid, p);
        Stays(b, changes, Bid, p, k + 1, i);
      } else {
        assert k <= j && k != i;
        Stays(b, changes, Ask, q, i + 1, k);
      }
      assert false;
    }
    SplitLastDecides(b, changes, Bid, p, j);
    Differ(b, changes, Bid, p);
  }

  /** A final sell followed by the removal of a bid that kept it out. */
  lemma BlockerBreaks(changes: seq<Change>, i: nat, j: nat)
    requires LateCross(changes, i, j) && changes[j].size == 0.0
    requires changes[i].size != 0.0 && IsLast(changes, i, Ask, changes[i].price)
    requires !RemovedIn(changes, Bid, changes[j].price, 0, i)
    ensures !SplitIsFaithful(changes)
  {
    var low, high := Outside(changes);
    var q, x := changes[i].price, changes[j].price;
    var b := Book(map[x := 1.0], map[low := 1.0]);
    assert changes[i] in changes && x in b.On(Bid) && low in b.On(Ask) && Touches(changes[j], Bid, x);
    forall y | y in Split(b, changes).On(Bid)
      ensures false
    {
      NoBidLeft(b, changes, low, x, y);
    }
    assert Split(b, changes).On(Bid) == Guard(b, changes, Ask);
    SplitLastDecides(b, changes, Ask, q, i);
    Outcome(b, changes, Ask, q, |changes|);
    if k: nat :| Entered(b, changes, Ask, q, k, |changes|) {
      assert k <= i;
      Stays(b, changes, Bid, x, 0, k);
      assert false;
    }
    Differ(b, changes, Ask, q);
  }

  lemma NoBidLeft(b: Book, changes: seq<Change>, low: Price, x: Price, y: Price)
    requires b == Book(map[x := 1.0], map[low := 1.0]) && RemovedIn(changes, Bid, x, 0, |changes|)
    requires forall d | d in changes :: low < d.price
    ensures y !in Split(b, changes).On(Bid)
  {
    if TouchedIn(changes, Bid, y, 0, |changes|) {
      var k := LastTouch(changes, Bid, y, |changes|);
      assert changes[k] in changes && low in b.asks && !Apart(Bid, y, low);
      SplitLastDecides(b, changes, Bid, y, k);
    } else {
      SplitUntouched(b, changes, Bid, y);
    }
  }

  lemma HarmfulBuyBreaks(changes: seq<Change>, i: nat, j: nat)
    requires LateCross(changes, i, j) && changes[j].size != 0.0 && IsLast(changes, j, Bid, changes[j].price)
    requires changes[i].size == 0.0 || !Shielded(changes, i, j)
    ensures !SplitIsFaithful(changes)
  {
    var q := changes[i].price;
    if changes[i].size == 0.0 {
      RemovalBreaks(changes, i, j);
    } else if RemovedIn(changes, Ask, q, 0, j) {
      var k :| 0 <= k < j && Touches(changes[k], Ask, q) && changes[k].size == 0.0;
      RemovalBreaks(changes, k, j);
    } else {
      UnshieldedBreaks(changes, i, j);
    }
  }

  lemma BuysMustBeHarmless(changes: seq<Change>)
    ensures SplitIsFaithful(changes) ==> BuysHarmless(changes)
  {
    if !BuysHarmless(changes) {
      var i, j :| 0 <= i < j < |changes| && LateCross(changes, i, j)
        && changes[j].size != 0.0 && IsLast(changes, j, Bid, changes[j].price)
        && !(changes[i].size != 0.0 && Shielded(changes, i, j));
      HarmfulBuyBreaks(changes, i, j);
    }
  }

  lemma SellsMustBeHarmless(changes: seq<Change>)
    ensures SplitIsFaithful(changes) ==> SellsHarmless(changes)
  {
    if !SellsHarmless(changes) {
      var i, j :| 0 <= i < j < |changes| && LateCross(changes, i, j)
        && changes[j].size == 0.0 && changes[i].size != 0.0 && IsLast(changes, i, Ask, changes[i].price)
        && !RemovedIn(changes, Bid, changes[j].price, 0, i);
      BlockerBreaks(changes, i, j);
    }
  }

  /** A message is split faithfully on every book exactly if its late crosses are harmless, unless it
      removes a bid, sets it again and removes it again. */
  lemma SplitExact(changes: seq<Change>)
    requires !Revives(changes)
    ensures SplitIsFaithful(changes) <==> BuysHarmless(changes) && SellsHarmless(changes)
  {
    BuysMustBeHarmless(changes);
    SellsMustBeHarmless(changes);
    if BuysHarmless(changes) && SellsHarmless(changes) {
      forall b
        ensures Run(b, SplitOps(changes)) == Run(b, WireOps(changes))
      {
        forall i: nat, q | i < |changes|
          ensures AdmittedInTime(b, changes, i, q)
        {
          GoneInTime(b, changes, i, q);
        }
        HarmlessSplits(b, changes);
      }
    }
  }

  /** A late cross need not matter: here either the first buy or an old ask always decides. */
  lemma LateCrossCanBeHarmless()
    ensures var changes := [Change(BUY, 10.0, 1.0), Change(SELL, 10.0, 1.0), Change(BUY, 10.5, 1.0)];
            !NoLateCross(changes) && SplitIsFaithful(changes)
  {
    var changes := [Change(BUY, 10.0, 1.0), Change(SELL, 10.0, 1.0), Change(BUY, 10.5, 1.0)];
    assert |BUY| != |SELL|;
    assert changes[0].side == BUY && !Exchangeable(changes[1], changes[2]);
    assert IsShield(changes, 0, 1, 10.0, 10.5);
    SplitExact(changes);
  }

  const REVIVAL := [Change(BUY, 10.0, 0.0), Change(BUY, 10.0, 1.0), Change(SELL, 10.0, 1.0), Change(BUY, 10.0, 0.0)]

  /** The exception is needed: the bid that is set again blocks the sell and is gone in the end. */
  lemma RevivalBreaks()
    ensures BuysHarmless(REVIVAL) && SellsHarmless(REVIVAL) && !SplitIsFaithful(REVIVAL)
  {
    assert |BUY| != |SELL|;
    assert Touches(REVIVAL[0], Bid, 10.0) && Touches(REVIVAL[2], Ask, 10.0) && Touches(REVIVAL[3], Bid, 10.0);
    WireBlocks();
    forall y | y in Split(EMPTY_BOOK, REVIVAL).On(Bid)
      ensures false
    {
      if y == 10.0 {
        SplitLastDecides(EMPTY_BOOK, REVIVAL, Bid, y, 3);
      } else {
        SplitUntouched(EMPTY_BOOK, REVIVAL, Bid, y);
      }
    }
    assert Split(EMPTY_BOOK, REVIVAL).On(Bid) == Guard(EMPTY_BOOK, REVIVAL, Ask);
    SplitLastDecides(EMPTY_BOOK, REVIVAL, Ask, 10.0, 2);
    Differ(EMPTY_BOOK, REVIVAL, Ask, 10.0);
  }

  lemma WireBlocks()
    ensures 10.0 !in Wire(EMPTY_BOOK, REVIVAL, 4).On(Ask)
  {
    assert |BUY| != |SELL|;
    assert Touches(REVIVAL[1], Bid, 10.0);
    forall a | a in Wire(EMPTY_BOOK, REVIVAL, 1).On(Ask)
      ensures false
    {
      Untouched(EMPTY_BOOK, REVIVAL, Ask, a, 0, 1);
    }
    WireAt(EMPTY_BOOK, REVIVAL, 1, Bid, 10.0);
    assert 10.0 in Wire(EMPTY_BOOK, REVIVAL, 2).On(Bid) && !Apart(Ask, 10.0, 10.0);
    Untouched(EMPTY_BOOK, REVIVAL, Ask, 10.0, 0, 2);
    WireAt(EMPTY_BOOK, REVIVAL, 2, Ask, 10.0);
    Untouched(EMPTY_BOOK, REVIVAL, Ask, 10.0, 3, 4);
  }
}
