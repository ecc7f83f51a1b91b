/** The Coinbase `l2update` handler: one interleaved list of changes is split into a bid list and
    an ask list, and the engine applies all bids before all asks. */
module Coinbase {
  import opened Options
  import opened Levels
  import opened Messages
  import opened BookSpec
  import opened Interleaving
  import opened Sequences
  import Feed

  const BUY := "buy"
  const SELL := "sell"

  /** One parsed entry of the change list.  Entries of any other side are skipped. */
  datatype Change = Change(side: string, price: Price, size: Size)

  function Names(side: string): Change -> bool {
    (c: Change) => c.side == side
  }

  function LevelOf(c: Change): Level {
    Level(c.price, c.size)
  }

  /** The levels of one side, in list order. */
  function OfSide(changes: seq<Change>, side: string): seq<Level> {
    Select(changes, Names(side), LevelOf)
  }

  /** The writes the list asks for, in wire order. */
  function WireOps(changes: seq<Change>): seq<Op> {
    if changes == [] then [] else
      var c := changes[|changes| - 1];
      WireOps(changes[..|changes| - 1])
      + (if c.side == BUY then [LevelOp(Bid, Level(c.price, c.size))]
         else if c.side == SELL then [LevelOp(Ask, Level(c.price, c.size))]
         else [])
  }

  /** `levels` are the price and size of exactly the entries of that side, in list order. */
  ghost predicate Lists(levels: seq<Level>, changes: seq<Change>, side: string) {
    exists at: seq<nat> :: Picks(at, levels, changes, side)
  }

  /** The entries at these places, each once and in order, and no other entry of that side. */
  predicate Picks(at: seq<nat>, levels: seq<Level>, changes: seq<Change>, side: string) {
    && |at| == |levels|
    && (forall m, n | 0 <= m < n < |at| :: at[m] < at[n])
    && (forall n | 0 <= n < |at| :: at[n] < |changes| && changes[at[n]].side == side
                                    && levels[n] == Level(changes[at[n]].price, changes[at[n]].size))
    && (forall i | 0 <= i < |changes| && changes[i].side == side :: i in at)
  }

  lemma {:induction false} OfSideLists(changes: seq<Change>, side: string)
    ensures Lists(OfSide(changes, side), changes, side)
  {
    if changes == [] {
      assert Picks([], [], [], side);
    } else {
      var init, c := changes[..|changes| - 1], changes[|changes| - 1];
      assert changes == init + [c];
      OfSideLists(init, side);
      ListsOneMore(OfSide(init, side), init, side, c);
      SelectSnoc(init, c, Names(side), LevelOf);
    }
  }

  lemma ListsOneMore(levels: seq<Level>, init: seq<Change>, side: string, c: Change)
    requires Lists(levels, init, side)
    ensures Lists(if c.side == side then levels + [LevelOf(c)] else levels, init + [c], side)
  {
    var at: seq<nat> :| Picks(at, levels, init, side);
    if c.side == side {
      PicksOneMore(at, levels, init, side, c);
    } else {
      assert Picks(at, levels, init + [c], side);
    }
  }

  lemma PicksOneMore(at: seq<nat>, levels: seq<Level>, init: seq<Change>, side: string, c: Change)
    requires Picks(at, levels, init, side) && c.side == side
    ensures Picks(at + [|init|], levels + [LevelOf(c)], init + [c], side)
  {
    forall i | 0 <= i < |init| + 1 && (init + [c])[i].side == side
      ensures i in at + [|init|]
    {
      assert i < |init| ==> i in at;
    }
  }

  /** A "buy" entry writes the bids and a "sell" entry the asks; a size of 0 removes the level; an entry
      of any other side writes nothing. */
  lemma WireOne(c: Change)
    ensures c.side == "buy" ==>
              WireOps([c]) == [if c.size == 0.0 then Remove(Bid, c.price) else Update(Bid, c.price, c.size)]
    ensures c.side == "sell" ==>
              WireOps([c]) == [if c.size == 0.0 then Remove(Ask, c.price) else Update(Ask, c.price, c.size)]
    ensures c.side != "buy" && c.side != "sell" ==> WireOps([c]) == []
  {
    assert [c] == [] + [c];
    SnocLists([], c);
    assert |"buy"| != |"sell"|;
  }

  /** The wire-order writes of a list are those of its entries, one after the other. */
  lemma {:induction false} WireConcat(x: seq<Change>, y: seq<Change>)
    ensures WireOps(x + y) == WireOps(x) + WireOps(y)
  {
    if y == [] {
      assert x + y == x;
    } else {
      var init := y[..|y| - 1];
      assert (x + y)[..|x + y| - 1] == x + init;
      WireConcat(x, init);
    }
  }

  /** The writes the engine makes after the split. */
  function SplitOps(changes: seq<Change>): seq<Op> {
    DeltaOps(OfSide(changes, BUY), OfSide(changes, SELL))
  }

  class CoinbaseAdapter {
    var deltaCallback: bool

    constructor ()
      ensures !deltaCallback
    {
      deltaCallback := false;
    }

    method RegisterOrderBookDeltaCallback(present: bool)
      modifies this
      ensures deltaCallback == present
    {
      deltaCallback := present;
    }

    /** Builds the delta of an `l2update` and hands it to the callback, if there is one. */
    method HandleL2Update(product: string, changes: seq<Change>, now: int) returns (sent: Option<OrderBookDelta>)
      ensures sent == if deltaCallback
                      then Some(OrderBookDelta(product, OfSide(changes, BUY), OfSide(changes, SELL), now))
                      else None
      ensures sent.Some? ==> Lists(sent.value.bidUpdates, changes, "buy")
      ensures sent.Some? ==> Lists(sent.value.askUpdates, changes, "sell")
    {
      var bidUpdates, askUpdates := [], [];
      for i := 0 to |changes|
        invariant bidUpdates == OfSide(changes[..i], BUY)
        invariant askUpdates == OfSide(changes[..i], SELL)
      {
        var change := changes[i];
        assert changes[..i + 1][..i] == changes[..i];
        if change.side == BUY {
          bidUpdates := bidUpdates + [Level(change.price, change.size)];
        } else if change.side == SELL {
          askUpdates := askUpdates + [Level(change.price, change.size)];
        }
      }
      assert changes[..|changes|] == changes;
      OfSideLists(changes, "buy");
      OfSideLists(changes, "sell");
      return if deltaCallback then Some(OrderBookDelta(product, bidUpdates, askUpdates, now)) else None;
    }
  }

  // ---------------------------------------------------------------------------------------
  // When the split keeps the meaning of the wire order
  // ---------------------------------------------------------------------------------------

  /** A sell entry listed before this buy entry may be applied after it. */
  predicate Exchangeable(sell: Change, buy: Change) {
    buy.price < sell.price || (sell.size == 0.0 && buy.size == 0.0)
  }

  /** Only a buy listed after a sell changes places with it; all such pairs are exchangeable. */
  predicate NoLateCross(changes: seq<Change>) {
    forall i, j | 0 <= i < j < |changes| && changes[i].side == SELL && changes[j].side == BUY
      :: Exchangeable(changes[i], changes[j])
  }

  lemma ExchangeableIsIndependent(sell: Change, buy: Change)
    ensures Exchangeable(sell, buy)
       <==> Independent(LevelOp(Bid, Level(buy.price, buy.size)), LevelOp(Ask, Level(sell.price, sell.size)))
  {
  }

  lemma {:induction false} SellOpsIndependent(op: Op, changes: seq<Change>)
    requires forall c | c in changes && c.side == SELL :: Independent(op, LevelOp(Ask, Level(c.price, c.size)))
    ensures forall y | y in LevelOps(Ask, OfSide(changes, SELL)) :: Independent(op, y)
  {
    if changes != [] {
      var init, c := changes[..|changes| - 1], changes[|changes| - 1];
      assert changes == init + [c];
      SellOpsIndependent(op, init);
      if c.side == SELL {
        LevelOpsSnoc(Ask, OfSide(init, SELL), Level(c.price, c.size));
      } else {
        assert OfSide(changes, SELL) == OfSide(init, SELL);
      }
    }
  }

  /** Applying the split lists gives the book the changes give one by one in wire order. */
  lemma {:induction false} SplitPreservesMeaning(b: Book, changes: seq<Change>)
    requires NoLateCross(changes)
    ensures Run(b, SplitOps(changes)) == Run(b, WireOps(changes))
  {
    if changes == [] {
      assert SplitOps(changes) == WireOps(changes);
    } else {
      var init, c := changes[..|changes| - 1], changes[|changes| - 1];
      assert changes == init + [c];
      SplitPreservesMeaning(b, init);
      SplitLast(b, init, c);
    }
  }

  lemma SplitLast(b: Book, init: seq<Change>, c: Change)
    requires NoLateCross(init + [c])
    requires Run(b, SplitOps(init)) == Run(b, WireOps(init))
    ensures Run(b, SplitOps(init + [c])) == Run(b, WireOps(init + [c]))
  {
    if c.side == BUY {
      var all, op := init + [c], LevelOp(Bid, LevelOf(c));
      forall d | d in init && d.side == SELL
        ensures Independent(op, LevelOp(Ask, Level(d.price, d.size)))
      {
        var i :| 0 <= i < |init| && init[i] == d;
        assert all[i] == d && Exchangeable(all[i], all[|init|]);
        ExchangeableIsIndependent(d, c);
      }
      SellOpsIndependent(op, init);
      MoveToEnd(Run(b, BidsOf(init)), op, AsksOf(init));
      SplitLastBuy(b, init, c);
    } else {
      SplitLastOther(b, init, c);
    }
  }

  function BidsOf(changes: seq<Change>): seq<Op> {
    LevelOps(Bid, OfSide(changes, BUY))
  }

  function AsksOf(changes: seq<Change>): seq<Op> {
    LevelOps(Ask, OfSide(changes, SELL))
  }

  /** A last buy may stay last if it may change places with the sells before it. */
  lemma SplitLastBuy(b: Book, init: seq<Change>, c: Change)
    requires c.side == BUY && Run(b, SplitOps(init)) == Run(b, WireOps(init))
    requires var op, b1 := LevelOp(Bid, LevelOf(c)), Run(b, BidsOf(init));
             Run(b1, [op] + AsksOf(init)) == Run(b1, AsksOf(init) + [op])
    ensures Run(b, SplitOps(init + [c])) == Run(b, WireOps(init + [c]))
  {
    var op, b1 := LevelOp(Bid, LevelOf(c)), Run(b, BidsOf(init));
    SplitOfBuy(init, c);
    RunConcat(b, BidsOf(init), [op] + AsksOf(init));
    RunConcat(b, BidsOf(init), AsksOf(init));
    RunSnoc(b1, AsksOf(init), op);
    RunSnoc(b, WireOps(init), op);
  }

  lemma SplitOfBuy(init: seq<Change>, c: Change)
    requires c.side == BUY
    ensures SplitOps(init + [c]) == BidsOf(init) + ([LevelOp(Bid, LevelOf(c))] + AsksOf(init))
    ensures WireOps(init + [c]) == WireOps(init) + [LevelOp(Bid, LevelOf(c))]
  {
    SnocLists(init, c);
    LevelOpsSnoc(Bid, OfSide(init, BUY), LevelOf(c));
    assert |BUY| != |SELL|;
    assert OfSide(init + [c], SELL) == OfSide(init, SELL);
  }

  lemma SplitLastOther(b: Book, init: seq<Change>, c: Change)
    requires c.side != BUY && Run(b, SplitOps(init)) == Run(b, WireOps(init))
    ensures Run(b, SplitOps(init + [c])) == Run(b, WireOps(init + [c]))
  {
    SnocLists(init, c);
    assert OfSide(init + [c], BUY) == OfSide(init, BUY);
    if c.side == SELL {
      var op := LevelOp(Ask, LevelOf(c));
      LevelOpsSnoc(Ask, OfSide(init, SELL), LevelOf(c));
      assert SplitOps(init + [c]) == SplitOps(init) + [op];
      RunSnoc(b, SplitOps(init), op);
      RunSnoc(b, WireOps(init), op);
    } else {
      assert OfSide(init + [c], SELL) == OfSide(init, SELL) && WireOps(init + [c]) == WireOps(init);
    }
  }

  /** The engine's books after it handled the delta of an `l2update` are those the changes ask for. */
  lemma HandledInWireOrder(books: Feed.Books, product: string, changes: seq<Change>, now: int)
    requires NoLateCross(changes) && product in books
    ensures var delta := OrderBookDelta(product, OfSide(changes, BUY), OfSide(changes, SELL), now);
            Feed.Handle(books, Feed.DeltaMessage(delta)) == books[product := Run(books[product], WireOps(changes))]
  {
    SplitPreservesMeaning(books[product], changes);
  }

  /** The usual case: every buy price of the message is below every sell price. */
  lemma BuysBelowSellsSplit(b: Book, changes: seq<Change>)
    requires forall c, d | c in changes && d in changes && c.side == BUY && d.side == SELL :: c.price < d.price
    ensures Run(b, SplitOps(changes)) == Run(b, WireOps(changes))
  {
    SplitPreservesMeaning(b, changes);
  }

  // ---------------------------------------------------------------------------------------
  // The condition is exact
  // ---------------------------------------------------------------------------------------

  /** `x` is `y` with some entries dropped. */
  predicate Subsequence(x: seq<Change>, y: seq<Change>) {
    x == [] ||
    (y != [] && (Subsequence(x, y[..|y| - 1])
                 || (x[|x| - 1] == y[|y| - 1] && Subsequence(x[..|x| - 1], y[..|y| - 1]))))
  }

  lemma {:induction false} SubsequenceMember(x: seq<Change>, y: seq<Change>, c: Change)
    requires Subsequence(x, y) && c in x
    ensures c in y
  {
    if Subsequence(x, y[..|y| - 1]) {
      SubsequenceMember(x, y[..|y| - 1], c);
    } else if c != x[|x| - 1] {
      SubsequenceMember(x[..|x| - 1], y[..|y| - 1], c);
    }
  }

  lemma {:induction false} NoLateCrossInherited(x: seq<Change>, y: seq<Change>)
    requires Subsequence(x, y) && NoLateCross(y)
    ensures NoLateCross(x)
    decreases |y|
  {
    if x != [] {
      var yInit := y[..|y| - 1];
      if Subsequence(x, yInit) {
        NoLateCrossInherited(x, yInit);
      } else {
        var xInit, last := x[..|x| - 1], x[|x| - 1];
        NoLateCrossInherited(xInit, yInit);
        forall i | 0 <= i < |xInit| && x[i].side == SELL && last.side == BUY
          ensures Exchangeable(x[i], last)
        {
          SubsequenceMember(xInit, yInit, xInit[i]);
          var k :| 0 <= k < |yInit| && yInit[k] == x[i];
          assert y[k] == x[i];
        }
      }
    }
  }

  lemma {:induction false} PairSubsequence(y: seq<Change>, i: nat, j: nat)
    requires i < j < |y|
    ensures Subsequence([y[i], y[j]], y)
  {
    var init := y[..|y| - 1];
    if j < |init| {
      PairSubsequence(init, i, j);
    } else {
      SingleSubsequence(init, i);
      assert [y[i], y[j]][..1] == [y[i]];
    }
  }

  lemma {:induction false} SingleSubsequence(y: seq<Change>, i: nat)
    requires i < |y|
    ensures Subsequence([y[i]], y)
  {
    var init := y[..|y| - 1];
    if i < |init| {
      SingleSubsequence(init, i);
    } else {
      assert [y[i]][..0] == [];
    }
  }

  ghost predicate SplitIsFaithful(changes: seq<Change>) {
    forall b :: Run(b, SplitOps(changes)) == Run(b, WireOps(changes))
  }

  /** A sell followed by a buy that crosses it: the two orders disagree on some book. */
  lemma LateCrossBreaksSplit(sell: Change, buy: Change)
    requires sell.side == SELL && buy.side == BUY && !Exchangeable(sell, buy)
    ensures !SplitIsFaithful([sell, buy])
  {
    var s, t := LevelOp(Ask, Level(sell.price, sell.size)), LevelOp(Bid, Level(buy.price, buy.size));
    var pair := [sell, buy];
    assert pair == [sell] + [buy] && [sell] == [] + [sell] && |BUY| != |SELL|;
    SnocLists([sell], buy);
    SnocLists([], sell);
    assert OfSide(pair, BUY) == [Level(buy.price, buy.size)] && OfSide(pair, SELL) == [Level(sell.price, sell.size)];
    assert WireOps(pair) == [s] + [t];
    assert SplitOps(pair) == [t] + [s];
    ExchangeableIsIndependent(sell, buy);
    var b := Separates(t, s);
    RunSnoc(b, [s], t);
    RunSnoc(b, [t], s);
    RunOne(b, s);
    RunOne(b, t);
  }

  /** A message can be split, and keeps being splittable when entries are dropped from it, exactly
      when no buy listed after a sell crosses it. */
  lemma PartsSplitExact(changes: seq<Change>)
    ensures NoLateCross(changes) <==> forall part | Subsequence(part, changes) :: SplitIsFaithful(part)
  {
    if NoLateCross(changes) {
      forall part | Subsequence(part, changes)
        ensures SplitIsFaithful(part)
      {
        NoLateCrossInherited(part, changes);
        forall b
          ensures Run(b, SplitOps(part)) == Run(b, WireOps(part))
        {
          SplitPreservesMeaning(b, part);
        }
      }
    } else {
      var i, j :| 0 <= i < j < |changes| && changes[i].side == SELL && changes[j].side == BUY
        && !Exchangeable(changes[i], changes[j]);
      PairSubsequence(changes, i, j);
      LateCrossBreaksSplit(changes[i], changes[j]);
    }
  }

  lemma SnocLists(changes: seq<Change>, c: Change)
    ensures forall side :: OfSide(changes + [c], side)
                        == OfSide(changes, side) + (if c.side == side then [LevelOf(c)] else [])
    ensures WireOps(changes + [c])
         == WireOps(changes) + (if c.side == BUY then [LevelOp(Bid, Level(c.price, c.size))]
                                else if c.side == SELL then [LevelOp(Ask, Level(c.price, c.size))] else [])
  {
    assert (changes + [c])[..|changes|] == changes;
  }
}
