/** Crossed levels, and the spread read through two separate locks. */
module Crossing {
  import opened Levels
  import opened BookSpec

  ghost predicate CrossedAt(b: Book, p: Price, q: Price) {
    p in b.bids && q in b.asks && p >= q
  }

  /** The resident pairs of a bid at or above an ask. */
  ghost function CrossedPairs(b: Book): set<(Price, Price)> {
    set p, q | p in b.bids && q in b.asks && p >= q :: (p, q)
  }

  ghost predicate Uncrossed(b: Book) {
    forall p, q | p in b.bids && q in b.asks :: p < q
  }

  /** A step that leaves the pair (bid `p`, ask `q`) in place. */
  predicate Spares(op: Op, p: Price, q: Price) {
    op != Clear && op != Remove(Bid, p) && op != Remove(Ask, q)
  }

  lemma CrossedStep(b: Book, op: Op, p: Price, q: Price)
    requires !op.SetSnapshot?
    ensures CrossedAt(Apply(b, op), p, q) <==> CrossedAt(b, p, q) && Spares(op, p, q)
  {
  }

  lemma {:induction false} CrossedRunAt(b: Book, ops: seq<Op>, p: Price, q: Price)
    requires forall op | op in ops :: !op.SetSnapshot?
    ensures CrossedAt(Run(b, ops), p, q) <==> CrossedAt(b, p, q) && forall op | op in ops :: Spares(op, p, q)
  {
    if ops != [] {
      var init, op := ops[..|ops| - 1], ops[|ops| - 1];
      assert ops == init + [op];
      CrossedRunAt(b, init, p, q);
      CrossedStep(Run(b, init), op, p, q);
    }
  }

  /** Between snapshots the crossed pairs are exactly the old ones that no removal has touched:
      none appears, and a pair that was broken up never comes back. */
  lemma CrossedPairsOnlyShrink(b: Book, ops: seq<Op>)
    requires forall op | op in ops :: !op.SetSnapshot?
    ensures CrossedPairs(Run(b, ops))
         == set pair | pair in CrossedPairs(b) && forall op | op in ops :: Spares(op, pair.0, pair.1)
  {
    forall p, q
      ensures (p, q) in CrossedPairs(Run(b, ops))
         <==> (p, q) in CrossedPairs(b) && forall op | op in ops :: Spares(op, p, q)
    {
      CrossedRunAt(b, ops, p, q);
    }
  }

  ghost predicate SnapshotsUncrossed(ops: seq<Op>) {
    forall op | op in ops && op.SetSnapshot? :: Uncrossed(Book(op.bids, op.asks))
  }

  lemma UncrossedStep(b: Book, op: Op)
    requires Uncrossed(b)
    requires op.SetSnapshot? ==> Uncrossed(Book(op.bids, op.asks))
    ensures Uncrossed(Apply(b, op))
  {
    if op.IsTouch() {
      TouchEffect(b, op);
    }
  }

  /** A book fed only uncrossed snapshots never holds a bid at or above an ask. */
  lemma {:induction false} UncrossedRun(b: Book, ops: seq<Op>)
    requires Uncrossed(b) && SnapshotsUncrossed(ops)
    ensures Uncrossed(Run(b, ops))
  {
    if ops != [] {
      var init, op := ops[..|ops| - 1], ops[|ops| - 1];
      assert ops == init + [op];
      UncrossedRun(b, init);
      UncrossedStep(Run(b, init), op);
    }
  }

  // ---------------------------------------------------------------------------------------
  // The spread
  // ---------------------------------------------------------------------------------------

  ghost function BestOf(b: Book, side: Side): Price {
    Best(side, b.On(side))
  }

  ghost function Spread(askBook: Book, bidBook: Book): real {
    BestOf(askBook, Ask) - BestOf(bidBook, Bid)
  }

  /** What `getSpread` returns when the steps `between` run after its first lock and before its
      second, the best price of side `first` being read first. */
  ghost function TornSpread(b: Book, between: seq<Op>, first: Side): real {
    var later := Run(b, between);
    if first.Ask? then Spread(b, later) else Spread(later, b)
  }

  predicate KeepsLevel(op: Op, side: Side, p: Price) {
    op.Update? || (op.Remove? && (op.side != side || op.price != p))
  }

  lemma {:induction false} LevelStays(b: Book, ops: seq<Op>, side: Side, p: Price)
    requires p in b.On(side)
    requires forall op | op in ops :: KeepsLevel(op, side, p)
    ensures p in Run(b, ops).On(side)
  {
    if ops != [] {
      var init, op := ops[..|ops| - 1], ops[|ops| - 1];
      assert ops == init + [op];
      assert op in ops;
      LevelStays(b, init, side, p);
      TouchEffect(Run(b, init), op);
    }
  }

  lemma OppositeBestIsApart(b: Book, side: Side, p: Price)
    requires Uncrossed(b)
    requires p in b.On(side) && b.On(side.Opposite()) != map[]
    ensures Apart(side, p, BestOf(b, side.Opposite()))
  {
    BestIs(side.Opposite(), b.On(side.Opposite()));
  }

  /** The torn spread is positive unless, between the two reads, the very level read first is
      removed or the book is cleared or replaced.  Any other steps may intervene. */
  lemma TornSpreadPositive(b: Book, between: seq<Op>, first: Side)
    requires Uncrossed(b)
    requires b.On(first) != map[] && Run(b, between).On(first.Opposite()) != map[]
    requires forall op | op in between :: KeepsLevel(op, first, BestOf(b, first))
    ensures TornSpread(b, between, first) > 0.0
  {
    var p, later := BestOf(b, first), Run(b, between);
    BestIs(first, b.On(first));
    LevelStays(b, between, first, p);
    UncrossedRun(b, between);
    OppositeBestIsApart(later, first, p);
  }

  /** Whatever updates still run before the second read, the spread will come out positive. */
  ghost predicate SpreadIsSafe(b: Book, between: seq<Op>, first: Side) {
    forall more: seq<Op> |
      && (forall op | op in more :: op.Update?)
      && Run(b, between + more).On(first.Opposite()) != map[]
      :: TornSpread(b, between + more, first) > 0.0
  }

  /** A level at least as good as the one read first is still resident. */
  ghost predicate StillBacked(b: Book, between: seq<Op>, first: Side) {
    exists q :: q in Run(b, between).On(first) && !Before(first, BestOf(b, first), q)
  }

  /** Exactly when a spread in progress is safe: as long as the price read first is backed. */
  lemma TornSpreadExact(b: Book, between: seq<Op>, first: Side)
    requires Uncrossed(b) && SnapshotsUncrossed(between)
    ensures SpreadIsSafe(b, between, first) <==> StillBacked(b, between, first)
  {
    var p, middle := BestOf(b, first), Run(b, between);
    UncrossedRun(b, between);
    if StillBacked(b, between, first) {
      var q :| q in middle.On(first) && !Before(first, p, q);
      forall more: seq<Op> |
        && (forall op | op in more :: op.Update?)
        && Run(b, between + more).On(first.Opposite()) != map[]
        ensures TornSpread(b, between + more, first) > 0.0
      {
        RunConcat(b, between, more);
        LevelStays(middle, more, first, q);
        UncrossedRun(middle, more);
        OppositeBestIsApart(Run(middle, more), first, q);
      }
    } else {
      // Nothing stops an opposite level at the very price that was read.
      var cross := Update(first.Opposite(), p, 1.0);
      assert forall q | q in middle.On(first) :: Before(first, p, q);
      assert Verdict(middle, cross);
      RunSnoc(b, between, cross);
      var later := Run(b, between + [cross]);
      assert p in later.On(first.Opposite());
      BestIs(first.Opposite(), later.On(first.Opposite()));
      assert TornSpread(b, between + [cross], first) <= 0.0;
      assert forall op | op in [cross] :: op.Update?;
    }
  }

  /** The removal condition is needed.  Ask read first: the best ask is removed and a bid takes its
      price; bid read first: the mirror image.  Either way the spread comes out as 0. */
  lemma RemovalTearsSpread()
    ensures var b := Book(map[10.0 := 1.0], map[20.0 := 1.0]);
            && Uncrossed(b)
            && TornSpread(b, [Remove(Ask, 20.0), Update(Bid, 20.0, 1.0)], Ask) == 0.0
            && TornSpread(b, [Remove(Bid, 10.0), Update(Ask, 10.0, 1.0)], Bid) == 0.0
  {
    var b := Book(map[10.0 := 1.0], map[20.0 := 1.0]);
    assert 20.0 in b.asks && 10.0 in b.bids;
    BestIs(Ask, b.asks);
    BestIs(Bid, b.bids);
    TakesOver(b, Ask, 20.0);
    TakesOver(b, Bid, 10.0);
  }

  /** The only level of a side is removed and the opposite side takes its price. */
  lemma TakesOver(b: Book, side: Side, p: Price)
    requires Uncrossed(b) && p in b.On(side) && forall q | q in b.On(side) :: q == p
    ensures BestOf(Run(b, [Remove(side, p), Update(side.Opposite(), p, 1.0)]), side.Opposite()) == p
  {
    var removal, update := Remove(side, p), Update(side.Opposite(), p, 1.0);
    var ladder := b.On(side.Opposite());
    RunOne(b, removal);
    RunSnoc(b, [removal], update);
    TouchEffect(b, removal);
    TouchEffect(Apply(b, removal), update);
    assert [removal] + [update] == [removal, update];
    assert Verdict(Apply(b, removal), update);
    var after := Run(b, [removal, update]).On(side.Opposite());
    assert after == ladder[p := 1.0];
    assert forall q | q in ladder :: Apart(side, p, q);
    assert p in after;
    BestIs(side.Opposite(), after);
  }

  /** With no writer in between and positive prices, the spread is positive exactly when there are
      asks and the book is uncrossed, and negative exactly when there are bids and either no asks,
      since an empty side reads as price 0, or an ask strictly below a bid. */
  lemma SpreadAtRest(b: Book)
    requires forall side, p | p in b.On(side) :: p > 0.0
    ensures Spread(b, b) > 0.0 <==> b.asks != map[] && Uncrossed(b)
    ensures Spread(b, b) < 0.0 <==> b.bids != map[] && (b.asks == map[] || exists p, q :: StrictlyCrossedAt(b, p, q))
  {
    var bid, ask := BestOf(b, Bid), BestOf(b, Ask);
    if b.asks != map[] {
      BestIs(Ask, b.asks);
      assert ask in b.On(Ask);
    }
    if b.bids != map[] {
      BestIs(Bid, b.bids);
      assert bid in b.On(Bid);
    }
    if b.bids != map[] && b.asks != map[] {
      if bid > ask {
        assert StrictlyCrossedAt(b, bid, ask);
      }
    }
  }

  ghost predicate StrictlyCrossedAt(b: Book, p: Price, q: Price) {
    p in b.bids && q in b.asks && p > q
  }

  /** A book of bids alone has a negative spread. */
  lemma SpreadCanBeNegative()
    ensures var b := Book(map[10.0 := 1.0], map[]);
            Uncrossed(b) && Spread(b, b) == -10.0
  {
    var b := Book(map[10.0 := 1.0], map[]);
    assert 10.0 in b.bids;
    BestIs(Bid, b.bids);
  }
}
