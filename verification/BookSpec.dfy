/** The order book as a state machine: its state is two plain maps, its steps are the locked
    regions of the `OrderBook` methods, and a run is any sequence of such steps. */
module BookSpec {
  import opened Options
  import opened Levels

  datatype Book = Book(bids: Ladder, asks: Ladder) {
    function On(side: Side): Ladder {
      if side.Bid? then bids else asks
    }

    function With(side: Side, ladder: Ladder): Book {
      if side.Bid? then Book(ladder, asks) else Book(bids, ladder)
    }
  }

  const EMPTY_BOOK := Book(map[], map[])

  /** One locked write. */
  datatype Op =
    | Update(side: Side, price: Price, size: Size)
    | Remove(side: Side, price: Price)
    | SetSnapshot(bids: Ladder, asks: Ladder)
    | Clear
  {
    /** Writes one level: `updateBid`, `updateAsk`, `removeBid` or `removeAsk`. */
    predicate IsTouch() {
      Update? || Remove?
    }
  }

  /** A level at `p` on `side` does not cross a level at `q` on the other side. */
  predicate Apart(side: Side, p: Price, q: Price) {
    Before(side.Opposite(), p, q)
  }

  /** The guard of the two updates: the new level stays clear of the whole opposite side. */
  ghost predicate Admits(side: Side, p: Price, opposite: Ladder) {
    forall q | q in opposite :: Apart(side, p, q)
  }

  ghost function Apply(b: Book, op: Op): Book {
    match op
    case Update(side, p, s) =>
      if Admits(side, p, b.On(side.Opposite())) then b.With(side, b.On(side)[p := s]) else b
    case Remove(side, p) => b.With(side, b.On(side) - {p})
    case SetSnapshot(bids, asks) => Book(bids, asks)
    case Clear => EMPTY_BOOK
  }

  /** What a single-level write does to the ladder of its own side, given the verdict of its guard. */
  function Effect(own: Ladder, op: Op, admitted: bool): Ladder
    requires op.IsTouch()
  {
    match op
    case Update(_, p, s) => if admitted then own[p := s] else own
    case Remove(_, p) => own - {p}
  }

  ghost predicate Verdict(b: Book, op: Op)
    requires op.IsTouch()
  {
    Admits(op.side, op.price, b.On(op.side.Opposite()))
  }

  lemma TouchEffect(b: Book, op: Op)
    requires op.IsTouch()
    ensures Apply(b, op).On(op.side) == Effect(b.On(op.side), op, Verdict(b, op))
    ensures Apply(b, op).On(op.side.Opposite()) == b.On(op.side.Opposite())
  {
  }

  ghost function Run(b: Book, ops: seq<Op>): Book {
    if ops == [] then b else Apply(Run(b, ops[..|ops| - 1]), ops[|ops| - 1])
  }

  lemma RunSnoc(b: Book, ops: seq<Op>, op: Op)
    ensures Run(b, ops + [op]) == Apply(Run(b, ops), op)
  {
    assert (ops + [op])[..|ops + [op]| - 1] == ops;
  }

  lemma {:induction false} RunConcat(b: Book, x: seq<Op>, y: seq<Op>)
    ensures Run(b, x + y) == Run(Run(b, x), y)
  {
    if y == [] {
      assert x + y == x;
    } else {
      var init := y[..|y| - 1];
      assert (x + y)[..|x + y| - 1] == x + init;
      RunConcat(b, x, init);
    }
  }

  lemma RunOne(b: Book, op: Op)
    ensures Run(b, [op]) == Apply(b, op)
  {
    RunSnoc(b, [], op);
  }

  /** The guard as the code tests it, against the first level of the opposite container. */
  lemma GuardAgainstFront(side: Side, p: Price, opposite: seq<Level>)
    requires Sorted(side.Opposite(), opposite)
    ensures (opposite == [] || Apart(side, p, opposite[0].price)) <==> Admits(side, p, ToMap(opposite))
  {
    FrontIsBest(side.Opposite(), opposite);
    if opposite != [] {
      BestIs(side.Opposite(), ToMap(opposite));
    }
  }

  /** The two-sided lookup that determines a book. */
  ghost function LevelAt(b: Book, side: Side, p: Price): Option<Size> {
    Lookup(b.On(side), p)
  }

  // ---------------------------------------------------------------------------------------
  // The writes an update list asks for
  // ---------------------------------------------------------------------------------------

  /** A size of 0 asks for removal, any other size for an update. */
  function LevelOp(side: Side, level: Level): Op {
    if level.size == 0.0 then Remove(side, level.price) else Update(side, level.price, level.size)
  }

  function LevelOps(side: Side, levels: seq<Level>): (ops: seq<Op>)
    ensures |ops| == |levels|
  {
    seq(|levels|, i requires 0 <= i < |levels| => LevelOp(side, levels[i]))
  }

  /** A delta: the whole bid loop, then the whole ask loop. */
  function DeltaOps(bids: seq<Level>, asks: seq<Level>): seq<Op> {
    LevelOps(Bid, bids) + LevelOps(Ask, asks)
  }

  lemma LevelOpsSnoc(side: Side, levels: seq<Level>, level: Level)
    ensures LevelOps(side, levels + [level]) == LevelOps(side, levels) + [LevelOp(side, level)]
  {
  }
}
