/** The engine's message handlers as functions on the books of all symbols: what each symbol's
    book depends on, and what the published updates say about it. */
module Feed {
  import opened Levels
  import opened Messages
  import opened BookSpec
  import opened Sequences
  import opened Crossing
  import opened Sums
  import Interleaving

  type Books = map<string, Book>

  datatype Message = SnapshotMessage(snapshot: OrderBookSnapshot) | DeltaMessage(delta: OrderBookDelta) {
    function Symbol(): string {
      match this
      case SnapshotMessage(s) => s.symbol
      case DeltaMessage(d) => d.symbol
    }

    /** The locked writes its handler makes. */
    function Writes(): seq<Op> {
      match this
      case SnapshotMessage(s) => [SetSnapshot(ToMap(s.bids), ToMap(s.asks))]
      case DeltaMessage(d) => DeltaOps(d.bidUpdates, d.askUpdates)
    }
  }

  /** One locked write, addressed to the book of a symbol. */
  datatype Step = Step(symbol: string, op: Op)

  ghost function ApplyStep(books: Books, step: Step): Books {
    if step.symbol in books then books[step.symbol := Apply(books[step.symbol], step.op)] else books
  }

  /** A run of the whole engine: the writes of any number of handlers, in any interleaving. */
  ghost function RunSteps(books: Books, log: seq<Step>): Books {
    if log == [] then books else ApplyStep(RunSteps(books, log[..|log| - 1]), log[|log| - 1])
  }

  function AddressedTo(symbol: string): Step -> bool {
    (step: Step) => step.symbol == symbol
  }

  function OpOf(step: Step): Op {
    step.op
  }

  function OpsFor(log: seq<Step>, symbol: string): seq<Op> {
    Select(log, AddressedTo(symbol), OpOf)
  }

  lemma {:induction false} StepsProjectAt(books: Books, log: seq<Step>, s: string)
    ensures s in RunSteps(books, log) <==> s in books
    ensures s in books ==> RunSteps(books, log)[s] == Run(books[s], OpsFor(log, s))
  {
    if log != [] && s in books {
      var init, last := log[..|log| - 1], log[|log| - 1];
      StepsProjectAt(books, init, s);
      if s == last.symbol {
        RunSnoc(books[s], OpsFor(init, s), last.op);
      } else {
        assert OpsFor(log, s) == OpsFor(init, s);
      }
    } else if log != [] {
      StepsProjectAt(books, log[..|log| - 1], s);
    }
  }

  /** Each book is the fold of the writes addressed to it; unknown symbols have no effect. */
  lemma StepsProject(books: Books, log: seq<Step>)
    ensures RunSteps(books, log) == map s | s in books :: Run(books[s], OpsFor(log, s))
  {
    forall s
      ensures s in RunSteps(books, log) <==> s in books
      ensures s in books ==> RunSteps(books, log)[s] == Run(books[s], OpsFor(log, s))
    {
      StepsProjectAt(books, log, s);
    }
  }

  // ---------------------------------------------------------------------------------------
  // Whole messages
  // ---------------------------------------------------------------------------------------

  ghost function Handle(books: Books, m: Message): Books {
    if m.Symbol() in books then books[m.Symbol() := Run(books[m.Symbol()], m.Writes())] else books
  }

  ghost function HandleAll(books: Books, log: seq<Message>): Books {
    if log == [] then books else Handle(HandleAll(books, log[..|log| - 1]), log[|log| - 1])
  }

  function For(symbol: string): Message -> bool {
    (m: Message) => m.Symbol() == symbol
  }

  function MessagesFor(log: seq<Message>, symbol: string): seq<Message> {
    Select(log, For(symbol), Identity)
  }

  /** One book, fed a list of messages. */
  ghost function Fed(b: Book, log: seq<Message>): Book {
    if log == [] then b else Run(Fed(b, log[..|log| - 1]), log[|log| - 1].Writes())
  }

  lemma {:induction false} ProjectionAt(books: Books, log: seq<Message>, s: string)
    ensures s in HandleAll(books, log) <==> s in books
    ensures s in books ==> HandleAll(books, log)[s] == Fed(books[s], MessagesFor(log, s))
  {
    if log != [] && s in books {
      var init, last := log[..|log| - 1], log[|log| - 1];
      ProjectionAt(books, init, s);
      var own := MessagesFor(init, s);
      if s == last.Symbol() {
        assert (own + [last])[..|own|] == own;
      } else {
        assert MessagesFor(log, s) == own;
      }
    } else if log != [] {
      ProjectionAt(books, log[..|log| - 1], s);
    }
  }

  /** A symbol's book depends on that symbol's messages alone, and the set of books never changes. */
  lemma Projection(books: Books, log: seq<Message>)
    ensures HandleAll(books, log) == map s | s in books :: Fed(books[s], MessagesFor(log, s))
  {
    forall s
      ensures s in HandleAll(books, log) <==> s in books
      ensures s in books ==> HandleAll(books, log)[s] == Fed(books[s], MessagesFor(log, s))
    {
      ProjectionAt(books, log, s);
    }
  }

  lemma {:induction false} FedConcat(b: Book, x: seq<Message>, y: seq<Message>)
    ensures Fed(b, x + y) == Fed(Fed(b, x), y)
  {
    if y == [] {
      assert x + y == x;
    } else {
      var init := y[..|y| - 1];
      assert (x + y)[..|x + y| - 1] == x + init;
      FedConcat(b, x, init);
    }
  }

  lemma SnapshotReplaces(a: Book, b: Book, s: OrderBookSnapshot)
    ensures Fed(a, [SnapshotMessage(s)]) == Fed(b, [SnapshotMessage(s)])
  {
    var m := SnapshotMessage(s);
    assert [m][..0] == [];
    RunOne(a, m.Writes()[0]);
    RunOne(b, m.Writes()[0]);
  }

  /** Two engines of any past that see the same snapshot for a symbol, and from then on the same
      messages for it, hold the same book for it, whatever reaches the other symbols. */
  lemma SnapshotErasesHistory(books1: Books, books2: Books, past1: seq<Message>, past2: seq<Message>,
                              snapshot: OrderBookSnapshot, later1: seq<Message>, later2: seq<Message>)
    requires var s := snapshot.symbol;
             s in books1 && s in books2 && MessagesFor(later1, s) == MessagesFor(later2, s)
    ensures var s := snapshot.symbol;
            && s in HandleAll(books1, past1 + [SnapshotMessage(snapshot)] + later1)
            && s in HandleAll(books2, past2 + [SnapshotMessage(snapshot)] + later2)
            && HandleAll(books1, past1 + [SnapshotMessage(snapshot)] + later1)[s]
               == HandleAll(books2, past2 + [SnapshotMessage(snapshot)] + later2)[s]
  {
    var s, m := snapshot.symbol, SnapshotMessage(snapshot);
    HistoryUpTo(books1, past1, m, later1);
    HistoryUpTo(books2, past2, m, later2);
    SnapshotReplaces(Fed(books1[s], MessagesFor(past1, s)), Fed(books2[s], MessagesFor(past2, s)), snapshot);
  }

  lemma HistoryUpTo(books: Books, past: seq<Message>, m: Message, later: seq<Message>)
    requires m.Symbol() in books
    ensures var s := m.Symbol();
            s in HandleAll(books, past + [m] + later)
            && HandleAll(books, past + [m] + later)[s]
               == Fed(Fed(Fed(books[s], MessagesFor(past, s)), [m]), MessagesFor(later, s))
  {
    var s := m.Symbol();
    ProjectionAt(books, past + [m] + later, s);
    SelectConcat(past + [m], later, For(s), Identity);
    SelectConcat(past, [m], For(s), Identity);
    SelectOne(m, For(s), Identity);
    FedConcat(books[s], MessagesFor(past, s) + [m], MessagesFor(later, s));
    FedConcat(books[s], MessagesFor(past, s), [m]);
  }

  // ---------------------------------------------------------------------------------------
  // A message is a block of steps
  // ---------------------------------------------------------------------------------------

  function StepsOf(m: Message): seq<Step> {
    seq(|m.Writes()|, i requires 0 <= i < |m.Writes()| => Step(m.Symbol(), m.Writes()[i]))
  }

  lemma OpsForMessage(m: Message, s: string)
    ensures OpsFor(StepsOf(m), s) == if s == m.Symbol() then m.Writes() else []
  {
    if s == m.Symbol() {
      SelectAll(StepsOf(m), AddressedTo(s), OpOf);
      assert OpsFor(StepsOf(m), s) == m.Writes();
    } else {
      SelectNone(StepsOf(m), AddressedTo(s), OpOf);
    }
  }

  lemma HandleAt(books: Books, m: Message, s: string)
    requires s in books
    ensures Handle(books, m)[s] == if s == m.Symbol() then Run(books[s], m.Writes()) else books[s]
  {
  }

  /** Handling a message is running its steps with no other step in between. */
  lemma HandleIsSteps(books: Books, m: Message)
    ensures Handle(books, m) == RunSteps(books, StepsOf(m))
  {
    var block := StepsOf(m);
    forall s
      ensures s in RunSteps(books, block) <==> s in books
      ensures s in books ==> RunSteps(books, block)[s] == Handle(books, m)[s]
    {
      StepsProjectAt(books, block, s);
      OpsForMessage(m, s);
      if s in books {
        HandleAt(books, m, s);
      }
    }
  }

  /** Two delta handlers for one symbol that run at the same time, with pairwise independent writes:
      however their locked writes interleave, the book is the one either serial order gives. */
  lemma ConcurrentDeltas(b: Book, d: OrderBookDelta, e: OrderBookDelta, run: seq<Interleaving.Event>)
    requires var x, y := DeltaMessage(d).Writes(), DeltaMessage(e).Writes();
             Interleaving.Interleaves(run, [x, y])
             && forall v, w | v in x && w in y :: Interleaving.Independent(v, w)
    ensures var x, y := DeltaMessage(d).Writes(), DeltaMessage(e).Writes();
            Run(b, Interleaving.Ops(run)) == Run(Run(b, x), y) == Run(Run(b, y), x)
  {
    var x, y := DeltaMessage(d).Writes(), DeltaMessage(e).Writes();
    Interleaving.InterleavingIsSerial(b, run, [x, y]);
    Interleaving.SerialTwo(b, x, y);
    Interleaving.SwapBlocks(b, x, y);
    RunConcat(b, x, y);
    RunConcat(b, y, x);
  }

  // ---------------------------------------------------------------------------------------
  // Books reachable through the handlers
  // ---------------------------------------------------------------------------------------

  ghost predicate NoZeroLevel(b: Book) {
    forall side, p | p in b.On(side) :: b.On(side)[p] != 0.0
  }

  /** A write that brings no zero size. */
  ghost predicate NoZeroOp(op: Op) {
    && (op.Update? ==> op.size != 0.0)
    && (op.SetSnapshot? ==> NoZeroLevel(Book(op.bids, op.asks)))
  }

  /** A message whose snapshot, if it is one, carries no zero size. */
  ghost predicate NoZeroMessage(m: Message) {
    m.SnapshotMessage? ==> NoZeroLevel(Book(ToMap(m.snapshot.bids), ToMap(m.snapshot.asks)))
  }

  /** A message whose snapshot, if it is one, is not crossed. */
  ghost predicate UncrossedMessage(m: Message) {
    m.SnapshotMessage? ==> Uncrossed(Book(ToMap(m.snapshot.bids), ToMap(m.snapshot.asks)))
  }

  lemma NoZeroStep(b: Book, op: Op)
    requires NoZeroLevel(b) && NoZeroOp(op)
    ensures NoZeroLevel(Apply(b, op))
  {
    if op.IsTouch() {
      TouchEffect(b, op);
    }
  }

  lemma {:induction false} NoZeroRun(b: Book, ops: seq<Op>)
    requires NoZeroLevel(b) && forall op | op in ops :: NoZeroOp(op)
    ensures NoZeroLevel(Run(b, ops))
  {
    if ops != [] {
      var init, op := ops[..|ops| - 1], ops[|ops| - 1];
      assert ops == init + [op] && op in ops;
      NoZeroRun(b, init);
      NoZeroStep(Run(b, init), op);
    }
  }

  /** Every step of the run is a write of the handler of one of the messages: the handlers may
      overlap, repeat and be cut short in any way. */
  ghost predicate MadeBy(log: seq<Step>, messages: seq<Message>) {
    forall step | step in log :: exists m :: m in messages && step in StepsOf(m)
  }

  lemma MadeByNoZero(log: seq<Step>, messages: seq<Message>, s: string)
    requires MadeBy(log, messages) && forall m | m in messages :: NoZeroMessage(m)
    ensures forall op | op in OpsFor(log, s) :: NoZeroOp(op)
  {
    forall op | op in OpsFor(log, s)
      ensures NoZeroOp(op)
    {
      var m := MadeByOne(log, messages, s, op);
    }
  }

  lemma MadeByUncrossed(log: seq<Step>, messages: seq<Message>, s: string)
    requires MadeBy(log, messages) && forall m | m in messages :: UncrossedMessage(m)
    ensures SnapshotsUncrossed(OpsFor(log, s))
  {
    forall op | op in OpsFor(log, s) && op.SetSnapshot?
      ensures Uncrossed(Book(op.bids, op.asks))
    {
      var m := MadeByOne(log, messages, s, op);
    }
  }

  lemma MadeByOne(log: seq<Step>, messages: seq<Message>, s: string, op: Op) returns (m: Message)
    requires MadeBy(log, messages) && op in OpsFor(log, s)
    ensures m in messages && op in m.Writes()
  {
    SelectMember(log, AddressedTo(s), OpOf, op);
    var step :| step in log && step.op == op;
    m :| m in messages && step in StepsOf(m);
  }

  /** In every interleaving of the handlers of messages without zero sizes in a snapshot, crossed or
      not, no book ever holds a level of size zero. */
  lemma HandlersKeepNoZero(books: Books, messages: seq<Message>, log: seq<Step>)
    requires forall s | s in books :: NoZeroLevel(books[s])
    requires MadeBy(log, messages) && forall m | m in messages :: NoZeroMessage(m)
    ensures forall s | s in RunSteps(books, log) :: NoZeroLevel(RunSteps(books, log)[s])
  {
    StepsProject(books, log);
    forall s | s in books
      ensures NoZeroLevel(Run(books[s], OpsFor(log, s)))
    {
      MadeByNoZero(log, messages, s);
      NoZeroRun(books[s], OpsFor(log, s));
    }
  }

  /** In every interleaving of the handlers of messages without a crossed snapshot, whatever their
      sizes, no book is ever crossed. */
  lemma HandlersKeepUncrossed(books: Books, messages: seq<Message>, log: seq<Step>)
    requires forall s | s in books :: Uncrossed(books[s])
    requires MadeBy(log, messages) && forall m | m in messages :: UncrossedMessage(m)
    ensures forall s | s in RunSteps(books, log) :: Uncrossed(RunSteps(books, log)[s])
  {
    StepsProject(books, log);
    forall s | s in books
      ensures Uncrossed(Run(books[s], OpsFor(log, s)))
    {
      MadeByUncrossed(log, messages, s);
      UncrossedRun(books[s], OpsFor(log, s));
    }
  }

  // ---------------------------------------------------------------------------------------
  // Publication
  // ---------------------------------------------------------------------------------------

  /** The fields of one side of an update are the top of that side: its best level, or zeros when the
      side is empty. */
  ghost predicate TopOfSide(side: Side, m: Ladder, price: Price, size: Size) {
    if m == map[] then price == 0.0 && size == 0.0
    else IsBest(side, m, price) && m[price] == size
  }

  /** The update a delta handler publishes when no other writer interleaves with its four reads. */
  ghost function DeltaUpdate(after: Book, d: OrderBookDelta): MarketUpdate {
    TornUpdate(after, [], [], [], d)
  }

  /** The same with the steps of other writers between the reads of the best bid, the best ask, the
      size at that bid and the size at that ask. */
  ghost function TornUpdate(b: Book, gap1: seq<Op>, gap2: seq<Op>, gap3: seq<Op>, d: OrderBookDelta): MarketUpdate {
    var b1 := Run(b, gap1);
    var b2 := Run(b1, gap2);
    var b3 := Run(b2, gap3);
    var bid, ask := BestOf(b, Bid), BestOf(b1, Ask);
    MarketUpdate(d.symbol, bid, ValueAt(b2.bids, bid), ask, ValueAt(b3.asks, ask), d.timestamp, false)
  }

  lemma BestReadIsTop(b: Book, side: Side)
    ensures TopOfSide(side, b.On(side), BestOf(b, side), ValueAt(b.On(side), BestOf(b, side)))
  {
    if b.On(side) != map[] {
      BestIs(side, b.On(side));
    }
  }

  /** The update names the delta's symbol and time, is no snapshot, and carries the top of both sides;
      the sizes are non-zero unless the book had a zero level already. */
  lemma DeltaPublishesTop(b: Book, d: OrderBookDelta)
    ensures var after := Run(b, DeltaMessage(d).Writes());
            var u := DeltaUpdate(after, d);
            && u.symbol == d.symbol && u.timestamp == d.timestamp && !u.isSnapshot
            && TopOfSide(Bid, after.bids, u.bidPrice, u.bidSize) && TopOfSide(Ask, after.asks, u.askPrice, u.askSize)
            && (NoZeroLevel(b) && after.bids != map[] ==> u.bidSize != 0.0)
            && (NoZeroLevel(b) && after.asks != map[] ==> u.askSize != 0.0)
  {
    var ops := DeltaMessage(d).Writes();
    var after := Run(b, ops);
    BestReadIsTop(after, Bid);
    BestReadIsTop(after, Ask);
    if NoZeroLevel(b) {
      NoZeroRun(b, ops);
      assert BestOf(after, Bid) in after.bids ==> BestOf(after, Bid) in after.On(Bid);
      assert BestOf(after, Ask) in after.asks ==> BestOf(after, Ask) in after.On(Ask);
    }
  }

  /** With other writers between the reads, a published price comes with a zero size exactly when
      its level was gone by the time the size was read. */
  lemma TornSizeIsZeroIffGone(b: Book, gap1: seq<Op>, gap2: seq<Op>, gap3: seq<Op>, d: OrderBookDelta)
    requires NoZeroLevel(b)
    requires forall op | op in gap1 + gap2 + gap3 :: NoZeroOp(op)
    ensures var u := TornUpdate(b, gap1, gap2, gap3, d);
            && (u.bidSize == 0.0 <==> u.bidPrice !in Run(b, gap1 + gap2).bids)
            && (u.askSize == 0.0 <==> u.askPrice !in Run(b, gap1 + gap2 + gap3).asks)
  {
    RunConcat(b, gap1, gap2);
    RunConcat(b, gap1 + gap2, gap3);
    forall op | op in gap1 + gap2
      ensures NoZeroOp(op)
    {
      assert op in gap1 + gap2 + gap3;
    }
    NoZeroRun(b, gap1 + gap2);
    NoZeroRun(b, gap1 + gap2 + gap3);
    var u := TornUpdate(b, gap1, gap2, gap3, d);
    assert u.bidPrice in Run(b, gap1 + gap2).bids ==> u.bidPrice in Run(b, gap1 + gap2).On(Bid);
    assert u.askPrice in Run(b, gap1 + gap2 + gap3).asks ==> u.askPrice in Run(b, gap1 + gap2 + gap3).On(Ask);
  }

  /** With both sides non-empty when they are read, the update of an uncrossed book is uncrossed unless
      the published bid is removed, or the book replaced, between the two price reads: nothing that
      happens after the second one matters. */
  lemma TornUpdateIsUncrossed(b: Book, gap1: seq<Op>, gap2: seq<Op>, gap3: seq<Op>, d: OrderBookDelta)
    requires Uncrossed(b) && b.bids != map[] && Run(b, gap1).asks != map[]
    requires forall op | op in gap1 :: KeepsLevel(op, Bid, BestOf(b, Bid))
    ensures var u := TornUpdate(b, gap1, gap2, gap3, d);
            u.bidPrice < u.askPrice
  {
    TornSpreadPositive(b, gap1, Bid);
  }

  /** The published bid is there when it is read, and no step until its size is read removes it. */
  ghost predicate BidStays(b: Book, gap1: seq<Op>, gap2: seq<Op>) {
    b.bids != map[] && forall op | op in gap1 + gap2 :: KeepsLevel(op, Bid, BestOf(b, Bid))
  }

  /** Likewise the published ask. */
  ghost predicate AskStays(b: Book, gap1: seq<Op>, gap2: seq<Op>, gap3: seq<Op>) {
    var b1 := Run(b, gap1);
    b1.asks != map[] && forall op | op in gap2 + gap3 :: KeepsLevel(op, Ask, BestOf(b1, Ask))
  }

  lemma StayingLevels(b: Book, gap1: seq<Op>, gap2: seq<Op>, gap3: seq<Op>)
    ensures BidStays(b, gap1, gap2) ==> BestOf(b, Bid) in Run(b, gap1 + gap2).bids
    ensures AskStays(b, gap1, gap2, gap3) ==> BestOf(Run(b, gap1), Ask) in Run(b, gap1 + gap2 + gap3).asks
  {
    var b1 := Run(b, gap1);
    if BidStays(b, gap1, gap2) {
      BestIs(Bid, b.bids);
      LevelStays(b, gap1 + gap2, Bid, BestOf(b, Bid));
    }
    if AskStays(b, gap1, gap2, gap3) {
      BestIs(Ask, b1.asks);
      LevelStays(b1, gap2 + gap3, Ask, BestOf(b1, Ask));
      RunConcat(b, gap1, gap2 + gap3);
      assert gap1 + (gap2 + gap3) == gap1 + gap2 + gap3;
    }
  }

  /** If no write brings a zero size, each size is non-zero as long as its level stays. */
  lemma TornUpdateHasSizes(b: Book, gap1: seq<Op>, gap2: seq<Op>, gap3: seq<Op>, d: OrderBookDelta)
    requires NoZeroLevel(b) && forall op | op in gap1 + gap2 + gap3 :: NoZeroOp(op)
    ensures var u := TornUpdate(b, gap1, gap2, gap3, d);
            && (BidStays(b, gap1, gap2) ==> u.bidSize != 0.0)
            && (AskStays(b, gap1, gap2, gap3) ==> u.askSize != 0.0)
  {
    StayingLevels(b, gap1, gap2, gap3);
    TornSizeIsZeroIffGone(b, gap1, gap2, gap3, d);
  }

  /** What a delta handler publishes in a run of the whole engine whose steps so far are `past`, when
      the steps `log1`, `log2` and `log3` run between its four reads. */
  ghost function PublishedIn(books: Books, past: seq<Step>, log1: seq<Step>, log2: seq<Step>, log3: seq<Step>,
                             d: OrderBookDelta): MarketUpdate
    requires d.symbol in books
  {
    var s := d.symbol;
    StepsProjectAt(books, past, s);
    StepsProjectAt(books, past + log1, s);
    StepsProjectAt(books, past + log1 + log2, s);
    StepsProjectAt(books, past + log1 + log2 + log3, s);
    var bid := BestOf(RunSteps(books, past)[s], Bid);
    var ask := BestOf(RunSteps(books, past + log1)[s], Ask);
    MarketUpdate(
      s,
      bid, ValueAt(RunSteps(books, past + log1 + log2)[s].bids, bid),
      ask, ValueAt(RunSteps(books, past + log1 + log2 + log3)[s].asks, ask),
      d.timestamp, false)
  }

  lemma PublishedIsTorn(books: Books, past: seq<Step>, log1: seq<Step>, log2: seq<Step>, log3: seq<Step>,
                        d: OrderBookDelta)
    requires d.symbol in books
    ensures PublishedIn(books, past, log1, log2, log3, d)
         == TornUpdate(Run(books[d.symbol], OpsFor(past, d.symbol)),
                       OpsFor(log1, d.symbol), OpsFor(log2, d.symbol), OpsFor(log3, d.symbol), d)
  {
    var s := d.symbol;
    var b := books[s];
    StepsProjectAt(books, past, s);
    StepsProjectAt(books, past + log1, s);
    StepsProjectAt(books, past + log1 + log2, s);
    StepsProjectAt(books, past + log1 + log2 + log3, s);
    SelectConcat(past, log1, AddressedTo(s), OpOf);
    SelectConcat(past + log1, log2, AddressedTo(s), OpOf);
    SelectConcat(past + log1 + log2, log3, AddressedTo(s), OpOf);
    RunConcat(b, OpsFor(past, s), OpsFor(log1, s));
    RunConcat(b, OpsFor(past + log1, s), OpsFor(log2, s));
    RunConcat(b, OpsFor(past + log1 + log2, s), OpsFor(log3, s));
  }

  predicate KeepsLevelOf(step: Step, symbol: string, side: Side, p: Price) {
    step.symbol == symbol ==> KeepsLevel(step.op, side, p)
  }

  lemma KeepsLevelFor(log: seq<Step>, symbol: string, side: Side, p: Price)
    requires forall step | step in log :: KeepsLevelOf(step, symbol, side, p)
    ensures forall op | op in OpsFor(log, symbol) :: KeepsLevel(op, side, p)
  {
    if log != [] {
      assert log[|log| - 1] in log;
      KeepsLevelFor(log[..|log| - 1], symbol, side, p);
    }
  }

  /** In any run of the engine without crossed snapshots, over any symbols and with any number of
      handlers interleaving, a delta handler that finds both sides non-empty publishes an uncrossed
      update, unless its bid is removed or its book replaced between the two price reads. */
  lemma PublishedIsUncrossed(books: Books, messages: seq<Message>, past: seq<Step>, log1: seq<Step>, log2: seq<Step>,
                             log3: seq<Step>, d: OrderBookDelta)
    requires d.symbol in books && Uncrossed(books[d.symbol])
    requires MadeBy(past, messages) && forall m | m in messages :: UncrossedMessage(m)
    requires Run(books[d.symbol], OpsFor(past, d.symbol)).bids != map[]
    requires Run(books[d.symbol], OpsFor(past + log1, d.symbol)).asks != map[]
    requires var u := PublishedIn(books, past, log1, log2, log3, d);
             forall step | step in log1 :: KeepsLevelOf(step, d.symbol, Bid, u.bidPrice)
    ensures var u := PublishedIn(books, past, log1, log2, log3, d);
            u.bidPrice < u.askPrice
  {
    var s, u := d.symbol, PublishedIn(books, past, log1, log2, log3, d);
    PublishedIsTorn(books, past, log1, log2, log3, d);
    SelectConcat(past, log1, AddressedTo(s), OpOf);
    RunConcat(books[s], OpsFor(past, s), OpsFor(log1, s));
    KeepsLevelFor(log1, s, Bid, u.bidPrice);
    MadeByUncrossed(past, messages, s);
    UncrossedRun(books[s], OpsFor(past, s));
    TornUpdateIsUncrossed(Run(books[s], OpsFor(past, s)), OpsFor(log1, s), OpsFor(log2, s), OpsFor(log3, s), d);
  }

  /** Even if that bid is removed or the book replaced: the update is uncrossed as long as a bid at
      least as high is there when the best ask is read. */
  lemma PublishedWhileBacked(books: Books, messages: seq<Message>, past: seq<Step>, log1: seq<Step>, log2: seq<Step>,
                             log3: seq<Step>, d: OrderBookDelta, q: Price)
    requires d.symbol in books && Uncrossed(books[d.symbol])
    requires MadeBy(past + log1, messages) && forall m | m in messages :: UncrossedMessage(m)
    requires var now := Run(books[d.symbol], OpsFor(past + log1, d.symbol));
             now.asks != map[] && q in now.bids && PublishedIn(books, past, log1, log2, log3, d).bidPrice <= q
    ensures var u := PublishedIn(books, past, log1, log2, log3, d);
            u.bidPrice < u.askPrice
  {
    var s := d.symbol;
    var now := Run(books[s], OpsFor(past + log1, s));
    StepsProjectAt(books, past + log1, s);
    MadeByUncrossed(past + log1, messages, s);
    UncrossedRun(books[s], OpsFor(past + log1, s));
    BestIs(Ask, now.asks);
  }

  /** In any run without zero sizes in a snapshot, each published size is zero exactly when its level
      was gone by the time the size was read, whatever became of the other side. */
  lemma PublishedSizeIsZeroIffGone(books: Books, messages: seq<Message>, past: seq<Step>, log1: seq<Step>,
                                   log2: seq<Step>, log3: seq<Step>, d: OrderBookDelta)
    requires d.symbol in books && NoZeroLevel(books[d.symbol])
    requires MadeBy(past + log1 + log2 + log3, messages) && forall m | m in messages :: NoZeroMessage(m)
    ensures var s, u := d.symbol, PublishedIn(books, past, log1, log2, log3, d);
            && (u.bidSize == 0.0 <==> u.bidPrice !in Run(books[s], OpsFor(past + log1 + log2, s)).bids)
            && (u.askSize == 0.0 <==> u.askPrice !in Run(books[s], OpsFor(past + log1 + log2 + log3, s)).asks)
  {
    var s, u := d.symbol, PublishedIn(books, past, log1, log2, log3, d);
    assert forall step | step in past + log1 + log2 :: step in past + log1 + log2 + log3;
    SizeReadIn(books, messages, past + log1 + log2, s, Bid, u.bidPrice);
    SizeReadIn(books, messages, past + log1 + log2 + log3, s, Ask, u.askPrice);
  }

  lemma SizeReadIn(books: Books, messages: seq<Message>, log: seq<Step>, s: string, side: Side, p: Price)
    requires s in books && NoZeroLevel(books[s])
    requires MadeBy(log, messages) && forall m | m in messages :: NoZeroMessage(m)
    ensures s in RunSteps(books, log)
    ensures ValueAt(RunSteps(books, log)[s].On(side), p) == 0.0 <==> p !in Run(books[s], OpsFor(log, s)).On(side)
  {
    StepsProjectAt(books, log, s);
    MadeByNoZero(log, messages, s);
    NoZeroRun(books[s], OpsFor(log, s));
  }

  /** In particular each size is non-zero if its side was not empty and its level stays until then. */
  lemma PublishedHasSizes(books: Books, messages: seq<Message>, past: seq<Step>, log1: seq<Step>, log2: seq<Step>,
                          log3: seq<Step>, d: OrderBookDelta)
    requires d.symbol in books && NoZeroLevel(books[d.symbol])
    requires MadeBy(past + log1 + log2 + log3, messages) && forall m | m in messages :: NoZeroMessage(m)
    ensures var s, u := d.symbol, PublishedIn(books, past, log1, log2, log3, d);
            && (Run(books[s], OpsFor(past, s)).bids != map[]
                && (forall step | step in log1 + log2 :: KeepsLevelOf(step, s, Bid, u.bidPrice)) ==>
                  u.bidSize != 0.0)
            && (Run(books[s], OpsFor(past + log1, s)).asks != map[]
                && (forall step | step in log2 + log3 :: KeepsLevelOf(step, s, Ask, u.askPrice)) ==>
                  u.askSize != 0.0)
  {
    var s := d.symbol;
    PublishedSizeIsZeroIffGone(books, messages, past, log1, log2, log3, d);
    StepsProjectAt(books, past, s);
    StepsProjectAt(books, past + log1, s);
    assert past + log1 + log2 == past + (log1 + log2);
    assert past + log1 + log2 + log3 == past + log1 + (log2 + log3);
    BestStaysIn(books[s], past, log1 + log2, s, Bid);
    BestStaysIn(books[s], past + log1, log2 + log3, s, Ask);
  }

  lemma BestStaysIn(b: Book, past: seq<Step>, log: seq<Step>, s: string, side: Side)
    ensures var now := Run(b, OpsFor(past, s));
            now.On(side) != map[] && (forall step | step in log :: KeepsLevelOf(step, s, side, BestOf(now, side))) ==>
              BestOf(now, side) in Run(b, OpsFor(past + log, s)).On(side)
  {
    var now := Run(b, OpsFor(past, s));
    if now.On(side) != map[] && forall step | step in log :: KeepsLevelOf(step, s, side, BestOf(now, side)) {
      BestIs(side, now.On(side));
      KeepsLevelFor(log, s, side, BestOf(now, side));
      LevelStays(now, OpsFor(log, s), side, BestOf(now, side));
      SelectConcat(past, log, AddressedTo(s), OpOf);
      RunConcat(b, OpsFor(past, s), OpsFor(log, s));
    }
  }

  /** The update a snapshot handler publishes.  Fields of an empty side keep whatever the
      uninitialised local variable held.  The bids are read from an ascending map. */
  ghost function SnapshotUpdate(s: OrderBookSnapshot, uninitialised: MarketUpdate): MarketUpdate {
    var bids, asks := ToMap(s.bids), ToMap(s.asks);
    var bid, ask := Best(Ask, bids), Best(Ask, asks);
    MarketUpdate(
      s.symbol,
      if bids != map[] then bid else uninitialised.bidPrice,
      if bids != map[] then ValueAt(bids, bid) else uninitialised.bidSize,
      if asks != map[] then ask else uninitialised.askPrice,
      if asks != map[] then ValueAt(asks, ask) else uninitialised.askSize,
      s.timestamp,
      true)
  }

  /** The update names the snapshot's symbol and time and is flagged as a snapshot.  The ask fields are
      the best ask of the new book.  The bid fields are its lowest bid, which is the best bid exactly
      when the snapshot lists a single bid price.  Fields of an empty side are whatever was there. */
  lemma SnapshotPublishes(b: Book, s: OrderBookSnapshot, uninitialised: MarketUpdate)
    ensures var after := Run(b, SnapshotMessage(s).Writes());
            var u := SnapshotUpdate(s, uninitialised);
            && after == Book(ToMap(s.bids), ToMap(s.asks))
            && u.symbol == s.symbol && u.timestamp == s.timestamp && u.isSnapshot
            && (s.asks == [] ==> u.askPrice == uninitialised.askPrice && u.askSize == uninitialised.askSize)
            && (s.bids == [] ==> u.bidPrice == uninitialised.bidPrice && u.bidSize == uninitialised.bidSize)
            && (s.asks != [] ==> u.askPrice == BestOf(after, Ask) && IsBest(Ask, after.asks, u.askPrice)
                                 && u.askSize == after.asks[u.askPrice])
            && (s.bids != [] ==> u.bidPrice in after.bids && u.bidSize == after.bids[u.bidPrice]
                                 && (forall p | p in after.bids :: u.bidPrice <= p)
                                 && (u.bidPrice == BestOf(after, Bid)
                                     <==> forall x, y | x in s.bids && y in s.bids :: x.price == y.price))
  {
    var after := Run(b, SnapshotMessage(s).Writes());
    RunOne(b, SetSnapshot(ToMap(s.bids), ToMap(s.asks)));
    assert after == Book(ToMap(s.bids), ToMap(s.asks));
    if s.asks != [] {
      ToMapKeys(s.asks, s.asks[0].price);
      BestIs(Ask, after.asks);
    }
    if s.bids != [] {
      ToMapKeys(s.bids, s.bids[0].price);
      BestIs(Ask, after.bids);
      BestIs(Bid, after.bids);
      LowestIsBest(s.bids);
    }
  }

  /** A snapshot of two bids publishes the lower one, which is not the best bid of the new book. */
  lemma SnapshotPublishesWorstBid(b: Book, uninitialised: MarketUpdate)
    ensures var s := OrderBookSnapshot("BTC-USD", [Level(10.0, 1.0), Level(11.0, 1.0)], [], 0);
            var u := SnapshotUpdate(s, uninitialised);
            u.bidPrice == 10.0 && BestOf(Run(b, SnapshotMessage(s).Writes()), Bid) == 11.0
  {
    var low, high := Level(10.0, 1.0), Level(11.0, 1.0);
    var s := OrderBookSnapshot("BTC-USD", [low, high], [], 0);
    RunOne(b, SetSnapshot(ToMap(s.bids), ToMap(s.asks)));
    assert [low, high][..1] == [low] && [low][..0] == [];
    var m := ToMap(s.bids);
    assert ToMap([low]) == map[10.0 := 1.0] && m == ToMap([low])[11.0 := 1.0];
    assert 10.0 in m && 11.0 in m;
    BestIs(Ask, m);
    BestIs(Bid, m);
  }

  lemma LowestIsBest(levels: seq<Level>)
    requires levels != [] && ToMap(levels) != map[]
    ensures Best(Ask, ToMap(levels)) == Best(Bid, ToMap(levels))
       <==> forall x, y | x in levels && y in levels :: x.price == y.price
  {
    var m := ToMap(levels);
    var low, high := Best(Ask, m), Best(Bid, m);
    BestIs(Ask, m);
    BestIs(Bid, m);
    ToMapKeys(levels, low);
    ToMapKeys(levels, high);
    var i :| 0 <= i < |levels| && levels[i].price == low;
    var j :| 0 <= j < |levels| && levels[j].price == high;
    assert levels[i] in levels && levels[j] in levels;
    if low == high {
      forall x | x in levels
        ensures x.price == low
      {
        ToMapKeys(levels, x.price);
      }
    }
  }
}
