/** The market data engine as the program keeps it: one shared book per symbol, the update queue and
    the dispatcher.  Each method is proved against the step functions of `Feed` and `Dispatch`. */
module Engine {
  import opened Levels
  import opened Messages
  import opened BookSpec
  import opened OrderBooks
  import opened Delta
  import opened Feed
  import opened Dispatch
  import Pipeline

  ghost predicate AllValid(books: map<string, OrderBook>)
    reads books.Values
  {
    forall s | s in books :: books[s].Valid()
  }

  ghost predicate Distinct(books: map<string, OrderBook>) {
    forall s, t | s in books && t in books && s != t :: books[s] != books[t]
  }

  ghost function Views(books: map<string, OrderBook>): Books
    reads books.Values
  {
    map s | s in books :: books[s].View()
  }

  /** Empty books, one for each symbol. */
  ghost predicate AllNew(created: map<string, OrderBook>)
    reads created.Values
  {
    Distinct(created) && forall s | s in created :: created[s].bids == [] && created[s].asks == []
  }

  lemma OneMoreNew(created: map<string, OrderBook>, symbol: string, book: OrderBook)
    requires AllNew(created) && book.bids == [] && book.asks == []
    requires forall s | s in created :: created[s] != book
    ensures AllNew(created[symbol := book])
  {
  }

  lemma NewViews(created: map<string, OrderBook>)
    requires AllNew(created)
    ensures AllValid(created) && Views(created) == map s | s in created :: EMPTY_BOOK
  {
  }

  lemma MergeBooks(before: map<string, OrderBook>, created: map<string, OrderBook>)
    requires AllValid(before) && Distinct(before) && AllNew(created)
    requires forall s, t | s in before && t in created :: before[s] != created[t]
    ensures AllValid(before + created) && Distinct(before + created)
    ensures Views(before + created) == Views(before) + map s | s in created :: EMPTY_BOOK
  {
    NewViews(created);
    MergeDistinct(before, created);
    MergeViews(before, created);
  }

  lemma MergeDistinct(before: map<string, OrderBook>, created: map<string, OrderBook>)
    requires Distinct(before) && Distinct(created)
    requires forall s, t | s in before && t in created :: before[s] != created[t]
    ensures Distinct(before + created)
  {
  }

  lemma MergeViews(before: map<string, OrderBook>, created: map<string, OrderBook>)
    requires AllValid(before) && AllValid(created)
    ensures AllValid(before + created) && Views(before + created) == Views(before) + Views(created)
  {
  }

  /** What the engine sets in an exchange adapter: the engine whose handlers get its messages. */
  class ExchangeAdapter {
    var orderBookCallback: MarketDataEngine?
    var orderBookDeltaCallback: MarketDataEngine?

    constructor ()
      ensures orderBookCallback == null && orderBookDeltaCallback == null
    {
      orderBookCallback, orderBookDeltaCallback := null, null;
    }
  }

  /** A message on its way to a handler, with the thread that brings it. */
  datatype Arrival = Arrival(producer: Producer, job: Pipeline.Job)

  function MessagesOf(arrivals: seq<Arrival>): seq<Message> {
    seq(|arrivals|, i requires 0 <= i < |arrivals| => arrivals[i].job.message)
  }

  /** How many actions a dispatcher that was told to stop has left, at most. */
  function ToExit(dispatcher: Dispatcher): nat {
    match dispatcher case Exited => 0 case AtGuard => 1 case AtDequeue => 3 case Holding(_) => 2
  }

  /** What the dispatcher loop does next, when the queue offers the update at `index`. */
  function ActionAt(dispatcher: Dispatcher, queue: seq<Entry>, index: nat): Dispatch.Step
    requires !dispatcher.Exited?
  {
    match dispatcher
    case AtGuard => Guard
    case AtDequeue => if Oldest(queue, index) then Dequeue(index) else DequeueFails
    case Holding(_) => Notify
  }

  /** The queue may offer this update: it is the oldest pending one of its producer. */
  predicate Offers(queue: seq<Entry>, index: nat) {
    index < |queue| && forall i | 0 <= i < index :: queue[i].from != queue[index].from
  }

  /** Every step of the loop is one of the actions that decide when the dispatcher is done; it is a
      spurious failure exactly if something is in the queue but the update offered is not the oldest
      of its producer, or there is none at that place. */
  lemma LoopStepCounts(s: State, index: nat)
    requires !s.dispatcher.Exited?
    ensures var steps := [ActionAt(s.dispatcher, s.queue, index)];
            && Actions(s, steps) == 1
            && Spurious(s, steps)
               == if s.dispatcher.AtDequeue? && s.queue != [] && !Offers(s.queue, index) then 1 else 0
  {
    var steps := [ActionAt(s.dispatcher, s.queue, index)];
    assert steps[..|steps| - 1] == [];
    assert Exec(s, []) == s && Turns(s, []) == Failures(s, []) == Spurious(s, []) == 0;
    assert IsTurn(s, steps[0]) <==> !(steps[0].DequeueFails? && s.dispatcher.AtDequeue?);
  }

  class MarketDataEngine {
    const adapters: seq<ExchangeAdapter>
    var orderBooks: map<string, OrderBook>
    var running: bool
    var updateCallback: bool
    var receiverThreads: seq<ExchangeAdapter> // one thread for each listed adapter
    var dispatcher: Dispatcher
    var updateQueue: seq<Entry>
    ghost var enqueued: seq<Entry>  // every update ever enqueued
    ghost var handled: seq<Outcome> // every update taken off the queue; the delivered ones went to the callback

    /** Every symbol has a book of its own. */
    ghost predicate BooksValid()
      reads this`orderBooks, orderBooks.Values
    {
      AllValid(orderBooks) && Distinct(orderBooks)
    }

    /** Holds at all times, also while `stop` waits: no update is lost, and none out of its producer's order. */
    ghost predicate Consistent()
      reads this, orderBooks.Values
    {
      BooksValid() && Conserved(Pipe())
    }

    /** A step of the queue that leaves the books alone keeps the engine consistent. */
    twostate lemma StaysConsistent(step: Dispatch.Step)
      requires old(Consistent()) && orderBooks == old(orderBooks) && Books() == old(Books())
      requires forall s | s in orderBooks :: unchanged(orderBooks[s])
      requires Pipe() == Next(old(Pipe()), step)
      ensures Consistent()
    {
      ConservedStep(old(Pipe()), step);
    }

    /** Holds whenever neither `initialize` nor `stop` is at work. */
    ghost predicate Valid()
      reads this, orderBooks.Values
    {
      && Consistent()
      && (running <==> !dispatcher.Exited?)
      && receiverThreads == if running then adapters else []
    }

    /** The books of all symbols. */
    ghost function Books(): Books
      reads this`orderBooks, orderBooks.Values
    {
      Views(orderBooks)
    }

    ghost function Pipe(): State
      reads this`running, this`updateCallback, this`dispatcher, this`updateQueue, this`enqueued, this`handled
    {
      State(running, updateCallback, dispatcher, updateQueue, enqueued, handled)
    }

    constructor (adapters: seq<ExchangeAdapter>)
      ensures Valid() && Books() == map[] && Pipe() == INITIAL && this.adapters == adapters
    {
      this.adapters := adapters;
      orderBooks := map[];
      running, updateCallback, receiverThreads, dispatcher, updateQueue := false, false, [], Exited, [];
      enqueued, handled := [], [];
      new;
      assert Pipe() == INITIAL;
      InitiallyConserved();
    }

    method RegisterCallback(present: bool)
      requires Consistent()
      modifies this`updateCallback
      ensures Consistent() && (old(Valid()) ==> Valid())
      ensures updateCallback == present && Pipe() == old(Pipe()).(callback := present)
      ensures Books() == old(Books()) && Pipe() == Next(old(Pipe()), SetCallback(present))
    {
      ReplaceCallback(present);
      StaysConsistent(SetCallback(present));
    }

    method ReplaceCallback(present: bool)
      modifies this`updateCallback
      ensures updateCallback == present && Pipe() == Next(old(Pipe()), SetCallback(present))
    {
      updateCallback := present;
    }

    /** Gives every listed symbol a new empty book; books of other symbols stay. */
    method Initialize(symbols: seq<string>) returns (ghost created: map<string, OrderBook>)
      requires Valid()
      modifies this`orderBooks, this`running, this`receiverThreads, this`dispatcher, adapters
      ensures Valid() && running && Pipe() == Next(old(Pipe()), Dispatch.Initialize)
      ensures Pipe() == if old(running) then old(Pipe()) else old(Pipe()).(running := true, dispatcher := AtGuard)
      ensures old(running) ==> orderBooks == old(orderBooks) && Books() == old(Books())
      ensures old(running) ==> forall a | a in adapters :: unchanged(a)
      ensures !old(running) ==> orderBooks == old(orderBooks) + created && created.Keys == set s | s in symbols
      ensures !old(running) ==> fresh(created.Values)
      ensures !old(running) ==> Books() == old(Books()) + map s | s in created :: EMPTY_BOOK
      ensures !old(running) ==> Registered()
    {
      if running {
        created := map[];
        return;
      }
      created := SetUp(symbols);
      Launch();
    }

    method SetUp(symbols: seq<string>) returns (ghost created: map<string, OrderBook>)
      requires Consistent()
      modifies this`orderBooks, adapters
      ensures Consistent() && Registered() && fresh(created.Values) && Pipe() == old(Pipe())
      ensures orderBooks == old(orderBooks) + created && created.Keys == set s | s in symbols
      ensures Books() == old(Books()) + map s | s in created :: EMPTY_BOOK
    {
      created := AddBooks(symbols);
      RegisterHandlers();
    }

    method Launch()
      requires Valid() && !running
      modifies this`running, this`receiverThreads, this`dispatcher
      ensures Valid() && running && Books() == old(Books())
      ensures Pipe() == Next(old(Pipe()), Dispatch.Initialize) == old(Pipe()).(running := true, dispatcher := AtGuard)
    {
      StartThreads();
      StaysConsistent(Dispatch.Initialize);
    }

    /** Every adapter passes its messages to this engine. */
    predicate Registered()
      reads adapters
    {
      forall a | a in adapters :: a.orderBookCallback == this && a.orderBookDeltaCallback == this
    }

    method RegisterHandlers()
      requires Consistent()
      modifies adapters
      ensures Consistent() && Registered() && Books() == old(Books()) && Pipe() == old(Pipe())
    {
      for i := 0 to |adapters|
        invariant forall a | a in adapters[..i] :: a.orderBookCallback == this && a.orderBookDeltaCallback == this
      {
        var adapter := adapters[i];
        adapter.orderBookCallback := this;
        adapter.orderBookDeltaCallback := this;
      }
    }

    method StartThreads()
      requires !running && dispatcher.Exited? && receiverThreads == []
      modifies this`running, this`receiverThreads, this`dispatcher
      ensures running && receiverThreads == adapters && dispatcher.AtGuard?
      ensures Pipe() == Next(old(Pipe()), Dispatch.Initialize) == old(Pipe()).(running := true, dispatcher := AtGuard)
    {
      running := true;
      for i := 0 to |adapters|
        invariant running && receiverThreads == adapters[..i]
      {
        receiverThreads := receiverThreads + [adapters[i]];
      }
      assert adapters[..|adapters|] == adapters;
      dispatcher := AtGuard;
    }

    method AddBooks(symbols: seq<string>) returns (ghost created: map<string, OrderBook>)
      requires Consistent()
      modifies this`orderBooks
      ensures Consistent() && fresh(created.Values) && Pipe() == old(Pipe())
      ensures orderBooks == old(orderBooks) + created && created.Keys == set s | s in symbols
      ensures Books() == old(Books()) + map s | s in created :: EMPTY_BOOK
    {
      created := CreateBooks(symbols);
      MergeBooks(old(orderBooks), created);
    }

    method CreateBooks(symbols: seq<string>) returns (ghost created: map<string, OrderBook>)
      modifies this`orderBooks
      ensures orderBooks == old(orderBooks) + created && created.Keys == set s | s in symbols
      ensures AllNew(created) && forall s | s in created :: fresh(created[s])
    {
      created := map[];
      for i := 0 to |symbols|
        invariant orderBooks == old(orderBooks) + created
        invariant created.Keys == set s | s in symbols[..i]
        invariant AllNew(created) && forall s | s in created :: fresh(created[s])
      {
        assert symbols[..i + 1] == symbols[..i] + [symbols[i]];
        var book := CreateBook(symbols[i], created);
        created := created[symbols[i] := book];
      }
      assert symbols[..|symbols|] == symbols;
    }

    method CreateBook(symbol: string, ghost created: map<string, OrderBook>) returns (book: OrderBook)
      requires AllNew(created)
      modifies this`orderBooks
      ensures fresh(book) && orderBooks == old(orderBooks)[symbol := book] && AllNew(created[symbol := book])
    {
      book := new OrderBook(symbol);
      OneMoreNew(created, symbol, book);
      orderBooks := orderBooks[symbol := book];
    }

    /** Clears the flag and waits until the dispatcher has left its loop.  Meanwhile the first `count` of
        the `arrivals` reach their handlers; `steps` is what happens to the queue. */
    method Stop(arrivals: seq<Arrival>) returns (ghost steps: seq<Dispatch.Step>, count: nat)
      requires Valid()
      modifies this`running, this`receiverThreads, this`dispatcher, this`updateQueue, this`enqueued, this`handled
      modifies orderBooks.Values
      ensures Valid() && !running && count <= |arrivals|
      ensures Since(old(Books()), Next(old(Pipe()), RequestStop), MessagesOf(arrivals[..count]), steps)
      ensures old(handled) <= handled && |handled| <= |old(handled)| + 1
      ensures !old(running) ==> Pipe() == old(Pipe()) && Books() == old(Books()) && count == 0
    {
      steps, count := [], 0;
      if !running {
        assert Next(Pipe(), RequestStop) == Pipe() && MessagesOf(arrivals[..0]) == [];
        return;
      }
      ClearFlag();
      steps, count := AwaitDispatcher(arrivals);
    }

    method ClearFlag()
      requires Consistent()
      modifies this`running, this`receiverThreads
      ensures Consistent() && !running && receiverThreads == []
      ensures Books() == old(Books()) && Pipe() == Next(old(Pipe()), RequestStop)
    {
      receiverThreads := [];
      SetRunning(false);
      StaysConsistent(RequestStop);
    }

    method SetRunning(value: bool)
      modifies this`running
      ensures running == value && Pipe() == old(Pipe()).(running := value)
    {
      running := value;
    }

    /** What happened since the books were `books` and the queue `pipe`. */
    ghost predicate Since(books: Books, pipe: State, messages: seq<Message>, steps: seq<Dispatch.Step>)
      reads this, orderBooks.Values
    {
      && Books() == HandleAll(books, messages) && Pipe() == Exec(pipe, steps)
      && forall step | step in steps :: step.IsDispatchers() || step.Enqueue?
    }

    method AwaitDispatcher(arrivals: seq<Arrival>) returns (ghost steps: seq<Dispatch.Step>, count: nat)
      requires Consistent() && !running
      modifies this`dispatcher, this`updateQueue, this`enqueued, this`handled, orderBooks.Values
      ensures Consistent() && dispatcher.Exited? && count <= |arrivals|
      ensures Since(old(Books()), old(Pipe()), MessagesOf(arrivals[..count]), steps)
      ensures old(handled) <= handled && |handled| <= |old(handled)| + 1
    {
      steps, count := [], 0;
      ghost var books, pipe := Books(), Pipe();
      while !dispatcher.Exited?
        invariant Consistent() && count <= |arrivals|
        invariant Since(books, pipe, MessagesOf(arrivals[..count]), steps)
        decreases |arrivals| - count, ToExit(dispatcher)
      {
        var arrives: bool := *;
        if arrives && count < |arrivals| {
          steps := ArrivalWhileWaiting(books, pipe, steps, arrivals, count);
          count := count + 1;
        } else {
          steps := StepWhileWaiting(books, pipe, MessagesOf(arrivals[..count]), steps);
        }
      }
      StopStrands(pipe, steps);
    }

    method ArrivalWhileWaiting(ghost books: Books, ghost pipe: State, ghost steps: seq<Dispatch.Step>,
                               arrivals: seq<Arrival>, count: nat)
      returns (ghost more: seq<Dispatch.Step>)
      requires Consistent() && count < |arrivals|
      requires Since(books, pipe, MessagesOf(arrivals[..count]), steps)
      modifies this`updateQueue, this`enqueued, orderBooks.Values
      ensures Consistent() && Since(books, pipe, MessagesOf(arrivals[..count + 1]), more)
    {
      ghost var last := HandleArrival(arrivals[count]);
      ExecConcat(pipe, steps, last);
      NextMessage(books, arrivals, count);
      more := steps + last;
    }

    method StepWhileWaiting(ghost books: Books, ghost pipe: State, ghost messages: seq<Message>,
                            ghost steps: seq<Dispatch.Step>)
      returns (ghost more: seq<Dispatch.Step>)
      requires Consistent() && !running && !dispatcher.Exited?
      requires Since(books, pipe, messages, steps)
      modifies this`dispatcher, this`updateQueue, this`handled
      ensures Consistent() && Since(books, pipe, messages, more)
      ensures ToExit(dispatcher) < ToExit(old(dispatcher))
    {
      var index: nat := *;
      ghost var now := Pipe();
      ghost var step := DispatcherStep(index);
      OneMoreStep(pipe, steps, now, step);
      more := steps + [step];
    }

    /** One action of the dispatcher loop; `index` is the update the queue happens to offer. */
    method DispatcherStep(index: nat) returns (ghost step: Dispatch.Step)
      requires Consistent() && !dispatcher.Exited?
      modifies this`dispatcher, this`updateQueue, this`handled
      ensures Consistent() && Books() == old(Books()) && Pipe() == Next(old(Pipe()), step)
      ensures !running ==> ToExit(dispatcher) < ToExit(old(dispatcher))
      ensures step == ActionAt(old(dispatcher), old(updateQueue), index)
      ensures old(dispatcher).AtGuard? ==>
                dispatcher == (if running then AtDequeue else Exited)
                && updateQueue == old(updateQueue) && handled == old(handled)
      ensures old(dispatcher).AtDequeue? && Offers(old(updateQueue), index) ==>
                dispatcher == Holding(old(updateQueue)[index]) && handled == old(handled)
                && updateQueue == old(updateQueue)[..index] + old(updateQueue)[index + 1..]
      ensures old(dispatcher).AtDequeue? && !Offers(old(updateQueue), index) ==>
                dispatcher.AtGuard? && updateQueue == old(updateQueue) && handled == old(handled)
      ensures old(dispatcher).Holding? ==>
                dispatcher.AtGuard? && updateQueue == old(updateQueue)
                && handled == old(handled) + [Outcome(old(dispatcher).entry, updateCallback)]
    {
      step := LoopAction(index);
      StaysConsistent(step);
    }

    method LoopAction(index: nat) returns (ghost step: Dispatch.Step)
      requires !dispatcher.Exited?
      modifies this`dispatcher, this`updateQueue, this`handled
      ensures Pipe() == Next(old(Pipe()), step)
      ensures !running ==> ToExit(dispatcher) < ToExit(old(dispatcher))
      ensures step == ActionAt(old(dispatcher), old(updateQueue), index)
      ensures old(dispatcher).AtGuard? ==>
                dispatcher == (if running then AtDequeue else Exited)
                && updateQueue == old(updateQueue) && handled == old(handled)
      ensures old(dispatcher).AtDequeue? && Offers(old(updateQueue), index) ==>
                dispatcher == Holding(old(updateQueue)[index]) && handled == old(handled)
                && updateQueue == old(updateQueue)[..index] + old(updateQueue)[index + 1..]
      ensures old(dispatcher).AtDequeue? && !Offers(old(updateQueue), index) ==>
                dispatcher.AtGuard? && updateQueue == old(updateQueue) && handled == old(handled)
      ensures old(dispatcher).Holding? ==>
                dispatcher.AtGuard? && updateQueue == old(updateQueue)
                && handled == old(handled) + [Outcome(old(dispatcher).entry, updateCallback)]
    {
      match dispatcher {
        case AtGuard =>
          step := Guard;
          dispatcher := if running then AtDequeue else Exited;
        case AtDequeue =>
          if Oldest(updateQueue, index) {
            step := Dequeue(index);
            dispatcher := Holding(updateQueue[index]);
            updateQueue := updateQueue[..index] + updateQueue[index + 1..];
          } else {
            step := DequeueFails;
            dispatcher := AtGuard;
          }
        case Holding(entry) =>
          step := Notify;
          handled := handled + [Outcome(entry, updateCallback)];
          dispatcher := AtGuard;
      }
    }

    /** One pass of the loop that finds something: the front of the queue is handed over. */
    method HandOverFront()
      requires Consistent() && running && dispatcher.AtGuard? && updateQueue != []
      modifies this`dispatcher, this`updateQueue, this`handled
      ensures Consistent() && Books() == old(Books()) && dispatcher.AtGuard?
      ensures updateQueue == old(updateQueue)[1..]
      ensures handled == old(handled) + [Outcome(old(updateQueue)[0], updateCallback)]
    {
      TakeFront();
      ghost var _ := DispatcherStep(0);
    }

    method TakeFront()
      requires Consistent() && running && dispatcher.AtGuard? && updateQueue != []
      modifies this`dispatcher, this`updateQueue, this`handled
      ensures Consistent() && Books() == old(Books()) && dispatcher == Holding(old(updateQueue)[0])
      ensures updateQueue == old(updateQueue)[1..] && handled == old(handled)
    {
      ghost var _ := DispatcherStep(0);
      ghost var _ := DispatcherStep(0);
    }

    /** The loop goes on: all that was pending is handed over, in the order it was offered. */
    method HandOverPending()
      requires Consistent() && running && dispatcher.AtGuard?
      modifies this`dispatcher, this`updateQueue, this`handled
      ensures Consistent() && Books() == old(Books()) && dispatcher.AtGuard? && updateQueue == []
      ensures old(handled) <= handled && Entries(handled) == Entries(old(handled)) + old(updateQueue)
      ensures forall i | |old(handled)| <= i < |handled| :: handled[i].delivered == updateCallback
    {
      while updateQueue != []
        invariant Consistent() && Books() == old(Books()) && dispatcher.AtGuard? && old(handled) <= handled
        invariant Entries(handled) + updateQueue == Entries(old(handled)) + old(updateQueue)
        invariant forall i | |old(handled)| <= i < |handled| :: handled[i].delivered == updateCallback
        decreases |updateQueue|
      {
        OneMoreEntry(handled, updateQueue, updateCallback);
        HandOverFront();
      }
    }

    method GetOrderBook(symbol: string) returns (book: OrderBook?)
      ensures book == if symbol in orderBooks then orderBooks[symbol] else null
      ensures book != null ==> book in orderBooks.Values
    {
      if symbol in orderBooks {
        return orderBooks[symbol];
      }
      return null;
    }

    method EnqueueUpdate(producer: Producer, update: MarketUpdate)
      requires Consistent()
      modifies this`updateQueue, this`enqueued
      ensures Consistent() && Books() == old(Books())
      ensures updateQueue == old(updateQueue) + [Entry(producer, update)]
      ensures enqueued == old(enqueued) + [Entry(producer, update)]
      ensures Pipe() == Next(old(Pipe()), Enqueue(Entry(producer, update)))
    {
      Push(Entry(producer, update));
      StaysConsistent(Enqueue(Entry(producer, update)));
    }

    method Push(entry: Entry)
      modifies this`updateQueue, this`enqueued
      ensures updateQueue == old(updateQueue) + [entry] && enqueued == old(enqueued) + [entry]
      ensures Pipe() == Next(old(Pipe()), Enqueue(entry))
    {
      updateQueue := updateQueue + [entry];
      enqueued := enqueued + [entry];
    }

    /** The callback an adapter was given for this kind of message. */
    method HandleArrival(arrival: Arrival) returns (ghost steps: seq<Dispatch.Step>)
      requires Consistent()
      modifies this`updateQueue, this`enqueued, orderBooks.Values
      ensures Consistent() && Books() == Handle(old(Books()), arrival.job.message)
      ensures var x := arrival.job.Symbol();
              steps == if x in orderBooks
                       then [Enqueue(Entry(arrival.producer, Pipeline.Published(Books()[x], arrival.job)))]
                       else []
      ensures Pipe() == Exec(old(Pipe()), steps)
    {
      match arrival.job.message {
        case SnapshotMessage(snapshot) =>
          HandleOrderBookSnapshot(arrival.producer, snapshot, arrival.job.uninitialised);
        case DeltaMessage(delta) =>
          HandleOrderBookDelta(arrival.producer, delta);
      }
      steps := [];
      var x := arrival.job.Symbol();
      if x in orderBooks {
        steps := [Enqueue(Entry(arrival.producer, Pipeline.Published(Books()[x], arrival.job)))];
        ExecSnoc(old(Pipe()), [], steps[0]);
      }
    }

    /** `uninitialised` is what the local update holds before its fields are assigned. */
    method HandleOrderBookSnapshot(producer: Producer, snapshot: OrderBookSnapshot, uninitialised: MarketUpdate)
      requires Consistent()
      modifies this`updateQueue, this`enqueued, orderBooks.Values
      ensures Consistent() && Books() == Handle(old(Books()), SnapshotMessage(snapshot))
      ensures Pipe() == if snapshot.symbol in orderBooks
                        then Next(old(Pipe()), Enqueue(Entry(producer, SnapshotUpdate(snapshot, uninitialised))))
                        else old(Pipe())
      ensures Books() == if snapshot.symbol in orderBooks
                         then old(Books())[snapshot.symbol := Book(ToMap(snapshot.bids), ToMap(snapshot.asks))]
                         else old(Books())
      ensures if snapshot.symbol in orderBooks
              then EnqueuedOne(old(updateQueue), updateQueue, producer, snapshot.symbol, snapshot.timestamp, true)
              else updateQueue == old(updateQueue)
    {
      var orderBook := GetOrderBook(snapshot.symbol);
      if orderBook == null {
        return;
      }
      var update := ReplaceBook(orderBook, snapshot, uninitialised);
      EnqueueUpdate(producer, update);
    }

    method ReplaceBook(orderBook: OrderBook, snapshot: OrderBookSnapshot, uninitialised: MarketUpdate)
      returns (update: MarketUpdate)
      requires BooksValid() && snapshot.symbol in orderBooks && orderBook == orderBooks[snapshot.symbol]
      modifies orderBook
      ensures BooksValid() && Pipe() == old(Pipe()) && Books() == Handle(old(Books()), SnapshotMessage(snapshot))
      ensures Books() == old(Books())[snapshot.symbol := Book(ToMap(snapshot.bids), ToMap(snapshot.asks))]
      ensures update == SnapshotUpdate(snapshot, uninitialised)
    {
      var bids := OrderedMap(snapshot.bids);
      var asks := OrderedMap(snapshot.asks);
      orderBook.SetSnapshot(bids, asks);
      RunOne(old(orderBook.View()), BookSpec.SetSnapshot(ToMap(snapshot.bids), ToMap(snapshot.asks)));
      OneBookChanged(old(Books()), Books(), SnapshotMessage(snapshot));
      update := SnapshotTop(snapshot, bids, asks, uninitialised);
    }

    /** The loops that fill the local maps, which have the default, ascending order. */
    static method OrderedMap(levels: seq<Level>) returns (ordered: seq<Level>)
      ensures Sorted(Ask, ordered) && ToMap(ordered) == ToMap(levels)
    {
      ordered := [];
      for i := 0 to |levels|
        invariant Sorted(Ask, ordered) && ToMap(ordered) == ToMap(levels[..i])
      {
        var level := levels[i];
        assert levels[..i + 1][..i] == levels[..i];
        PutRefines(Ask, ordered, level.price, level.size);
        ordered := Put(Ask, ordered, level.price, level.size);
      }
      assert levels[..|levels|] == levels;
    }

    static method SnapshotTop(snapshot: OrderBookSnapshot, bids: seq<Level>, asks: seq<Level>,
                              uninitialised: MarketUpdate)
      returns (update: MarketUpdate)
      requires Sorted(Ask, bids) && ToMap(bids) == ToMap(snapshot.bids)
      requires Sorted(Ask, asks) && ToMap(asks) == ToMap(snapshot.asks)
      ensures update == SnapshotUpdate(snapshot, uninitialised)
    {
      update := uninitialised.(symbol := snapshot.symbol, timestamp := snapshot.timestamp, isSnapshot := true);
      FrontIsBest(Ask, bids);
      FrontIsBest(Ask, asks);
      if |bids| != 0 {
        update := update.(bidPrice := bids[0].price, bidSize := bids[0].size);
      }
      if |asks| != 0 {
        update := update.(askPrice := asks[0].price, askSize := asks[0].size);
      }
    }

    method HandleOrderBookDelta(producer: Producer, delta: OrderBookDelta)
      requires Consistent()
      modifies this`updateQueue, this`enqueued, orderBooks.Values
      ensures Consistent() && Books() == Handle(old(Books()), DeltaMessage(delta))
      ensures Pipe() == if delta.symbol in orderBooks
                        then Next(old(Pipe()), Enqueue(Entry(producer, DeltaUpdate(Books()[delta.symbol], delta))))
                        else old(Pipe())
      ensures Books() == if delta.symbol in orderBooks
                         then old(Books())[delta.symbol := MergedBook(old(Books())[delta.symbol], delta)]
                         else old(Books())
      ensures if delta.symbol in orderBooks
              then EnqueuedOne(old(updateQueue), updateQueue, producer, delta.symbol, delta.timestamp, false)
              else updateQueue == old(updateQueue)
    {
      var orderBook := GetOrderBook(delta.symbol);
      if orderBook == null {
        return;
      }
      var update := UpdateBook(orderBook, delta);
      EnqueueUpdate(producer, update);
    }

    method UpdateBook(orderBook: OrderBook, delta: OrderBookDelta) returns (update: MarketUpdate)
      requires BooksValid() && delta.symbol in orderBooks && orderBook == orderBooks[delta.symbol]
      modifies orderBook
      ensures BooksValid() && Pipe() == old(Pipe()) && Books() == Handle(old(Books()), DeltaMessage(delta))
      ensures Books() == old(Books())[delta.symbol := MergedBook(old(Books())[delta.symbol], delta)]
      ensures update == DeltaUpdate(Books()[delta.symbol], delta)
    {
      ApplyDelta(orderBook, delta.bidUpdates, delta.askUpdates);
      OneBookChanged(old(Books()), Books(), DeltaMessage(delta));
      DeltaClosedForm(old(orderBook.View()), delta.bidUpdates, delta.askUpdates);
      update := DeltaTop(orderBook, delta);
    }

    /** The four reads of the delta handler. */
    static method DeltaTop(orderBook: OrderBook, delta: OrderBookDelta) returns (update: MarketUpdate)
      requires orderBook.Valid()
      ensures update == DeltaUpdate(orderBook.View(), delta)
    {
      var bidPrice := orderBook.GetBestBid();
      var askPrice := orderBook.GetBestAsk();
      var bidSize := orderBook.GetBidVolume(bidPrice);
      var askSize := orderBook.GetAskVolume(askPrice);
      update := MarketUpdate(delta.symbol, bidPrice, bidSize, askPrice, askSize, delta.timestamp, false);
    }

    /** The two loops of the delta handler. */
    static method ApplyDelta(orderBook: OrderBook, bidUpdates: seq<Level>, askUpdates: seq<Level>)
      requires orderBook.Valid()
      modifies orderBook
      ensures orderBook.Valid() && orderBook.View() == Run(old(orderBook.View()), DeltaOps(bidUpdates, askUpdates))
    {
      ghost var start := orderBook.View();
      for i := 0 to |bidUpdates|
        invariant orderBook.Valid() && orderBook.View() == Run(start, LevelOps(Bid, bidUpdates[..i]))
      {
        var bid := bidUpdates[i];
        NextLevel(start, Bid, bidUpdates, i);
        if bid.size == 0.0 {
          orderBook.RemoveBid(bid.price);
        } else {
          orderBook.UpdateBid(bid.price, bid.size);
        }
      }
      assert bidUpdates[..|bidUpdates|] == bidUpdates;
      ghost var middle := orderBook.View();
      for i := 0 to |askUpdates|
        invariant orderBook.Valid() && orderBook.View() == Run(middle, LevelOps(Ask, askUpdates[..i]))
      {
        var ask := askUpdates[i];
        NextLevel(middle, Ask, askUpdates, i);
        if ask.size == 0.0 {
          orderBook.RemoveAsk(ask.price);
        } else {
          orderBook.UpdateAsk(ask.price, ask.size);
        }
      }
      assert askUpdates[..|askUpdates|] == askUpdates;
      RunConcat(start, LevelOps(Bid, bidUpdates), LevelOps(Ask, askUpdates));
    }
  }

  /** The bids merged against the old asks, then the asks against the new bids. */
  ghost function MergedBook(b: Book, delta: OrderBookDelta): Book {
    var bids := Merged(Bid, b.bids, b.asks, delta.bidUpdates);
    Book(bids, Merged(Ask, b.asks, bids, delta.askUpdates))
  }

  /** One more update is pending, from that thread, and labelled so. */
  predicate EnqueuedOne(before: seq<Entry>, after: seq<Entry>, producer: Producer, symbol: string, timestamp: int,
                        isSnapshot: bool)
  {
    && |after| == |before| + 1 && after[..|before|] == before
    && var last := after[|before|];
       last.from == producer && last.update.symbol == symbol && last.update.timestamp == timestamp
       && last.update.isSnapshot == isSnapshot
  }

  lemma OneMoreStep(pipe: State, steps: seq<Dispatch.Step>, now: State, step: Dispatch.Step)
    requires now == Exec(pipe, steps) && step.IsDispatchers()
    requires forall past | past in steps :: past.IsDispatchers() || past.Enqueue?
    ensures Next(now, step) == Exec(pipe, steps + [step])
    ensures forall past | past in steps + [step] :: past.IsDispatchers() || past.Enqueue?
  {
    ExecSnoc(pipe, steps, step);
  }

  lemma NextMessage(books: Books, arrivals: seq<Arrival>, i: nat)
    requires i < |arrivals|
    ensures HandleAll(books, MessagesOf(arrivals[..i + 1]))
         == Handle(HandleAll(books, MessagesOf(arrivals[..i])), arrivals[i].job.message)
  {
    var before, after := MessagesOf(arrivals[..i]), MessagesOf(arrivals[..i + 1]);
    assert after == before + [arrivals[i].job.message];
    assert after[..|after| - 1] == before;
  }

  lemma OneBookChanged(before: Books, after: Books, m: Message)
    requires before.Keys == after.Keys && m.Symbol() in before
    requires after[m.Symbol()] == Run(before[m.Symbol()], m.Writes())
    requires forall s | s in before && s != m.Symbol() :: after[s] == before[s]
    ensures after == Handle(before, m)
  {
  }

  lemma NextLevel(b: Book, side: Side, updates: seq<Level>, i: nat)
    requires i < |updates|
    ensures Run(b, LevelOps(side, updates[..i + 1]))
         == Apply(Run(b, LevelOps(side, updates[..i])), LevelOp(side, updates[i]))
  {
    assert updates[..i + 1] == updates[..i] + [updates[i]];
    LevelOpsSnoc(side, updates[..i], updates[i]);
    RunSnoc(b, LevelOps(side, updates[..i]), LevelOp(side, updates[i]));
  }
}
