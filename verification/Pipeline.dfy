/** The whole pipeline under concurrency: any number of adapter threads run the message handlers one
    locked write or one read at a time and enqueue what they read, while the dispatcher takes updates
    off the queue.  A run starts once the books are there and replaces none of them. */
module Pipeline {
  import opened Options
  import opened Levels
  import opened Messages
  import opened BookSpec
  import opened Sequences
  import opened Crossing
  import opened Sums
  import opened Feed
  import Dispatch

  type Producer = Dispatch.Producer

  /** A message, and what the local update of its handler holds before its fields are assigned. */
  datatype Job = Job(message: Message, uninitialised: MarketUpdate) {
    function Symbol(): string {
      message.Symbol()
    }

    function Writes(): seq<Op> {
      message.Writes()
    }
  }

  /** Where the handler of a thread stands: how many writes it has made, or what it has read. */
  datatype Handler = Idle | Writing(job: Job, done: nat) | Reading(job: Job, seen: seq<real>) {
    predicate Busy(symbol: string) {
      !Idle? && job.Symbol() == symbol
    }
  }

  datatype State = State(
    books: Books,
    handlers: map<Producer, Handler>,
    pipe: Dispatch.State,
    begun: seq<Job>)  // every message a handler has accepted, in order

  datatype Step =
    | Begin(producer: Producer, job: Job) // a message for a known symbol reaches an idle thread
    | Act(producer: Producer)             // the next write or read of a thread's handler, or its enqueue
    | Pipe(step: Dispatch.Step)           // a step of the dispatcher, or of `initialize` and `stop`

  function HandlerOf(s: State, p: Producer): Handler {
    if p in s.handlers then s.handlers[p] else Idle
  }

  /** The four reads of a delta handler, in order. */
  ghost function TopReads(b: Book): seq<real> {
    var bid, ask := BestOf(b, Bid), BestOf(b, Ask);
    [bid, ask, ValueAt(b.bids, bid), ValueAt(b.asks, ask)]
  }

  ghost function NextRead(b: Book, seen: seq<real>): real
    requires |seen| < 4
  {
    match |seen|
    case 0 => BestOf(b, Bid)
    case 1 => BestOf(b, Ask)
    case 2 => ValueAt(b.bids, seen[0])
    case _ => ValueAt(b.asks, seen[1])
  }

  function UpdateFrom(d: OrderBookDelta, seen: seq<real>): MarketUpdate
    requires |seen| == 4
  {
    MarketUpdate(d.symbol, seen[0], seen[2], seen[1], seen[3], d.timestamp, false)
  }

  function SetHandler(s: State, p: Producer, h: Handler): State {
    s.(handlers := s.handlers[p := h])
  }

  function Publish(s: State, p: Producer, u: MarketUpdate): State {
    SetHandler(s, p, Idle).(pipe := Dispatch.Next(s.pipe, Dispatch.Enqueue(Dispatch.Entry(p, u))))
  }

  /** The update the handler enqueues, once that is all it has left to do. */
  ghost function Due(h: Handler): Option<MarketUpdate> {
    match h
    case Writing(Job(SnapshotMessage(snapshot), uninitialised), done) =>
      if done >= 1 then Some(SnapshotUpdate(snapshot, uninitialised)) else None
    case Reading(Job(DeltaMessage(delta), _), seen) =>
      if |seen| == 4 then Some(UpdateFrom(delta, seen)) else None
    case _ => None
  }

  /** The next write of the handler, or its next read. */
  ghost function Proceed(s: State, p: Producer, h: Handler): State
    requires !h.Idle? && h.job.Symbol() in s.books
  {
    var x, ops := h.job.Symbol(), h.job.Writes();
    match h
    case Writing(job, i) =>
      if i < |ops| then SetHandler(s, p, Writing(job, i + 1)).(books := s.books[x := Apply(s.books[x], ops[i])])
      else SetHandler(s, p, Reading(job, [NextRead(s.books[x], [])]))
    case Reading(job, seen) =>
      if |seen| < 4 then SetHandler(s, p, Reading(job, seen + [NextRead(s.books[x], seen)])) else s
  }

  ghost function Advance(s: State, p: Producer): State {
    var h := HandlerOf(s, p);
    if h.Idle? || h.job.Symbol() !in s.books then s
    else if Due(h).Some? then Publish(s, p, Due(h).value)
    else Proceed(s, p, h)
  }

  ghost function Next(s: State, step: Step): State {
    match step
    case Begin(p, job) =>
      if HandlerOf(s, p).Idle? && job.Symbol() in s.books
      then SetHandler(s, p, Writing(job, 0)).(begun := s.begun + [job]) else s
    case Act(p) => Advance(s, p)
    case Pipe(step) => if step.Enqueue? then s else s.(pipe := Dispatch.Next(s.pipe, step))
  }

  ghost function Exec(s: State, steps: seq<Step>): State {
    if steps == [] then s else Next(Exec(s, steps[..|steps| - 1]), steps[|steps| - 1])
  }

  // ---------------------------------------------------------------------------------------
  // What a symbol's messages amount to, one after the other
  // ---------------------------------------------------------------------------------------

  function JobIsFor(symbol: string): Job -> bool {
    (job: Job) => job.Symbol() == symbol
  }

  function JobsFor(jobs: seq<Job>, symbol: string): seq<Job> {
    Select(jobs, JobIsFor(symbol), Identity)
  }

  function MessagesIn(jobs: seq<Job>): seq<Message> {
    seq(|jobs|, i requires 0 <= i < |jobs| => jobs[i].message)
  }

  /** A book fed the messages of the jobs. */
  ghost function After(b: Book, jobs: seq<Job>): Book {
    Fed(b, MessagesIn(jobs))
  }

  lemma AfterLast(b: Book, jobs: seq<Job>)
    requires jobs != []
    ensures After(b, jobs) == Run(After(b, jobs[..|jobs| - 1]), jobs[|jobs| - 1].Writes())
  {
    assert MessagesIn(jobs)[..|jobs| - 1] == MessagesIn(jobs[..|jobs| - 1]);
  }

  /** The update that belongs to a message, given the book right after its writes. */
  ghost function Published(after: Book, job: Job): MarketUpdate {
    match job.message
    case SnapshotMessage(snapshot) => SnapshotUpdate(snapshot, job.uninitialised)
    case DeltaMessage(delta) => DeltaUpdate(after, delta)
  }

  /** The update of the last message, taken from the book right after it. */
  ghost function Top(b: Book, jobs: seq<Job>): MarketUpdate
    requires jobs != []
  {
    Published(After(b, jobs), jobs[|jobs| - 1])
  }

  /** One such update per message. */
  ghost function Tops(b: Book, jobs: seq<Job>): (tops: seq<MarketUpdate>)
    ensures |tops| == |jobs|
  {
    if jobs == [] then [] else Tops(b, jobs[..|jobs| - 1]) + [Top(b, jobs)]
  }

  lemma {:induction false} TopsPrefix(b: Book, jobs: seq<Job>, n: nat)
    requires n <= |jobs|
    ensures Tops(b, jobs[..n]) == Tops(b, jobs)[..n]
  {
    if n == |jobs| {
      assert jobs[..n] == jobs;
    } else {
      var init := jobs[..|jobs| - 1];
      assert init[..n] == jobs[..n];
      TopsPrefix(b, init, n);
    }
  }

  lemma TopsAt(b: Book, jobs: seq<Job>, i: nat)
    requires i < |jobs|
    ensures Tops(b, jobs)[i] == Top(b, jobs[..i + 1])
  {
    TopsPrefix(b, jobs, i + 1);
    TopsEnd(b, jobs[..i + 1]);
  }

  lemma TopsEnd(b: Book, jobs: seq<Job>)
    requires jobs != []
    ensures Tops(b, jobs)[|jobs| - 1] == Top(b, jobs)
  {
  }

  function IsOn(symbol: string): Dispatch.Entry -> bool {
    (e: Dispatch.Entry) => e.update.symbol == symbol
  }

  /** The updates of one symbol, in order. */
  function OnSymbol(entries: seq<Dispatch.Entry>, symbol: string): seq<MarketUpdate> {
    Select(entries, IsOn(symbol), Dispatch.UpdateOf)
  }

  // ---------------------------------------------------------------------------------------
  // One producer for a symbol
  // ---------------------------------------------------------------------------------------

  /** Every message of the symbol arrives on the thread `o`; other symbols may have any producers. */
  predicate Respects(step: Step, x: string, o: Producer) {
    step.Begin? && step.job.Symbol() == x ==> step.producer == o
  }

  predicate OwnEntries(entries: seq<Dispatch.Entry>, x: string, o: Producer) {
    forall e | e in entries :: e.update.symbol == x ==> e.from == o
  }

  ghost predicate Owned(s: State, x: string, o: Producer) {
    (forall p :: HandlerOf(s, p).Busy(x) ==> p == o) && OwnEntries(s.pipe.enqueued, x, o)
  }

  /** A handler's book is the book before its message with the writes made so far, and what it has
      read is the top of that book. */
  ghost predicate InProgress(before: Book, now: Book, h: Handler) {
    match h
    case Idle => false
    case Writing(job, i) => i <= |job.Writes()| && now == Run(before, job.Writes()[..i])
    case Reading(job, seen) =>
      && job.message.DeltaMessage? && now == Run(before, job.Writes())
      && 1 <= |seen| <= 4 && seen == TopReads(now)[..|seen|]
  }

  /** The book and the updates of a symbol follow from its messages; the last one may be in progress. */
  ghost predicate Follows(b: Book, s: State, p: Producer, x: string) {
    var jobs, h := JobsFor(s.begun, x), HandlerOf(s, p);
    && x in s.books
    && if h.Busy(x) then
         && jobs != [] && jobs[|jobs| - 1] == h.job
         && InProgress(After(b, jobs[..|jobs| - 1]), s.books[x], h)
         && OnSymbol(s.pipe.enqueued, x) == Tops(b, jobs[..|jobs| - 1])
       else
         s.books[x] == After(b, jobs) && OnSymbol(s.pipe.enqueued, x) == Tops(b, jobs)
  }

  lemma BeginFollows(b: Book, s: State, o: Producer, p: Producer, job: Job, x: string)
    requires Follows(b, s, o, x) && Respects(Begin(p, job), x, o)
    ensures Follows(b, Next(s, Begin(p, job)), o, x)
  {
    SelectSnoc(s.begun, job, JobIsFor(x), Identity);
    if HandlerOf(s, p).Idle? && job.Symbol() == x {
      BeginsHere(b, s, p, job, x);
    } else {
      Elsewhere(b, s, Next(s, Begin(p, job)), o, x);
    }
  }

  lemma BeginsHere(b: Book, s: State, p: Producer, job: Job, x: string)
    requires Follows(b, s, p, x) && HandlerOf(s, p).Idle? && job.Symbol() == x
    requires JobsFor(s.begun + [job], x) == JobsFor(s.begun, x) + [job]
    ensures Follows(b, Next(s, Begin(p, job)), p, x)
  {
    var jobs := JobsFor(s.begun, x);
    assert (jobs + [job])[..|jobs|] == jobs;
    assert job.Writes()[..0] == [];
  }

  lemma Elsewhere(b: Book, s: State, t: State, p: Producer, x: string)
    requires Follows(b, s, p, x)
    requires JobsFor(t.begun, x) == JobsFor(s.begun, x) && x in t.books && t.books[x] == s.books[x]
    requires if HandlerOf(s, p).Busy(x) then HandlerOf(t, p) == HandlerOf(s, p) else !HandlerOf(t, p).Busy(x)
    requires OnSymbol(t.pipe.enqueued, x) == OnSymbol(s.pipe.enqueued, x)
    ensures Follows(b, t, p, x)
  {
  }

  lemma PublishOnSymbol(s: State, p: Producer, u: MarketUpdate, x: string)
    ensures OnSymbol(Publish(s, p, u).pipe.enqueued, x)
         == if u.symbol == x then OnSymbol(s.pipe.enqueued, x) + [u] else OnSymbol(s.pipe.enqueued, x)
  {
    SelectSnoc(s.pipe.enqueued, Dispatch.Entry(p, u), IsOn(x), Dispatch.UpdateOf);
  }

  /** A thread busy with another symbol, or with none, leaves this one alone. */
  lemma OtherActFollows(b: Book, s: State, o: Producer, p: Producer, x: string)
    requires Follows(b, s, o, x) && !HandlerOf(s, p).Busy(x)
    ensures Follows(b, Advance(s, p), o, x)
  {
    var h := HandlerOf(s, p);
    if Due(h).Some? {
      PublishOnSymbol(s, p, Due(h).value, x);
    }
    Elsewhere(b, s, Advance(s, p), o, x);
  }

  /** The handler of the symbol goes on with its message. */
  lemma GoesOn(b: Book, s: State, t: State, p: Producer, x: string)
    requires Follows(b, s, p, x) && HandlerOf(s, p).Busy(x) && t.begun == s.begun && t.pipe == s.pipe
    requires x in t.books && HandlerOf(t, p).Busy(x) && HandlerOf(t, p).job == HandlerOf(s, p).job
    requires var jobs := JobsFor(s.begun, x);
             jobs != [] ==> InProgress(After(b, jobs[..|jobs| - 1]), t.books[x], HandlerOf(t, p))
    ensures Follows(b, t, p, x)
  {
  }

  lemma OneMoreRead(b: Book, n: nat)
    requires n < 4
    ensures TopReads(b)[..n + 1] == TopReads(b)[..n] + [NextRead(b, TopReads(b)[..n])]
  {
  }

  lemma WriteFollows(b: Book, s: State, p: Producer, x: string)
    requires Follows(b, s, p, x) && HandlerOf(s, p).Busy(x)
    requires var h := HandlerOf(s, p); h.Writing? && h.done < |h.job.Writes()|
    ensures Follows(b, Advance(s, p), p, x)
  {
    var h, jobs := HandlerOf(s, p), JobsFor(s.begun, x);
    RunUpTo(After(b, jobs[..|jobs| - 1]), h.job.Writes(), h.done);
    GoesOn(b, s, Advance(s, p), p, x);
  }

  lemma RunUpTo(b: Book, ops: seq<Op>, i: nat)
    requires i < |ops|
    ensures Run(b, ops[..i + 1]) == Apply(Run(b, ops[..i]), ops[i])
  {
    assert ops[..i + 1] == ops[..i] + [ops[i]];
    RunSnoc(b, ops[..i], ops[i]);
  }

  lemma FirstReadFollows(b: Book, s: State, p: Producer, x: string)
    requires Follows(b, s, p, x) && HandlerOf(s, p).Busy(x)
    requires var h := HandlerOf(s, p);
             h.Writing? && h.done == |h.job.Writes()| && h.job.message.DeltaMessage?
    ensures Follows(b, Advance(s, p), p, x)
  {
    var ops, top := HandlerOf(s, p).job.Writes(), TopReads(s.books[x]);
    assert ops[..|ops|] == ops;
    assert top[..1] == [top[0]];
    GoesOn(b, s, Advance(s, p), p, x);
  }

  lemma ReadFollows(b: Book, s: State, p: Producer, x: string)
    requires Follows(b, s, p, x) && HandlerOf(s, p).Busy(x)
    requires HandlerOf(s, p).Reading? && |HandlerOf(s, p).seen| < 4
    ensures Follows(b, Advance(s, p), p, x)
  {
    var h, jobs := HandlerOf(s, p), JobsFor(s.begun, x);
    ReadInProgress(After(b, jobs[..|jobs| - 1]), s.books[x], h.job, h.seen);
    GoesOn(b, s, Advance(s, p), p, x);
  }

  lemma ReadInProgress(before: Book, now: Book, job: Job, seen: seq<real>)
    requires InProgress(before, now, Reading(job, seen)) && |seen| < 4
    ensures InProgress(before, now, Reading(job, seen + [NextRead(now, seen)]))
  {
    OneMoreRead(now, |seen|);
  }

  lemma PublishFollows(b: Book, s: State, p: Producer, x: string, u: MarketUpdate)
    requires Follows(b, s, p, x) && HandlerOf(s, p).Busy(x) && u.symbol == x
    requires s.books[x] == After(b, JobsFor(s.begun, x))
    requires u == Published(s.books[x], HandlerOf(s, p).job)
    ensures Follows(b, Publish(s, p, u), p, x)
  {
    PublishOnSymbol(s, p, u, x);
  }

  lemma SnapshotFollows(b: Book, s: State, p: Producer, x: string)
    requires Follows(b, s, p, x) && HandlerOf(s, p).Busy(x)
    requires HandlerOf(s, p).Writing? && Due(HandlerOf(s, p)).Some?
    ensures Follows(b, Advance(s, p), p, x)
  {
    var h := HandlerOf(s, p);
    assert h.job.Writes()[..h.done] == h.job.Writes();
    AfterLast(b, JobsFor(s.begun, x));
    PublishFollows(b, s, p, x, Due(h).value);
  }

  lemma DeltaFollows(b: Book, s: State, p: Producer, x: string)
    requires Follows(b, s, p, x) && HandlerOf(s, p).Busy(x)
    requires HandlerOf(s, p).Reading? && Due(HandlerOf(s, p)).Some?
    ensures Follows(b, Advance(s, p), p, x)
  {
    var h := HandlerOf(s, p);
    assert TopReads(s.books[x])[..4] == TopReads(s.books[x]);
    AfterLast(b, JobsFor(s.begun, x));
    PublishFollows(b, s, p, x, Due(h).value);
  }

  lemma ActFollows(b: Book, s: State, o: Producer, p: Producer, x: string)
    requires Follows(b, s, o, x) && Owned(s, x, o)
    ensures Follows(b, Advance(s, p), o, x)
  {
    var h := HandlerOf(s, p);
    if !h.Busy(x) {
      OtherActFollows(b, s, o, p, x);
    } else if h.Writing? && h.done < |h.job.Writes()| {
      WriteFollows(b, s, p, x);
    } else if Due(h).Some? {
      if h.Writing? {
        SnapshotFollows(b, s, p, x);
      } else {
        DeltaFollows(b, s, p, x);
      }
    } else if h.Writing? {
      FirstReadFollows(b, s, p, x);
    } else {
      ReadFollows(b, s, p, x);
    }
  }

  lemma PipeFollows(b: Book, s: State, step: Dispatch.Step, p: Producer, x: string)
    requires Follows(b, s, p, x)
    ensures Follows(b, Next(s, Pipe(step)), p, x)
  {
    Elsewhere(b, s, Next(s, Pipe(step)), p, x);
  }

  lemma OwnedStep(s: State, step: Step, x: string, o: Producer)
    requires Owned(s, x, o) && Respects(step, x, o)
    ensures Owned(Next(s, step), x, o)
  {
    var t := Next(s, step);
    forall p
      ensures HandlerOf(t, p).Busy(x) ==> p == o
    {
      assert HandlerOf(s, p).Busy(x) ==> p == o;
    }
    if step.Act? {
      OwnedAct(s, step.producer, x, o);
    }
  }

  lemma OwnedAct(s: State, p: Producer, x: string, o: Producer)
    requires Owned(s, x, o)
    ensures OwnEntries(Advance(s, p).pipe.enqueued, x, o)
  {
    assert HandlerOf(s, p).Busy(x) ==> p == o;
  }

  /** What every step keeps, with one producer for the symbol. */
  ghost predicate Tracks(b: Book, s: State, x: string, o: Producer) {
    Owned(s, x, o) && Dispatch.Conserved(s.pipe) && Follows(b, s, o, x)
  }

  lemma StepTracks(b: Book, s: State, step: Step, x: string, o: Producer)
    requires Tracks(b, s, x, o) && Respects(step, x, o)
    ensures Tracks(b, Next(s, step), x, o)
  {
    OwnedStep(s, step, x, o);
    match step {
      case Begin(p, job) => BeginFollows(b, s, o, p, job, x);
      case Act(p) => ActFollows(b, s, o, p, x);
      case Pipe(step) => PipeFollows(b, s, step, o, x);
    }
    PipeConserved(s, step);
  }

  lemma PipeConserved(s: State, step: Step)
    requires Dispatch.Conserved(s.pipe)
    ensures Dispatch.Conserved(Next(s, step).pipe)
  {
    match step
    case Begin(_, _) =>
    case Act(p) => ActConserved(s, p);
    case Pipe(step) => Dispatch.ConservedStep(s.pipe, step);
  }

  lemma ActConserved(s: State, p: Producer)
    requires Dispatch.Conserved(s.pipe)
    ensures Dispatch.Conserved(Advance(s, p).pipe)
  {
    var due := Due(HandlerOf(s, p));
    if due.Some? {
      Dispatch.ConservedStep(s.pipe, Dispatch.Enqueue(Dispatch.Entry(p, due.value)));
    }
  }

  /** The callback is registered; there is no message yet, and no dispatcher. */
  function Start(books: Books): State {
    State(books, map[], Dispatch.Next(Dispatch.INITIAL, Dispatch.SetCallback(true)), [])
  }

  lemma {:induction false} RunTracks(books: Books, steps: seq<Step>, x: string, o: Producer)
    requires x in books && forall step | step in steps :: Respects(step, x, o)
    ensures Tracks(books[x], Exec(Start(books), steps), x, o)
  {
    if steps == [] {
      Dispatch.InitiallyConserved();
      Dispatch.ConservedStep(Dispatch.INITIAL, Dispatch.SetCallback(true));
    } else {
      var init, last := steps[..|steps| - 1], steps[|steps| - 1];
      assert steps == init + [last];
      RunTracks(books, init, x, o);
      StepTracks(books[x], Exec(Start(books), init), last, x, o);
    }
  }

  function IsAbout(symbol: string): MarketUpdate -> bool {
    (u: MarketUpdate) => u.symbol == symbol
  }

  /** With one producer for a symbol, the symbol's updates can be read off its producer's. */
  lemma {:induction false} OnSymbolOfProducer(entries: seq<Dispatch.Entry>, x: string, o: Producer)
    requires OwnEntries(entries, x, o)
    ensures OnSymbol(entries, x) == Select(Dispatch.By(entries, o), IsAbout(x), Identity)
  {
    if entries != [] {
      var init, last := entries[..|entries| - 1], entries[|entries| - 1];
      assert entries == init + [last] && last in entries;
      OnSymbolOfProducer(init, x, o);
      SelectSnoc(init, last, IsOn(x), Dispatch.UpdateOf);
      SelectSnoc(init, last, Dispatch.SentBy(o), Dispatch.UpdateOf);
      SelectSnoc(Dispatch.By(init, o), last.update, IsAbout(x), Identity);
    }
  }

  lemma AccountedOwned(pipe: Dispatch.State, x: string, o: Producer)
    requires Dispatch.Conserved(pipe) && OwnEntries(pipe.enqueued, x, o)
    ensures OwnEntries(Dispatch.Accounted(pipe), x, o)
  {
    forall e | e in Dispatch.Accounted(pipe)
      ensures e.update.symbol == x ==> e.from == o
    {
      assert e in multiset(Dispatch.Accounted(pipe)) && e in multiset(pipe.enqueued);
    }
  }

  function Waiting(pipe: Dispatch.State): seq<Dispatch.Entry> {
    Dispatch.Held(pipe.dispatcher) + pipe.queue
  }

  /** What has left the queue for a symbol, then what waits, is what was enqueued for it, in order. */
  lemma LeavesInOrder(pipe: Dispatch.State, x: string, o: Producer)
    requires Dispatch.Conserved(pipe) && OwnEntries(pipe.enqueued, x, o)
    ensures OnSymbol(pipe.enqueued, x)
         == OnSymbol(Dispatch.Entries(pipe.handled), x) + OnSymbol(Waiting(pipe), x)
  {
    var accounted := Dispatch.Accounted(pipe);
    assert accounted == Dispatch.Entries(pipe.handled) + Waiting(pipe);
    AccountedOwned(pipe, x, o);
    SameOnSymbol(pipe.enqueued, accounted, x, o);
    SelectConcat(Dispatch.Entries(pipe.handled), Waiting(pipe), IsOn(x), Dispatch.UpdateOf);
  }

  lemma SameOnSymbol(xs: seq<Dispatch.Entry>, ys: seq<Dispatch.Entry>, x: string, o: Producer)
    requires OwnEntries(xs, x, o) && OwnEntries(ys, x, o) && Dispatch.By(xs, o) == Dispatch.By(ys, o)
    ensures OnSymbol(xs, x) == OnSymbol(ys, x)
  {
    OnSymbolOfProducer(xs, x, o);
    OnSymbolOfProducer(ys, x, o);
  }

  // ---------------------------------------------------------------------------------------
  // What the subscriber gets
  // ---------------------------------------------------------------------------------------

  predicate KeepsCallback(steps: seq<Step>) {
    Pipe(Dispatch.SetCallback(false)) !in steps
  }

  /** The updates of the symbol the callback has been called with, in order. */
  function Received(s: State, x: string): seq<MarketUpdate> {
    OnSymbol(Dispatch.Delivered(s.pipe.handled), x)
  }

  ghost predicate AllDelivered(pipe: Dispatch.State) {
    pipe.callback && forall o | o in pipe.handled :: o.delivered
  }

  lemma DeliveredStep(s: State, step: Step)
    requires AllDelivered(s.pipe) && step != Pipe(Dispatch.SetCallback(false))
    ensures AllDelivered(Next(s, step).pipe)
  {
  }

  lemma {:induction false} NoneDropped(books: Books, steps: seq<Step>)
    requires KeepsCallback(steps)
    ensures AllDelivered(Exec(Start(books), steps).pipe)
  {
    if steps != [] {
      var init, last := steps[..|steps| - 1], steps[|steps| - 1];
      assert steps == init + [last];
      NoneDropped(books, init);
      DeliveredStep(Exec(Start(books), init), last);
    }
  }

  lemma DeliveredIsHandled(pipe: Dispatch.State)
    requires AllDelivered(pipe)
    ensures Dispatch.Delivered(pipe.handled) == Dispatch.Entries(pipe.handled)
  {
    SelectAll(pipe.handled, Dispatch.WasDelivered, Dispatch.EntryOf);
  }

  /** No handler is at work on the symbol, and none of its updates waits. */
  ghost predicate Quiet(s: State, x: string) {
    && (forall p :: !HandlerOf(s, p).Busy(x))
    && forall e | e in Waiting(s.pipe) :: e.update.symbol != x
  }

  lemma ReceivedIsTops(b: Book, s: State, x: string, o: Producer)
    requires Tracks(b, s, x, o) && AllDelivered(s.pipe)
    ensures Received(s, x) <= Tops(b, JobsFor(s.begun, x))
    ensures Quiet(s, x) ==>
              Received(s, x) == Tops(b, JobsFor(s.begun, x)) && s.books[x] == After(b, JobsFor(s.begun, x))
  {
    LeavesInOrder(s.pipe, x, o);
    DeliveredIsHandled(s.pipe);
    if Quiet(s, x) {
      assert !HandlerOf(s, o).Busy(x);
      SelectNone(Waiting(s.pipe), IsOn(x), Dispatch.UpdateOf);
    }
  }

  /** However the handlers, the dispatcher and the queue take their steps: as long as one producer
      brings the messages of a symbol, a subscriber who stays registered gets the tops of its book after
      each of its messages, in order and with none left out; once the symbol is quiet, all of them. */
  lemma UpdatesAreTops(books: Books, steps: seq<Step>, x: string, o: Producer)
    requires x in books && KeepsCallback(steps) && forall step | step in steps :: Respects(step, x, o)
    ensures var s := Exec(Start(books), steps);
            var tops := Tops(books[x], JobsFor(s.begun, x));
            && x in s.books && Received(s, x) <= tops
            && (Quiet(s, x) ==> Received(s, x) == tops && s.books[x] == After(books[x], JobsFor(s.begun, x)))
  {
    RunTracks(books, steps, x, o);
    NoneDropped(books, steps);
    ReceivedIsTops(books[x], Exec(Start(books), steps), x, o);
  }

  /** The update names the symbol and the time of the message and says whether it was a snapshot. */
  predicate Identifies(u: MarketUpdate, m: Message) {
    match m
    case SnapshotMessage(s) => u.symbol == s.symbol && u.timestamp == s.timestamp && u.isSnapshot
    case DeltaMessage(d) => u.symbol == d.symbol && u.timestamp == d.timestamp && !u.isSnapshot
  }

  /** With one producer for a symbol and a callback that stays registered, the i-th update received for
      the symbol identifies its i-th message. */
  lemma UpdatesIdentify(books: Books, steps: seq<Step>, x: string, o: Producer, i: nat)
    requires x in books && KeepsCallback(steps) && forall step | step in steps :: Respects(step, x, o)
    requires i < |Received(Exec(Start(books), steps), x)|
    ensures var s := Exec(Start(books), steps);
            && i < |JobsFor(s.begun, x)|
            && Identifies(Received(s, x)[i], JobsFor(s.begun, x)[i].message)
  {
    UpdatesAreTops(books, steps, x, o);
    TopIdentifies(books[x], JobsFor(Exec(Start(books), steps).begun, x), i);
  }

  lemma TopIdentifies(b: Book, jobs: seq<Job>, i: nat)
    requires i < |jobs|
    ensures Identifies(Tops(b, jobs)[i], jobs[i].message)
  {
    TopsAt(b, jobs, i);
  }

  /** The update carries the best prices of the book and the sizes resting there. */
  ghost predicate ShowsTop(u: MarketUpdate, b: Book) {
    [u.bidPrice, u.askPrice, u.bidSize, u.askSize] == TopReads(b)
  }

  lemma LastTop(b: Book, jobs: seq<Job>)
    requires jobs != [] && jobs[|jobs| - 1].message.DeltaMessage?
    ensures var tops := Tops(b, jobs);
            tops != [] && ShowsTop(tops[|tops| - 1], After(b, jobs))
  {
  }

  /** If the last message of the symbol was a delta, the last update received shows its book's top. */
  ghost predicate EndsCurrent(s: State, x: string) {
    var jobs, out := JobsFor(s.begun, x), Received(s, x);
    x in s.books && jobs != [] && jobs[|jobs| - 1].message.DeltaMessage? ==>
      out != [] && ShowsTop(out[|out| - 1], s.books[x])
  }

  /** Once a symbol with one producer is quiet, its subscriber is up to date. */
  lemma LastUpdateIsCurrent(books: Books, steps: seq<Step>, x: string, o: Producer)
    requires x in books && KeepsCallback(steps) && forall step | step in steps :: Respects(step, x, o)
    requires Quiet(Exec(Start(books), steps), x)
    ensures EndsCurrent(Exec(Start(books), steps), x)
  {
    UpdatesAreTops(books, steps, x, o);
    var s := Exec(Start(books), steps);
    var jobs := JobsFor(s.begun, x);
    if jobs != [] && jobs[|jobs| - 1].message.DeltaMessage? {
      LastTop(books[x], jobs);
    }
  }

  // ---------------------------------------------------------------------------------------
  // A handler that runs alone
  // ---------------------------------------------------------------------------------------

  lemma ExecSnoc(s: State, steps: seq<Step>, step: Step)
    ensures Exec(s, steps + [step]) == Next(Exec(s, steps), step)
  {
    assert (steps + [step])[..|steps|] == steps;
  }

  lemma {:induction false} ExecConcat(s: State, x: seq<Step>, y: seq<Step>)
    ensures Exec(s, x + y) == Exec(Exec(s, x), y)
  {
    if y == [] {
      assert x + y == x;
    } else {
      var init := y[..|y| - 1];
      assert (x + y)[..|x + y| - 1] == x + init;
      ExecConcat(s, x, init);
    }
  }

  function Acts(p: Producer, n: nat): seq<Step> {
    seq(n, _ => Act(p))
  }

  /** The state after a thread made `n` acts and nobody else any. */
  ghost function ActAlone(s: State, p: Producer, n: nat): State
    decreases n
  {
    if n == 0 then s else ActAlone(Advance(s, p), p, n - 1)
  }

  lemma {:induction false} ActsAlone(s: State, p: Producer, n: nat)
    ensures Exec(s, Acts(p, n)) == ActAlone(s, p, n)
    decreases n
  {
    if n > 0 {
      ExecSnoc(s, [], Act(p));
      assert Acts(p, n) == [Act(p)] + Acts(p, n - 1);
      ExecConcat(s, [Act(p)], Acts(p, n - 1));
      ActsAlone(Advance(s, p), p, n - 1);
    }
  }

  /** The state of `s` but for the book of one symbol and for what one thread is at. */
  ghost function With(s: State, p: Producer, h: Handler, symbol: string, b: Book): State {
    State(s.books[symbol := b], s.handlers[p := h], s.pipe, s.begun)
  }

  lemma WithAgain(s: State, p: Producer, h: Handler, x: string, b: Book, h': Handler, b': Book)
    ensures With(With(s, p, h, x, b), p, h', x, b') == With(s, p, h', x, b')
  {
    assert s.handlers[p := h][p := h'] == s.handlers[p := h'];
    assert s.books[x := b][x := b'] == s.books[x := b'];
  }

  lemma WriteWith(s: State, p: Producer, job: Job, i: nat, b: Book)
    requires i < |job.Writes()|
    ensures Advance(With(s, p, Writing(job, i), job.Symbol(), b), p)
         == With(s, p, Writing(job, i + 1), job.Symbol(), Apply(b, job.Writes()[i]))
  {
    WithAgain(s, p, Writing(job, i), job.Symbol(), b, Writing(job, i + 1), Apply(b, job.Writes()[i]));
  }

  lemma FirstReadWith(s: State, p: Producer, job: Job, b: Book)
    requires job.message.DeltaMessage?
    ensures Advance(With(s, p, Writing(job, |job.Writes()|), job.Symbol(), b), p)
         == With(s, p, Reading(job, TopReads(b)[..1]), job.Symbol(), b)
  {
    assert TopReads(b)[..1] == [NextRead(b, [])];
    WithAgain(s, p, Writing(job, |job.Writes()|), job.Symbol(), b, Reading(job, TopReads(b)[..1]), b);
  }

  lemma ReadWith(s: State, p: Producer, job: Job, n: nat, b: Book)
    requires job.message.DeltaMessage? && 1 <= n < 4
    ensures Advance(With(s, p, Reading(job, TopReads(b)[..n]), job.Symbol(), b), p)
         == With(s, p, Reading(job, TopReads(b)[..n + 1]), job.Symbol(), b)
  {
    OneMoreRead(b, n);
    WithAgain(s, p, Reading(job, TopReads(b)[..n]), job.Symbol(), b, Reading(job, TopReads(b)[..n + 1]), b);
  }

  lemma RunFrom(b: Book, ops: seq<Op>, i: nat)
    requires i < |ops|
    ensures Run(b, ops[i..]) == Run(Apply(b, ops[i]), ops[i + 1..])
  {
    assert ops[i..] == [ops[i]] + ops[i + 1..];
    RunConcat(b, [ops[i]], ops[i + 1..]);
    RunOne(b, ops[i]);
  }

  lemma {:induction false} ActsConcat(s: State, p: Producer, m: nat, n: nat)
    ensures ActAlone(s, p, m + n) == ActAlone(ActAlone(s, p, m), p, n)
    decreases m
  {
    if m > 0 {
      ActsConcat(Advance(s, p), p, m - 1, n);
    }
  }

  lemma {:induction false} WritesAlone(s: State, p: Producer, job: Job, i: nat, b: Book)
    requires i <= |job.Writes()|
    ensures ActAlone(With(s, p, Writing(job, i), job.Symbol(), b), p, |job.Writes()| - i)
         == With(s, p, Writing(job, |job.Writes()|), job.Symbol(), Run(b, job.Writes()[i..]))
    decreases |job.Writes()| - i
  {
    if i < |job.Writes()| {
      WriteWith(s, p, job, i, b);
      WritesAlone(s, p, job, i + 1, Apply(b, job.Writes()[i]));
      RunFrom(b, job.Writes(), i);
    }
  }

  lemma {:induction false} ReadsAlone(s: State, p: Producer, job: Job, n: nat, b: Book, acts: nat)
    requires job.message.DeltaMessage? && 1 <= n <= 4 <= acts + n
    ensures ActAlone(With(s, p, Reading(job, TopReads(b)[..n]), job.Symbol(), b), p, acts)
         == ActAlone(With(s, p, Reading(job, TopReads(b)), job.Symbol(), b), p, acts - (4 - n))
    decreases 4 - n
  {
    if n < 4 {
      ReadWith(s, p, job, n, b);
      ReadsAlone(s, p, job, n + 1, b, acts - 1);
    } else {
      assert TopReads(b)[..4] == TopReads(b);
    }
  }

  lemma WithNothingNew(s: State, p: Producer, job: Job)
    requires job.Symbol() in s.books && HandlerOf(s, p) == Writing(job, 0)
    ensures With(s, p, Writing(job, 0), job.Symbol(), s.books[job.Symbol()]) == s
  {
    assert s.books[job.Symbol() := s.books[job.Symbol()]] == s.books;
    assert s.handlers[p := Writing(job, 0)] == s.handlers;
  }

  lemma AfterWrites(s: State, p: Producer, job: Job, after: Book, acts: nat)
    requires job.Symbol() in s.books && HandlerOf(s, p) == Writing(job, 0)
    requires after == Run(s.books[job.Symbol()], job.Writes()) && acts >= |job.Writes()|
    ensures ActAlone(s, p, acts)
         == ActAlone(With(s, p, Writing(job, |job.Writes()|), job.Symbol(), after), p, acts - |job.Writes()|)
  {
    WithNothingNew(s, p, job);
    assert job.Writes()[0..] == job.Writes();
    WritesAlone(s, p, job, 0, s.books[job.Symbol()]);
    ActsConcat(s, p, |job.Writes()|, acts - |job.Writes()|);
  }

  /** A delta handler alone, up to its last read. */
  lemma DeltaReads(s: State, p: Producer, job: Job, after: Book, acts: nat)
    requires job.Symbol() in s.books && HandlerOf(s, p) == Writing(job, 0) && job.message.DeltaMessage?
    requires after == Run(s.books[job.Symbol()], job.Writes()) && acts >= |job.Writes()| + 4
    ensures ActAlone(s, p, acts)
         == ActAlone(With(s, p, Reading(job, TopReads(after)), job.Symbol(), after), p, acts - |job.Writes()| - 4)
  {
    AfterWrites(s, p, job, after, acts);
    FirstReadWith(s, p, job, after);
    ReadsAlone(s, p, job, 1, after, acts - |job.Writes()| - 1);
  }

  /** The acts of a handler: its writes, the four reads of a delta, and the enqueue. */
  function Length(job: Job): nat {
    |job.Writes()| + if job.message.DeltaMessage? then 5 else 1
  }

  /** `s` with the symbol's book at `after`, the job begun, and its update enqueued: no other change. */
  ghost function Done(s: State, p: Producer, job: Job, after: Book): State {
    State(
      s.books[job.Symbol() := after],
      s.handlers[p := Idle],
      Dispatch.Next(s.pipe, Dispatch.Enqueue(Dispatch.Entry(p, Published(after, job)))),
      s.begun + [job])
  }

  lemma PublishWith(s: State, p: Producer, h: Handler, b: Book)
    requires !h.Idle? && Due(h) == Some(Published(b, h.job))
    requires s.begun != [] && s.begun[|s.begun| - 1] == h.job
    ensures Advance(With(s, p, h, h.job.Symbol(), b), p) == Done(s.(begun := s.begun[..|s.begun| - 1]), p, h.job, b)
  {
    var t := With(s, p, h, h.job.Symbol(), b);
    assert HandlerOf(t, p) == h;
    assert t.handlers[p := Idle] == s.handlers[p := Idle];
    assert s.begun == s.begun[..|s.begun| - 1] + [h.job];
  }

  lemma DeltaAlone(begun: State, p: Producer, job: Job, after: Book)
    requires job.Symbol() in begun.books && HandlerOf(begun, p) == Writing(job, 0) && job.message.DeltaMessage?
    requires begun.begun != [] && begun.begun[|begun.begun| - 1] == job
    requires after == Run(begun.books[job.Symbol()], job.Writes())
    ensures ActAlone(begun, p, Length(job)) == Done(begun.(begun := begun.begun[..|begun.begun| - 1]), p, job, after)
  {
    DeltaReads(begun, p, job, after, Length(job));
    PublishWith(begun, p, Reading(job, TopReads(after)), after);
  }

  lemma SnapshotAlone(begun: State, p: Producer, job: Job, after: Book)
    requires job.Symbol() in begun.books && HandlerOf(begun, p) == Writing(job, 0) && job.message.SnapshotMessage?
    requires begun.begun != [] && begun.begun[|begun.begun| - 1] == job
    requires after == Run(begun.books[job.Symbol()], job.Writes())
    ensures ActAlone(begun, p, Length(job)) == Done(begun.(begun := begun.begun[..|begun.begun| - 1]), p, job, after)
  {
    AfterWrites(begun, p, job, after, Length(job));
    PublishWith(begun, p, Writing(job, 1), after);
  }

  lemma BeginDone(s: State, p: Producer, job: Job, after: Book)
    requires HandlerOf(s, p).Idle? && job.Symbol() in s.books
    ensures var begun := Next(s, Begin(p, job));
            Done(begun.(begun := begun.begun[..|begun.begun| - 1]), p, job, after) == Done(s, p, job, after)
  {
    var begun := Next(s, Begin(p, job));
    assert begun.begun[..|begun.begun| - 1] == s.begun;
    assert begun.handlers[p := Idle] == s.handlers[p := Idle];
  }

  /** A handler that nobody interleaves with does what the engine's message handlers promise. */
  lemma AloneIsHandle(s: State, p: Producer, job: Job)
    requires HandlerOf(s, p).Idle? && job.Symbol() in s.books
    ensures Exec(s, [Begin(p, job)] + Acts(p, Length(job)))
         == Done(s, p, job, Handle(s.books, job.message)[job.Symbol()])
  {
    var after := Handle(s.books, job.message)[job.Symbol()];
    var begun := Next(s, Begin(p, job));
    ExecConcat(s, [Begin(p, job)], Acts(p, Length(job)));
    ExecSnoc(s, [], Begin(p, job));
    ActsAlone(begun, p, Length(job));
    BeginDone(s, p, job, after);
    if job.message.DeltaMessage? {
      DeltaAlone(begun, p, job, after);
    } else {
      SnapshotAlone(begun, p, job, after);
    }
  }

  // ---------------------------------------------------------------------------------------
  // Two producers for one symbol
  // ---------------------------------------------------------------------------------------

  function Piped(steps: seq<Dispatch.Step>): seq<Step> {
    seq(|steps|, i requires 0 <= i < |steps| => Pipe(steps[i]))
  }

  lemma {:induction false} PipedExec(s: State, steps: seq<Dispatch.Step>)
    requires forall step | step in steps :: !step.Enqueue?
    ensures Exec(s, Piped(steps)) == s.(pipe := Dispatch.Exec(s.pipe, steps))
  {
    if steps != [] {
      var init, last := steps[..|steps| - 1], steps[|steps| - 1];
      assert steps == init + [last];
      PipedExec(s, init);
      assert Piped(steps) == Piped(init) + [Pipe(last)];
      ExecSnoc(s, Piped(init), Pipe(last));
    }
  }

  function DeltaJob(x: string, bids: seq<Level>): Job {
    Job(DeltaMessage(OrderBookDelta(x, bids, [], 0)), MarketUpdate("", 0.0, 0.0, 0.0, 0.0, 0, false))
  }

  function BidJob(x: string, price: Price): Job {
    DeltaJob(x, [Level(price, 1.0)])
  }

  function EmptyJob(x: string): Job {
    Job(SnapshotMessage(OrderBookSnapshot(x, [], [], 0)), MarketUpdate("", 0.0, 0.0, 0.0, 0.0, 0, false))
  }

  const LOWER := Book(map[10.0 := 1.0], map[])
  const HIGHER := Book(map[10.0 := 1.0, 11.0 := 1.0], map[])

  lemma JobWrites(b: Book, x: string)
    ensures Run(b, EmptyJob(x).Writes()) == EMPTY_BOOK
    ensures Run(EMPTY_BOOK, BidJob(x, 10.0).Writes()) == LOWER
    ensures Run(LOWER, BidJob(x, 11.0).Writes()) == HIGHER
  {
    RunOne(b, SetSnapshot(map[], map[]));
    assert EmptyJob(x).Writes() == [SetSnapshot(map[], map[])];
    RunOne(EMPTY_BOOK, Update(Bid, 10.0, 1.0));
    assert BidJob(x, 10.0).Writes() == [Update(Bid, 10.0, 1.0)];
    RunOne(LOWER, Update(Bid, 11.0, 1.0));
    assert BidJob(x, 11.0).Writes() == [Update(Bid, 11.0, 1.0)];
  }

  /** The thread makes its write and its four reads. */
  lemma FirstReads(s: State, p: Producer, x: string) returns (steps: seq<Step>)
    requires HandlerOf(s, p).Idle? && x in s.books && s.books[x] == EMPTY_BOOK
    ensures steps == [Begin(p, BidJob(x, 10.0))] + Acts(p, Length(BidJob(x, 10.0)) - 1)
    ensures Exec(s, steps)
         == With(Next(s, Begin(p, BidJob(x, 10.0))), p, Reading(BidJob(x, 10.0), TopReads(LOWER)), x, LOWER)
  {
    var job := BidJob(x, 10.0);
    var begun := Next(s, Begin(p, job));
    ExecSnoc(s, [], Begin(p, job));
    steps := [Begin(p, job)] + Acts(p, Length(job) - 1);
    ExecConcat(s, [Begin(p, job)], Acts(p, Length(job) - 1));
    ActsAlone(begun, p, Length(job) - 1);
    JobWrites(LOWER, x);
    DeltaReads(begun, p, job, LOWER, Length(job) - 1);
  }

  function Stale(x: string, p: Producer, seen: seq<real>): Dispatch.Entry
    requires |seen| == 4
  {
    Dispatch.Entry(p, UpdateFrom(BidJob(x, 10.0).message.delta, seen))
  }

  /** The thread `q` has handled a whole message, and then `p` enqueued what it had read before. */
  ghost function Overtaken(s: State, p: Producer, q: Producer, x: string): State {
    var newer := Dispatch.Enqueue(Dispatch.Entry(q, Published(HIGHER, BidJob(x, 11.0))));
    var stale := Dispatch.Enqueue(Stale(x, p, TopReads(LOWER)));
    State(
      s.books[x := HIGHER],
      s.handlers[q := Idle][p := Idle],
      Dispatch.Next(Dispatch.Next(s.pipe, newer), stale),
      s.begun + [BidJob(x, 11.0)])
  }

  lemma Overtakes(s: State, p: Producer, q: Producer, x: string) returns (steps: seq<Step>)
    requires p != q && HandlerOf(s, q).Idle? && x in s.books && s.books[x] == LOWER
    requires HandlerOf(s, p) == Reading(BidJob(x, 10.0), TopReads(LOWER))
    ensures steps == [Begin(q, BidJob(x, 11.0))] + Acts(q, Length(BidJob(x, 11.0))) + [Act(p)]
    ensures Exec(s, steps) == Overtaken(s, p, q, x)
  {
    var job := BidJob(x, 11.0);
    var alone := [Begin(q, job)] + Acts(q, Length(job));
    JobWrites(LOWER, x);
    AloneIsHandle(s, q, job);
    steps := alone + [Act(p)];
    ExecSnoc(s, alone, Act(p));
    var middle := Exec(s, alone);
    assert HandlerOf(middle, p) == HandlerOf(s, p);
  }

  /** Only these threads bring messages of the symbol. */
  ghost predicate BroughtBy(steps: seq<Step>, x: string, producers: iset<Producer>) {
    forall step | step in steps :: step.Begin? && step.job.Symbol() == x ==> step.producer in producers
  }

  /** Everything enqueued is still there, and the dispatcher has not been started. */
  predicate Unread(pipe: Dispatch.State) {
    pipe == Dispatch.INITIAL.(callback := true, queue := pipe.queue, enqueued := pipe.queue)
  }

  predicate MadeByThreads(steps: seq<Step>, p: Producer, q: Producer) {
    forall step | step in steps :: step.Act? || (step.Begin? && step.producer in {p, q})
  }

  ghost predicate AllIdle(s: State) {
    forall r :: HandlerOf(s, r).Idle?
  }

  /** First the book is cleared. */
  lemma Cleared(books: Books, x: string, p: Producer, q: Producer) returns (steps: seq<Step>)
    requires x in books
    ensures MadeByThreads(steps, p, q)
    ensures var s := Exec(Start(books), steps);
            && x in s.books && s.books[x] == EMPTY_BOOK && AllIdle(s)
            && s.begun == [EmptyJob(x)] && Unread(s.pipe) && |s.pipe.queue| == 1
  {
    steps := [Begin(p, EmptyJob(x))] + Acts(p, Length(EmptyJob(x)));
    AloneIsHandle(Start(books), p, EmptyJob(x));
    JobWrites(books[x], x);
  }

  /** Then the older top is enqueued after the newer. */
  lemma StaleFollows(s: State, x: string, p: Producer, q: Producer) returns (steps: seq<Step>, newer: Dispatch.Entry)
    requires p != q && x in s.books && s.books[x] == EMPTY_BOOK && AllIdle(s) && Unread(s.pipe)
    ensures MadeByThreads(steps, p, q)
    ensures var t := Exec(s, steps);
            && x in t.books && t.books[x] == HIGHER && AllIdle(t)
            && t.begun == s.begun + [BidJob(x, 10.0)] + [BidJob(x, 11.0)]
            && Unread(t.pipe) && t.pipe.queue == s.pipe.queue + [newer] + [Stale(x, p, TopReads(LOWER))]
  {
    assert HandlerOf(s, p).Idle? && HandlerOf(s, q).Idle?;
    var first := FirstReads(s, p, x);
    var s2 := Exec(s, first);
    assert HandlerOf(s2, q) == HandlerOf(s, q);
    var second := Overtakes(s2, p, q, x);
    assert s2.pipe == s.pipe && s2.begun == s.begun + [BidJob(x, 10.0)];
    ExecConcat(s, first, second);
    newer := Dispatch.Entry(q, Published(HIGHER, BidJob(x, 11.0)));
    steps := first + second;
    IdleAgain(s, s2, p, q, x);
  }

  lemma IdleAgain(s: State, t: State, p: Producer, q: Producer, x: string)
    requires AllIdle(s) && forall r | r != p :: HandlerOf(t, r) == HandlerOf(s, r)
    ensures AllIdle(Overtaken(t, p, q, x))
  {
    forall r
      ensures HandlerOf(Overtaken(t, p, q, x), r).Idle?
    {
      assert HandlerOf(s, r).Idle?;
    }
  }

  /** A run of two producers up to the point where the older top has been enqueued after the newer. */
  lemma StaleIsEnqueued(books: Books, x: string, p: Producer, q: Producer)
    returns (steps: seq<Step>, newer: seq<Dispatch.Entry>)
    requires x in books && p != q
    ensures MadeByThreads(steps, p, q)
    ensures var s := Exec(Start(books), steps);
            && x in s.books && s.books[x] == HIGHER && AllIdle(s)
            && s.begun == [EmptyJob(x)] + [BidJob(x, 10.0)] + [BidJob(x, 11.0)]
            && Unread(s.pipe) && s.pipe.queue == newer + [Stale(x, p, TopReads(LOWER))]
  {
    var first := Cleared(books, x, p, q);
    var s := Exec(Start(books), first);
    var second, entry := StaleFollows(s, x, p, q);
    ExecConcat(Start(books), first, second);
    steps, newer := first + second, s.pipe.queue + [entry];
  }

  lemma DrainUnread(pipe: Dispatch.State) returns (rest: seq<Dispatch.Step>)
    requires Unread(pipe)
    ensures forall step | step in rest :: !step.Enqueue? && !step.SetCallback?
    ensures var t := Dispatch.Exec(pipe, rest);
            t.queue == [] && !t.dispatcher.Holding? && Dispatch.Entries(t.handled) == pipe.queue
  {
    assert Dispatch.Accounted(pipe) == pipe.queue;
    rest := Dispatch.RestartRecovers(pipe);
  }

  /** Any two threads that bring deltas of one symbol can leave its subscriber with a stale top for
      good, whatever the books: no handler is at work, nothing waits, and yet the last update the
      callback was called with has bid 10, while the best bid is 11. */
  lemma StaleTopCanBeLast(books: Books, x: string, p: Producer, q: Producer) returns (steps: seq<Step>)
    requires x in books && p != q
    ensures BroughtBy(steps, x, iset{p, q}) && KeepsCallback(steps)
    ensures var s, out := Exec(Start(books), steps), Received(Exec(Start(books), steps), x);
            && Quiet(s, x) && s.pipe.queue == [] && AllIdle(s)
            && x in s.books && BestOf(s.books[x], Bid) == 11.0
            && out != [] && out[|out| - 1].bidPrice == 10.0 && !EndsCurrent(s, x)
  {
    var first, newer := StaleIsEnqueued(books, x, p, q);
    var s := Exec(Start(books), first);
    var rest := DrainUnread(s.pipe);
    PipedExec(s, rest);
    ExecConcat(Start(books), first, Piped(rest));
    steps := first + Piped(rest);
    assert forall step | step in Piped(rest) :: step.Pipe? && !step.step.SetCallback?;
    NoneDropped(books, steps);
    assert forall r :: HandlerOf(Exec(Start(books), steps), r) == HandlerOf(s, r);
    EndsStale(Exec(Start(books), steps), x, p, newer);
  }

  lemma EndsStale(s: State, x: string, p: Producer, newer: seq<Dispatch.Entry>)
    requires x in s.books && s.books[x] == HIGHER && AllIdle(s)
    requires s.begun == [EmptyJob(x)] + [BidJob(x, 10.0)] + [BidJob(x, 11.0)]
    requires AllDelivered(s.pipe) && s.pipe.queue == [] && !s.pipe.dispatcher.Holding?
    requires Dispatch.Entries(s.pipe.handled) == newer + [Stale(x, p, TopReads(LOWER))]
    ensures Quiet(s, x) && BestOf(s.books[x], Bid) == 11.0
    ensures var out := Received(s, x);
            out != [] && out[|out| - 1].bidPrice == 10.0 && !EndsCurrent(s, x)
  {
    forall r
      ensures !HandlerOf(s, r).Busy(x)
    {
      assert HandlerOf(s, r).Idle?;
    }
    DeliveredIsHandled(s.pipe);
    SelectSnoc(newer, Stale(x, p, TopReads(LOWER)), IsOn(x), Dispatch.UpdateOf);
    SelectSnoc([EmptyJob(x)] + [BidJob(x, 10.0)], BidJob(x, 11.0), JobIsFor(x), Identity);
    BestBids();
  }

  lemma BestBids()
    ensures BestOf(LOWER, Bid) == 10.0 && BestOf(HIGHER, Bid) == 11.0
  {
    assert 10.0 in LOWER.bids && 11.0 in HIGHER.bids;
    BestIs(Bid, LOWER.bids);
    BestIs(Bid, HIGHER.bids);
  }

  /** A run that ends quiet, with the symbol's messages brought by some of the given threads. */
  ghost predicate QuietRun(books: Books, steps: seq<Step>, x: string, producers: iset<Producer>) {
    BroughtBy(steps, x, producers) && KeepsCallback(steps) && Quiet(Exec(Start(books), steps), x)
  }

  ghost predicate AtMostOne(producers: iset<Producer>) {
    forall p, q | p in producers && q in producers :: p == q
  }

  /** A registered subscriber is up to date at the end of every quiet run exactly if no two threads
      may bring messages of the symbol. */
  lemma CurrentExactly(books: Books, x: string, producers: iset<Producer>)
    requires x in books
    ensures AtMostOne(producers)
       <==> forall steps | QuietRun(books, steps, x, producers) :: EndsCurrent(Exec(Start(books), steps), x)
  {
    if AtMostOne(producers) {
      var o: Producer := if p :| p in producers then p else 0;
      forall steps | QuietRun(books, steps, x, producers)
        ensures EndsCurrent(Exec(Start(books), steps), x)
      {
        assert forall step | step in steps :: Respects(step, x, o);
        LastUpdateIsCurrent(books, steps, x, o);
      }
    } else {
      var p, q :| p in producers && q in producers && p != q;
      var steps := StaleTopCanBeLast(books, x, p, q);
      assert QuietRun(books, steps, x, producers);
    }
  }
}
