/** The path of a published update: the lock-free queue, the dispatcher thread, `initialize` and
    `stop`.  Handlers of any number of adapter threads enqueue at any time, also while the engine
    is stopped.  The queue keeps the order of each producer, and no order between producers. */
module Dispatch {
  import opened Messages
  import opened Sequences

  type Producer = nat

  datatype Entry = Entry(from: Producer, update: MarketUpdate)

  /** An update taken off the queue: passed to the callback, or dropped for want of one. */
  datatype Outcome = Outcome(entry: Entry, delivered: bool)

  /** Where the dispatcher thread stands in its loop. */
  datatype Dispatcher = Exited | AtGuard | AtDequeue | Holding(entry: Entry)

  datatype State = State(
    running: bool,
    callback: bool,
    dispatcher: Dispatcher,
    queue: seq<Entry>,
    enqueued: seq<Entry>,   // every update ever enqueued
    handled: seq<Outcome>)  // every update the dispatcher has finished with

  datatype Step =
    | Enqueue(entry: Entry)      // the end of a handler
    | Guard                      // `while (running_)`
    | Dequeue(index: nat)        // `try_dequeue` succeeds
    | DequeueFails               // `try_dequeue` fails, the thread sleeps
    | Notify                     // `if (updateCallback_) updateCallback_(update)`
    | SetCallback(present: bool) // `registerCallback`
    | Initialize
    | RequestStop                // `running_ = false`; `stop` then waits for the dispatcher to exit
  {
    /** The steps the dispatcher thread itself makes. */
    predicate IsDispatchers() {
      Guard? || Dequeue? || DequeueFails? || Notify?
    }
  }

  /** The oldest pending update of its producer. */
  predicate Oldest(queue: seq<Entry>, i: nat) {
    i < |queue| && forall j | 0 <= j < i :: queue[j].from != queue[i].from
  }

  /** A step that is not enabled changes nothing. */
  function Next(s: State, step: Step): State {
    match step
    case Enqueue(e) => s.(queue := s.queue + [e], enqueued := s.enqueued + [e])
    case Guard =>
      if s.dispatcher.AtGuard? then s.(dispatcher := if s.running then AtDequeue else Exited) else s
    case Dequeue(i) =>
      if s.dispatcher.AtDequeue? && Oldest(s.queue, i)
      then s.(dispatcher := Holding(s.queue[i]), queue := s.queue[..i] + s.queue[i + 1..]) else s
    case DequeueFails =>
      if s.dispatcher.AtDequeue? then s.(dispatcher := AtGuard) else s
    case Notify =>
      if s.dispatcher.Holding?
      then s.(dispatcher := AtGuard, handled := s.handled + [Outcome(s.dispatcher.entry, s.callback)]) else s
    case SetCallback(present) => s.(callback := present)
    case Initialize =>
      if !s.running && s.dispatcher.Exited? then s.(running := true, dispatcher := AtGuard) else s
    case RequestStop => s.(running := false)
  }

  function Exec(s: State, steps: seq<Step>): State {
    if steps == [] then s else Next(Exec(s, steps[..|steps| - 1]), steps[|steps| - 1])
  }

  const INITIAL := State(false, false, Exited, [], [], [])

  lemma ExecSnoc(s: State, steps: seq<Step>, step: Step)
    ensures Exec(s, steps + [step]) == Next(Exec(s, steps), step)
  {
    assert (steps + [step])[..|steps|] == steps;
  }

  lemma {:induction false} ExecConcat(s: State, x: seq<Step>, y: seq<Step>)
    ensures Exec(s, x + y) == Exec(Exec(s, x), y)
  {
    if y == [] {
      assert x + y == x;
    } else {
      var init := y[..|y| - 1];
      assert (x + y)[..|x + y| - 1] == x + init;
      ExecConcat(s, x, init);
    }
  }

  // ---------------------------------------------------------------------------------------
  // Conservation
  // ---------------------------------------------------------------------------------------

  function SentBy(p: Producer): Entry -> bool {
    (e: Entry) => e.from == p
  }

  function UpdateOf(e: Entry): MarketUpdate {
    e.update
  }

  /** The updates of one producer, in order. */
  function By(entries: seq<Entry>, p: Producer): seq<MarketUpdate> {
    Select(entries, SentBy(p), UpdateOf)
  }

  function Entries(handled: seq<Outcome>): seq<Entry> {
    seq(|handled|, i requires 0 <= i < |handled| => handled[i].entry)
  }

  function Held(d: Dispatcher): seq<Entry> {
    if d.Holding? then [d.entry] else []
  }

  /** Everything that left the queue, in the order it left, then everything still in it. */
  function Accounted(s: State): seq<Entry> {
    Entries(s.handled) + Held(s.dispatcher) + s.queue
  }

  /** Nothing is lost, made up or duplicated, and each producer's order is kept. */
  ghost predicate Conserved(s: State) {
    && multiset(s.enqueued) == multiset(Accounted(s))
    && forall p: Producer :: By(s.enqueued, p) == By(Accounted(s), p)
  }

  /** Taking the oldest update of some producer to the front keeps the order of every producer. */
  lemma OldestFirst(x: seq<Entry>, e: Entry, y: seq<Entry>, p: Producer)
    requires forall f | f in x :: f.from != e.from
    ensures By([e] + (x + y), p) == By(x + [e] + y, p)
  {
    SelectConcat([e], x + y, SentBy(p), UpdateOf);
    SelectConcat(x, y, SentBy(p), UpdateOf);
    SelectConcat(x + [e], y, SentBy(p), UpdateOf);
    SelectConcat(x, [e], SentBy(p), UpdateOf);
    SelectOne(e, SentBy(p), UpdateOf);
    if e.from == p {
      SelectNone(x, SentBy(p), UpdateOf);
      assert By(x, p) + By(y, p) == By(y, p);
    } else {
      assert [] + (By(x, p) + By(y, p)) == By(x, p) + By(y, p) && By(x, p) + [] == By(x, p);
    }
  }

  lemma Reordered(x: seq<Entry>, e: Entry, y: seq<Entry>)
    ensures multiset([e] + (x + y)) == multiset(x + [e] + y)
  {
  }

  /** Rewriting the accounted list into one with the same order for each producer. */
  lemma AccountedSuffix(x: seq<Entry>, y: seq<Entry>, z: seq<Entry>)
    requires multiset(y) == multiset(z) && forall p: Producer :: By(y, p) == By(z, p)
    ensures multiset(x + y) == multiset(x + z) && forall p: Producer :: By(x + y, p) == By(x + z, p)
  {
    forall p: Producer
      ensures By(x + y, p) == By(x + z, p)
    {
      assert By(y, p) == By(z, p);
      SelectConcat(x, y, SentBy(p), UpdateOf);
      SelectConcat(x, z, SentBy(p), UpdateOf);
    }
  }

  lemma DequeueKeeps(x: seq<Entry>, e: Entry, y: seq<Entry>, handled: seq<Entry>)
    requires forall f | f in x :: f.from != e.from
    ensures multiset(handled + ([e] + (x + y))) == multiset(handled + (x + [e] + y))
    ensures forall p: Producer :: By(handled + ([e] + (x + y)), p) == By(handled + (x + [e] + y), p)
  {
    Reordered(x, e, y);
    forall p: Producer
      ensures By([e] + (x + y), p) == By(x + [e] + y, p)
    {
      OldestFirst(x, e, y, p);
    }
    AccountedSuffix(handled, [e] + (x + y), x + [e] + y);
  }

  lemma AccountedDequeue(s: State, i: nat)
    requires s.dispatcher.AtDequeue? && Oldest(s.queue, i)
    ensures Accounted(s) == Entries(s.handled) + (s.queue[..i] + [s.queue[i]] + s.queue[i + 1..])
    ensures Accounted(Next(s, Dequeue(i))) == Entries(s.handled) + ([s.queue[i]] + (s.queue[..i] + s.queue[i + 1..]))
  {
    assert s.queue == s.queue[..i] + [s.queue[i]] + s.queue[i + 1..];
  }

  lemma ConservedDequeue(s: State, i: nat)
    requires Conserved(s) && s.dispatcher.AtDequeue? && Oldest(s.queue, i)
    ensures Conserved(Next(s, Dequeue(i)))
  {
    AccountedDequeue(s, i);
    DequeueKeeps(s.queue[..i], s.queue[i], s.queue[i + 1..], Entries(s.handled));
  }

  lemma ConservedEnqueue(s: State, e: Entry)
    requires Conserved(s)
    ensures Conserved(Next(s, Enqueue(e)))
  {
    var t := Next(s, Enqueue(e));
    assert Accounted(t) == Accounted(s) + [e];
    forall p: Producer
      ensures By(t.enqueued, p) == By(Accounted(t), p)
    {
      assert By(s.enqueued, p) == By(Accounted(s), p);
      SelectConcat(s.enqueued, [e], SentBy(p), UpdateOf);
      SelectConcat(Accounted(s), [e], SentBy(p), UpdateOf);
    }
  }

  lemma ConservedNotify(s: State)
    requires Conserved(s) && s.dispatcher.Holding?
    ensures Conserved(Next(s, Notify))
  {
    var t := Next(s, Notify);
    assert Entries(t.handled) == Entries(s.handled) + [s.dispatcher.entry];
    assert Accounted(t) == Accounted(s);
  }

  lemma ConservedStep(s: State, step: Step)
    requires Conserved(s)
    ensures Conserved(Next(s, step))
  {
    if step.Enqueue? {
      ConservedEnqueue(s, step.entry);
    } else if step.Dequeue? && s.dispatcher.AtDequeue? && Oldest(s.queue, step.index) {
      ConservedDequeue(s, step.index);
    } else if step.Notify? && s.dispatcher.Holding? {
      ConservedNotify(s);
    } else {
      var t := Next(s, step);
      assert t.enqueued == s.enqueued && Accounted(t) == Accounted(s);
    }
  }

  /** Over any run: enqueued is delivered plus dropped plus held plus pending, in each producer's order. */
  lemma {:induction false} Conservation(s: State, steps: seq<Step>)
    requires Conserved(s)
    ensures Conserved(Exec(s, steps))
  {
    if steps != [] {
      var init := steps[..|steps| - 1];
      Conservation(s, init);
      ConservedStep(Exec(s, init), steps[|steps| - 1]);
    }
  }

  lemma InitiallyConserved()
    ensures Conserved(INITIAL)
  {
  }

  // ---------------------------------------------------------------------------------------
  // Stopping and starting again
  // ---------------------------------------------------------------------------------------

  /** An update the dispatcher may still take or finish after it last saw `running_` set. */
  function InFlight(d: Dispatcher): nat {
    if d.AtDequeue? || d.Holding? then 1 else 0
  }

  /** Once stop is requested, at most the update in flight is handled until the engine is
      initialized again; what producers enqueue meanwhile stays in the queue. */
  lemma {:induction false} StopStrands(s: State, steps: seq<Step>)
    requires !s.running && Initialize !in steps
    ensures var t := Exec(s, steps);
            !t.running && s.handled <= t.handled
            && |t.handled| + InFlight(t.dispatcher) <= |s.handled| + InFlight(s.dispatcher)
            && (s.dispatcher.Exited? ==> t.dispatcher.Exited? && t.handled == s.handled && s.queue <= t.queue)
  {
    if steps != [] {
      var init, last := steps[..|steps| - 1], steps[|steps| - 1];
      assert steps == init + [last] && last in steps;
      StopStrands(s, init);
    }
  }

  lemma TakeFirst(s: State)
    requires s.running && s.dispatcher.AtGuard? && s.queue != []
    ensures Exec(s, [Guard] + [Dequeue(0)] + [Notify])
         == s.(queue := s.queue[1..], handled := s.handled + [Outcome(s.queue[0], s.callback)])
  {
    ExecSnoc(s, [], Guard);
    ExecSnoc(s, [Guard], Dequeue(0));
    ExecSnoc(s, [Guard] + [Dequeue(0)], Notify);
    assert Oldest(s.queue, 0);
  }

  /** A dispatcher at its guard can empty the queue without any help from the producers. */
  lemma {:induction false} Drain(s: State) returns (steps: seq<Step>)
    requires s.running && s.dispatcher.AtGuard?
    ensures var t := Exec(s, steps);
            t.queue == [] && t.dispatcher.AtGuard? && t.running && t.callback == s.callback && t.enqueued == s.enqueued
    ensures Entries(Exec(s, steps).handled) == Entries(s.handled) + s.queue
    ensures forall step | step in steps :: !step.Enqueue? && !step.SetCallback?
    decreases |s.queue|
  {
    if s.queue == [] {
      steps := [];
    } else {
      var turn := [Guard] + [Dequeue(0)] + [Notify];
      TakeFirst(s);
      var rest := Drain(Exec(s, turn));
      ExecConcat(s, turn, rest);
      OneMoreEntry(s.handled, s.queue, s.callback);
      steps := turn + rest;
    }
  }

  lemma OneMoreEntry(handled: seq<Outcome>, queue: seq<Entry>, delivered: bool)
    requires queue != []
    ensures Entries(handled + [Outcome(queue[0], delivered)]) + queue[1..] == Entries(handled) + queue
  {
    assert queue == [queue[0]] + queue[1..];
    assert Entries(handled + [Outcome(queue[0], delivered)]) == Entries(handled) + [queue[0]];
  }

  /** The updates the dispatcher has finished with, for one producer. */
  function HandledBy(s: State, p: Producer): seq<MarketUpdate> {
    By(Entries(s.handled), p)
  }

  /** Stopping loses nothing: after a restart there is a run that hands over every update ever
      enqueued, each producer's in the order it enqueued them. */
  lemma RestartRecovers(s: State) returns (steps: seq<Step>)
    requires Conserved(s) && !s.running && s.dispatcher.Exited?
    ensures forall step | step in steps :: !step.Enqueue? && !step.SetCallback?
    ensures Exec(s, steps).enqueued == s.enqueued && AllHandedOver(Exec(s, steps))
    ensures Exec(s, steps).dispatcher.AtGuard?
    ensures Entries(Exec(s, steps).handled) == Entries(s.handled) + s.queue
  {
    var started := Next(s, Initialize);
    var rest := Drain(started);
    steps := [Initialize] + rest;
    ExecSnoc(s, [], Initialize);
    ExecConcat(s, [Initialize], rest);
    Conservation(s, steps);
    NothingLeft(Exec(s, steps));
  }

  // ---------------------------------------------------------------------------------------
  // Every run that goes on long enough
  // ---------------------------------------------------------------------------------------

  /** The turns the dispatcher still needs before it finds nothing left to do. */
  function Work(s: State): nat {
    3 * |s.queue| + match s.dispatcher case AtGuard => 1 case Holding(_) => 2 case _ => 0
  }

  /** The dispatcher does something: it passes its guard, takes an update or finishes with one. */
  predicate IsTurn(s: State, step: Step) {
    match step
    case Guard => s.dispatcher.AtGuard?
    case Dequeue(i) => s.dispatcher.AtDequeue? && Oldest(s.queue, i)
    case Notify => s.dispatcher.Holding?
    case _ => false
  }

  function Turns(s: State, steps: seq<Step>): nat {
    if steps == [] then 0 else
      var init, last := steps[..|steps| - 1], steps[|steps| - 1];
      Turns(s, init) + if IsTurn(Exec(s, init), last) then 1 else 0
  }

  /** Dequeues that fail, for want of an update or spuriously. */
  function Failures(s: State, steps: seq<Step>): nat {
    if steps == [] then 0 else
      var init, last := steps[..|steps| - 1], steps[|steps| - 1];
      Failures(s, init) + if last.DequeueFails? && Exec(s, init).dispatcher.AtDequeue? then 1 else 0
  }

  function Arrivals(steps: seq<Step>): nat {
    if steps == [] then 0 else
      Arrivals(steps[..|steps| - 1]) + if steps[|steps| - 1].Enqueue? then 1 else 0
  }

  lemma WorkStep(s: State, step: Step)
    requires s.running && !s.dispatcher.Exited? && !step.RequestStop?
    ensures var t := Next(s, step);
            t.running && !t.dispatcher.Exited?
            && Work(t) + (if IsTurn(s, step) then 1 else 0)
               == Work(s) + (if step.Enqueue? then 3 else 0)
                + (if step.DequeueFails? && s.dispatcher.AtDequeue? then 1 else 0)
  {
  }

  /** In any run without a stop: each turn does one unit of work, each arrival brings three and each
      failed dequeue costs one. */
  lemma {:induction false} WorkBalance(s: State, steps: seq<Step>)
    requires s.running && !s.dispatcher.Exited? && RequestStop !in steps
    ensures var t := Exec(s, steps);
            t.running && !t.dispatcher.Exited?
            && Work(t) + Turns(s, steps) == Work(s) + 3 * Arrivals(steps) + Failures(s, steps)
  {
    if steps != [] {
      var init, last := steps[..|steps| - 1], steps[|steps| - 1];
      assert steps == init + [last];
      WorkBalance(s, init);
      WorkStep(Exec(s, init), last);
    }
  }

  /** Every update ever enqueued has been handed over, each producer's in its order. */
  ghost predicate AllHandedOver(s: State) {
    && s.queue == [] && multiset(Entries(s.handled)) == multiset(s.enqueued)
    && forall p: Producer :: HandledBy(s, p) == By(s.enqueued, p)
  }

  lemma NothingLeft(s: State)
    requires Conserved(s) && s.queue == [] && !s.dispatcher.Holding?
    ensures AllHandedOver(s)
  {
    assert Accounted(s) == Entries(s.handled);
  }

  /** The dispatcher's actions: its turns and its failed dequeues. */
  function Actions(s: State, steps: seq<Step>): nat {
    Turns(s, steps) + Failures(s, steps)
  }

  /** Dequeues that fail although something is in the queue. */
  function Spurious(s: State, steps: seq<Step>): nat {
    if steps == [] then 0 else
      var init, last := steps[..|steps| - 1], steps[|steps| - 1];
      var u := Exec(s, init);
      Spurious(s, init) + if last.DequeueFails? && u.dispatcher.AtDequeue? && u.queue != [] then 1 else 0
  }

  /** The turns that are left until nothing is pending or held. */
  function Left(s: State): nat {
    if s.queue == [] && !s.dispatcher.Holding? then 0 else Work(s) - 1
  }

  predicate NoArrival(steps: seq<Step>) {
    forall step | step in steps :: !step.Enqueue?
  }

  lemma {:induction false} SpuriousFailures(s: State, steps: seq<Step>)
    requires NoArrival(steps)
    ensures Spurious(s, steps) <= Failures(s, steps)
    ensures Left(Exec(s, steps)) > 0 ==> Spurious(s, steps) == Failures(s, steps)
    ensures Left(s) == 0 ==> Left(Exec(s, steps)) == 0 && Spurious(s, steps) == 0
  {
    if steps != [] {
      var init, last := steps[..|steps| - 1], steps[|steps| - 1];
      assert steps == init + [last] && last in steps;
      SpuriousFailures(s, init);
    }
  }

  lemma {:induction false} NoArrivals(steps: seq<Step>)
    ensures Arrivals(steps) == 0 <==> NoArrival(steps)
  {
    if steps != [] {
      var init, last := steps[..|steps| - 1], steps[|steps| - 1];
      assert steps == init + [last] && last in steps;
      NoArrivals(init);
    }
  }

  lemma {:induction false} ArrivalsConcat(x: seq<Step>, y: seq<Step>)
    ensures Arrivals(x + y) == Arrivals(x) + Arrivals(y)
  {
    if y == [] {
      assert x + y == x;
    } else {
      assert (x + y)[..|x + y| - 1] == x + y[..|y| - 1];
      ArrivalsConcat(x, y[..|y| - 1]);
    }
  }

  /** While nothing arrives and nobody stops the engine, the number of actions decides whether the
      dispatcher is done: one for each turn that was left, and two more for each spurious failure. */
  lemma DoneExactly(s: State, steps: seq<Step>)
    requires s.running && !s.dispatcher.Exited? && RequestStop !in steps && NoArrival(steps)
    ensures Left(Exec(s, steps)) == 0 <==> Actions(s, steps) >= Left(s) + 2 * Spurious(s, steps)
  {
    WorkBalance(s, steps);
    NoArrivals(steps);
    SpuriousFailures(s, steps);
  }

  lemma {:induction false} PendingBound(s: State, steps: seq<Step>)
    ensures var t := Exec(s, steps);
            |t.queue| + |Held(t.dispatcher)| <= |s.queue| + |Held(s.dispatcher)| + Arrivals(steps)
  {
    if steps != [] {
      PendingBound(s, steps[..|steps| - 1]);
    }
  }

  /** After a restart `before` happens, with arrivals; then nothing arrives for a while, and in that
      time the dispatcher acts three times for each update it may have to deal with, and two more
      times for each spurious failure.  What was pending and what arrived is known from the start. */
  predicate LongRun(s: State, before: seq<Step>, after: seq<Step>) {
    var u := Exec(Next(s, Initialize), before);
    && !s.running && s.dispatcher.Exited? && RequestStop !in before + after && NoArrival(after)
    && Actions(u, after) >= 3 * (|s.queue| + Arrivals(before)) + 2 * Spurious(u, after)
  }

  /** Whatever the order in which producers, dispatcher and queue take their steps, every such run
      ends with everything handed over. */
  lemma LongRunsHandOver(s: State, before: seq<Step>, after: seq<Step>)
    requires Conserved(s) && LongRun(s, before, after)
    ensures AllHandedOver(Exec(Next(s, Initialize), before + after))
  {
    var started := Next(s, Initialize);
    var u := Exec(started, before);
    LeftAfterRestart(s, before);
    DoneExactly(u, after);
    ExecConcat(started, before, after);
    ConservedStep(s, Initialize);
    Conservation(started, before + after);
    NothingLeft(Exec(u, after));
  }

  lemma LeftAfterRestart(s: State, before: seq<Step>)
    requires !s.running && s.dispatcher.Exited? && RequestStop !in before
    ensures var u := Exec(Next(s, Initialize), before);
            u.running && !u.dispatcher.Exited? && Left(u) <= 3 * (|s.queue| + Arrivals(before))
  {
    WorkBalance(Next(s, Initialize), before);
    PendingBound(Next(s, Initialize), before);
  }

  function WasDelivered(o: Outcome): bool {
    o.delivered
  }

  function EntryOf(o: Outcome): Entry {
    o.entry
  }

  /** What the callback has been called with. */
  function Delivered(handled: seq<Outcome>): seq<Entry> {
    Select(handled, WasDelivered, EntryOf)
  }

  lemma HandledStep(s: State, step: Step)
    requires step != SetCallback(!s.callback)
    ensures var t := Next(s, step);
            && t.callback == s.callback && s.enqueued <= t.enqueued
            && t.handled == if step.Notify? && s.dispatcher.Holding?
                            then s.handled + [Outcome(s.dispatcher.entry, s.callback)] else s.handled
  {
  }

  /** As long as nobody changes the registration, all that is handled is delivered if a callback is
      registered, and nothing is if none is. */
  lemma {:induction false} CallbackDecides(s: State, steps: seq<Step>)
    requires SetCallback(!s.callback) !in steps
    ensures var t := Exec(s, steps);
            && t.callback == s.callback && s.enqueued <= t.enqueued && s.handled <= t.handled
            && (forall i | |s.handled| <= i < |t.handled| :: t.handled[i].delivered == s.callback)
            && Delivered(t.handled)
               == Delivered(s.handled) + (if s.callback then Entries(t.handled[|s.handled|..]) else [])
  {
    if steps == [] {
      assert Delivered(s.handled) + [] == Delivered(s.handled);
    } else {
      var init, last := steps[..|steps| - 1], steps[|steps| - 1];
      assert steps == init + [last];
      CallbackDecides(s, init);
      var u := Exec(s, init);
      HandledStep(u, last);
      if last.Notify? && u.dispatcher.Holding? {
        OneMoreOutcome(s.handled, u.handled, Outcome(u.dispatcher.entry, u.callback), s.callback);
      }
    }
  }

  lemma OneMoreOutcome(before: seq<Outcome>, handled: seq<Outcome>, o: Outcome, present: bool)
    requires before <= handled && o.delivered == present
    requires Delivered(handled) == Delivered(before) + (if present then Entries(handled[|before|..]) else [])
    ensures Delivered(handled + [o])
         == Delivered(before) + (if present then Entries((handled + [o])[|before|..]) else [])
  {
    SelectSnoc(handled, o, WasDelivered, EntryOf);
    assert (handled + [o])[|before|..] == handled[|before|..] + [o];
    assert Entries(handled[|before|..] + [o]) == Entries(handled[|before|..]) + [o.entry];
  }

  /** In every run, from any state: once a callback is registered and until it is taken away, it is
      called with all that is handled; once it is taken away and until one is registered again,
      nothing is delivered. */
  lemma RegistrationDecides(s: State, before: seq<Step>, present: bool, after: seq<Step>)
    requires SetCallback(!present) !in after
    ensures var u, t := Exec(s, before), Exec(s, before + [SetCallback(present)] + after);
            && t.callback == present && u.handled <= t.handled
            && (forall i | |u.handled| <= i < |t.handled| :: t.handled[i].delivered == present)
            && Delivered(t.handled)
               == Delivered(u.handled) + (if present then Entries(t.handled[|u.handled|..]) else [])
  {
    ExecAround(s, before, SetCallback(present), after);
    CallbackDecides(Next(Exec(s, before), SetCallback(present)), after);
  }

  lemma ExecAround(s: State, before: seq<Step>, step: Step, after: seq<Step>)
    ensures Exec(s, before + [step] + after) == Exec(Next(Exec(s, before), step), after)
  {
    ExecSnoc(s, before, step);
    ExecConcat(s, before + [step], after);
  }

  /** With a callback registered, what it is called with from a restart on is, all told, exactly what
      the stop had stranded and what was enqueued since. */
  lemma RestartDelivers(s: State, before: seq<Step>, after: seq<Step>)
    requires Conserved(s) && LongRun(s, before, after) && s.callback && SetCallback(false) !in before + after
    ensures var t := Exec(Next(s, Initialize), before + after);
            s.enqueued <= t.enqueued
            && multiset(Delivered(t.handled))
               == multiset(Delivered(s.handled)) + multiset(s.queue) + multiset(t.enqueued[|s.enqueued|..])
  {
    var started := Next(s, Initialize);
    LongRunsHandOver(s, before, after);
    CallbackDecides(started, before + after);
    DeliveredSince(s, started, Exec(started, before + after));
  }

  lemma DeliveredSince(s: State, started: State, t: State)
    requires Conserved(s) && s.dispatcher.Exited? && AllHandedOver(t)
    requires started.enqueued == s.enqueued && started.handled == s.handled
    requires started.enqueued <= t.enqueued && started.handled <= t.handled
    requires Delivered(t.handled) == Delivered(started.handled) + Entries(t.handled[|started.handled|..])
    ensures multiset(Delivered(t.handled))
         == multiset(Delivered(s.handled)) + multiset(s.queue) + multiset(t.enqueued[|s.enqueued|..])
  {
    EntriesSplit(s.handled, t.handled);
    assert Accounted(s) == Entries(s.handled) + s.queue;
    HandedOverSince(s.enqueued, t.enqueued, Entries(s.handled), Entries(t.handled[|s.handled|..]), s.queue);
  }

  lemma EntriesSplit(before: seq<Outcome>, handled: seq<Outcome>)
    requires before <= handled
    ensures Entries(handled) == Entries(before) + Entries(handled[|before|..])
  {
  }

  lemma HandedOverSince(before: seq<Entry>, after: seq<Entry>, past: seq<Entry>, since: seq<Entry>, queue: seq<Entry>)
    requires before <= after
    requires multiset(before) == multiset(past + queue) && multiset(after) == multiset(past + since)
    ensures multiset(since) == multiset(queue) + multiset(after[|before|..])
  {
    var arrived := after[|before|..];
    assert after == before + arrived;
    assert multiset(past) + multiset(queue) + multiset(arrived) == multiset(past) + multiset(since);
    forall e
      ensures multiset(since)[e] == (multiset(queue) + multiset(arrived))[e]
    {
      assert (multiset(past) + multiset(queue) + multiset(arrived))[e] == (multiset(past) + multiset(since))[e];
    }
  }
}
