/** How the pipeline comes to rest: once no message begins for a while, the handlers under way finish,
    the dispatcher empties the queue, and every subscriber has all it should get. */
module Settling {
  import Feed
  import opened Pipeline
  import Dispatch

  /** No message begins and nobody stops the engine. */
  predicate NothingNew(steps: seq<Step>) {
    forall step | step in steps :: !step.Begin? && step != Pipe(Dispatch.RequestStop)
  }

  // ---------------------------------------------------------------------------------------
  // The handlers finish
  // ---------------------------------------------------------------------------------------

  /** The acts a handler has left: its writes, its reads and its enqueue. */
  function Remaining(h: Handler): nat {
    match h
    case Idle => 0
    case Writing(job, done) => if done <= Length(job) then Length(job) - done else 0
    case Reading(job, seen) => if |seen| <= 4 then 5 - |seen| else 0
  }

  function ActsOf(steps: seq<Step>, p: Producer): nat {
    if steps == [] then 0 else
      ActsOf(steps[..|steps| - 1], p) + if steps[|steps| - 1] == Act(p) then 1 else 0
  }

  /** What holds of every handler: its book exists, and it stands somewhere in its message. */
  ghost predicate UnderWay(books: Feed.Books, h: Handler) {
    match h
    case Idle => true
    case Writing(job, done) => job.Symbol() in books && done <= |job.Writes()|
    case Reading(job, seen) => job.Symbol() in books && job.message.DeltaMessage? && 1 <= |seen| <= 4
  }

  ghost predicate AllUnderWay(s: State) {
    forall p :: UnderWay(s.books, HandlerOf(s, p))
  }

  lemma ActUnderWay(s: State, p: Producer)
    requires UnderWay(s.books, HandlerOf(s, p))
    ensures UnderWay(Advance(s, p).books, HandlerOf(Advance(s, p), p))
    ensures Remaining(HandlerOf(s, p)) > 0 ==> Remaining(HandlerOf(Advance(s, p), p)) == Remaining(HandlerOf(s, p)) - 1
    ensures Remaining(HandlerOf(s, p)) == 0 <==> HandlerOf(s, p).Idle?
  {
  }

  lemma OthersStay(s: State, p: Producer, r: Producer)
    requires r != p
    ensures HandlerOf(Advance(s, p), r) == HandlerOf(s, r) && Advance(s, p).books.Keys == s.books.Keys
  {
  }

  lemma StepUnderWay(s: State, step: Step)
    requires AllUnderWay(s)
    ensures AllUnderWay(Next(s, step))
  {
    forall r
      ensures UnderWay(Next(s, step).books, HandlerOf(Next(s, step), r))
    {
      assert UnderWay(s.books, HandlerOf(s, r));
      if step.Act? && r == step.producer {
        ActUnderWay(s, r);
      } else if step.Act? {
        OthersStay(s, step.producer, r);
      }
    }
  }

  lemma {:induction false} RunUnderWay(s: State, steps: seq<Step>)
    requires AllUnderWay(s)
    ensures AllUnderWay(Exec(s, steps))
  {
    if steps != [] {
      RunUnderWay(s, steps[..|steps| - 1]);
      StepUnderWay(Exec(s, steps[..|steps| - 1]), steps[|steps| - 1]);
    }
  }

  /** While no message begins, each act of a thread brings its handler one act nearer to the end. */
  lemma {:induction false} HandlerProgress(s: State, steps: seq<Step>, p: Producer)
    requires AllUnderWay(s) && NothingNew(steps)
    ensures var left, acts := Remaining(HandlerOf(s, p)), ActsOf(steps, p);
            Remaining(HandlerOf(Exec(s, steps), p)) == if acts < left then left - acts else 0
  {
    if steps != [] {
      var init, last := steps[..|steps| - 1], steps[|steps| - 1];
      assert steps == init + [last] && last in steps;
      HandlerProgress(s, init, p);
      RunUnderWay(s, init);
      var t := Exec(s, init);
      assert UnderWay(t.books, HandlerOf(t, p));
      ActUnderWay(t, p);
      if last.Act? && last.producer != p {
        OthersStay(t, last.producer, p);
      }
    }
  }

  /** Every thread acts as often as its handler needs. */
  ghost predicate HandlersFinish(s: State, steps: seq<Step>) {
    forall p :: ActsOf(steps, p) >= Remaining(HandlerOf(s, p))
  }

  lemma FinishedIsIdle(s: State, steps: seq<Step>)
    requires AllUnderWay(s) && NothingNew(steps) && HandlersFinish(s, steps)
    ensures AllIdle(Exec(s, steps))
  {
    RunUnderWay(s, steps);
    var t := Exec(s, steps);
    forall p
      ensures HandlerOf(t, p).Idle?
    {
      HandlerProgress(s, steps, p);
      assert ActsOf(steps, p) >= Remaining(HandlerOf(s, p)) && UnderWay(t.books, HandlerOf(t, p));
      ActUnderWay(t, p);
    }
  }

  // ---------------------------------------------------------------------------------------
  // What they hand to the queue
  // ---------------------------------------------------------------------------------------

  /** What a step does to the queue. */
  ghost function QueueStep(s: State, step: Step): seq<Dispatch.Step> {
    match step
    case Begin(_, _) => []
    case Act(p) =>
      var h := HandlerOf(s, p);
      if !h.Idle? && h.job.Symbol() in s.books && Due(h).Some?
      then [Dispatch.Enqueue(Dispatch.Entry(p, Due(h).value))] else []
    case Pipe(step) => if step.Enqueue? then [] else [step]
  }

  /** The steps of the queue in a run. */
  ghost function QueueSteps(s: State, steps: seq<Step>): seq<Dispatch.Step> {
    if steps == [] then [] else
      var init, last := steps[..|steps| - 1], steps[|steps| - 1];
      QueueSteps(s, init) + QueueStep(Exec(s, init), last)
  }

  lemma QueueOne(s: State, step: Step)
    ensures Next(s, step).pipe == Dispatch.Exec(s.pipe, QueueStep(s, step))
  {
    var one := QueueStep(s, step);
    if one != [] {
      Dispatch.ExecSnoc(s.pipe, [], one[0]);
      assert one == [] + [one[0]];
    }
  }

  lemma {:induction false} QueueRun(s: State, steps: seq<Step>)
    ensures Exec(s, steps).pipe == Dispatch.Exec(s.pipe, QueueSteps(s, steps))
  {
    if steps != [] {
      var init, last := steps[..|steps| - 1], steps[|steps| - 1];
      QueueRun(s, init);
      QueueOne(Exec(s, init), last);
      Dispatch.ExecConcat(s.pipe, QueueSteps(s, init), QueueStep(Exec(s, init), last));
    }
  }

  lemma {:induction false} NoStop(s: State, steps: seq<Step>)
    requires NothingNew(steps)
    ensures Dispatch.RequestStop !in QueueSteps(s, steps)
  {
    if steps != [] {
      var init, last := steps[..|steps| - 1], steps[|steps| - 1];
      assert steps == init + [last] && last in steps;
      NoStop(s, init);
    }
  }

  /** The threads whose handlers are under way. */
  function BusyThreads(s: State): set<Producer> {
    set p | p in s.handlers && !s.handlers[p].Idle?
  }

  lemma BusyStep(s: State, step: Step)
    requires !step.Begin?
    ensures |BusyThreads(Next(s, step))| + Dispatch.Arrivals(QueueStep(s, step)) == |BusyThreads(s)|
  {
    match step
    case Pipe(_) =>
    case Act(p) =>
      var t, one := Next(s, step), QueueStep(s, step);
      if one == [] {
        assert BusyThreads(t) == BusyThreads(s);
      } else {
        assert p in BusyThreads(s) && BusyThreads(t) == BusyThreads(s) - {p};
        assert one[..0] == [];
      }
  }

  /** While no message begins, each handler under way enqueues one update, and that is all that is. */
  lemma {:induction false} BusyBalance(s: State, steps: seq<Step>)
    requires NothingNew(steps)
    ensures |BusyThreads(Exec(s, steps))| + Dispatch.Arrivals(QueueSteps(s, steps)) == |BusyThreads(s)|
  {
    if steps != [] {
      var init, last := steps[..|steps| - 1], steps[|steps| - 1];
      assert steps == init + [last] && last in steps;
      BusyBalance(s, init);
      BusyStep(Exec(s, init), last);
      Dispatch.ArrivalsConcat(QueueSteps(s, init), QueueStep(Exec(s, init), last));
    }
  }

  // ---------------------------------------------------------------------------------------
  // The pipeline comes to rest
  // ---------------------------------------------------------------------------------------

  /** From `s` on nothing new happens: first the handlers finish; then the dispatcher acts three times
      for each update that waits in `s` or that a handler of `s` has yet to enqueue, and two more times
      for each dequeue that fails although something is in the queue. */
  ghost predicate Settles(s: State, finish: seq<Step>, drain: seq<Step>) {
    var u := Exec(s, finish);
    var steps := QueueSteps(u, drain);
    && s.pipe.running && !s.pipe.dispatcher.Exited?
    && NothingNew(finish) && NothingNew(drain) && HandlersFinish(s, finish)
    && Dispatch.Actions(u.pipe, steps)
       >= 3 * (|Waiting(s.pipe)| + |BusyThreads(s)|) + 2 * Dispatch.Spurious(u.pipe, steps)
  }

  lemma LeftAfterFinish(s: State, finish: seq<Step>)
    requires s.pipe.running && !s.pipe.dispatcher.Exited? && NothingNew(finish)
    ensures var u := Exec(s, finish);
            && u.pipe.running && !u.pipe.dispatcher.Exited?
            && Dispatch.Left(u.pipe) <= 3 * (|Waiting(s.pipe)| + |BusyThreads(s)|)
  {
    var steps := QueueSteps(s, finish);
    QueueRun(s, finish);
    NoStop(s, finish);
    BusyBalance(s, finish);
    Dispatch.WorkBalance(s.pipe, steps);
    Dispatch.PendingBound(s.pipe, steps);
  }

  lemma IdleIsNotBusy(s: State)
    requires AllIdle(s)
    ensures BusyThreads(s) == {}
  {
    forall p | p in s.handlers
      ensures s.handlers[p].Idle?
    {
      assert HandlerOf(s, p).Idle?;
    }
  }

  lemma DrainsQueue(u: State, drain: seq<Step>)
    requires u.pipe.running && !u.pipe.dispatcher.Exited? && AllIdle(u) && NothingNew(drain)
    requires var steps := QueueSteps(u, drain);
             Dispatch.Actions(u.pipe, steps) >= Dispatch.Left(u.pipe) + 2 * Dispatch.Spurious(u.pipe, steps)
    ensures Waiting(Exec(u, drain).pipe) == []
  {
    QueueRun(u, drain);
    NoStop(u, drain);
    IdleEnqueuesNothing(u, drain);
    Dispatch.DoneExactly(u.pipe, QueueSteps(u, drain));
    NothingLeftWaits(Exec(u, drain).pipe);
  }

  lemma IdleEnqueuesNothing(u: State, steps: seq<Step>)
    requires AllIdle(u) && NothingNew(steps)
    ensures Dispatch.NoArrival(QueueSteps(u, steps))
  {
    IdleIsNotBusy(u);
    BusyBalance(u, steps);
    Dispatch.NoArrivals(QueueSteps(u, steps));
  }

  lemma NothingLeftWaits(pipe: Dispatch.State)
    requires Dispatch.Left(pipe) == 0
    ensures Waiting(pipe) == []
  {
  }

  /** Whatever the order of the steps, such a run ends with all handlers idle and nothing waiting. */
  lemma ComesToRest(s: State, finish: seq<Step>, drain: seq<Step>)
    requires AllUnderWay(s) && Settles(s, finish, drain)
    ensures var t := Exec(s, finish + drain);
            AllIdle(t) && Waiting(t.pipe) == [] && t.begun == s.begun
  {
    var u := Exec(s, finish);
    FinishedIsIdle(s, finish);
    LeftAfterFinish(s, finish);
    DrainsQueue(u, drain);
    StaysIdle(u, drain);
    NoneBegun(s, finish);
    NoneBegun(u, drain);
    ExecConcat(s, finish, drain);
  }

  lemma {:induction false} StaysIdle(u: State, steps: seq<Step>)
    requires AllIdle(u) && NothingNew(steps)
    ensures AllIdle(Exec(u, steps))
  {
    if steps != [] {
      var init, last := steps[..|steps| - 1], steps[|steps| - 1];
      assert steps == init + [last] && last in steps;
      StaysIdle(u, init);
      var t := Exec(u, init);
      forall p
        ensures HandlerOf(Next(t, last), p).Idle?
      {
        assert HandlerOf(t, p).Idle?;
        if last.Act? {
          assert HandlerOf(t, last.producer).Idle?;
        }
      }
    }
  }

  lemma {:induction false} NoneBegun(s: State, steps: seq<Step>)
    requires NothingNew(steps)
    ensures Exec(s, steps).begun == s.begun
  {
    if steps != [] {
      var init, last := steps[..|steps| - 1], steps[|steps| - 1];
      assert steps == init + [last] && last in steps;
      NoneBegun(s, init);
    }
  }

  /** With one producer for a symbol and a callback that stays registered: after any run `before`, and
      once nothing new has happened for long enough, the callback has been called with the top of the
      symbol's book after each of its messages, in order, and the book is what the messages make it. */
  lemma AllTopsArrive(books: Feed.Books, before: seq<Step>, finish: seq<Step>, drain: seq<Step>, x: string,
                      o: Producer)
    requires x in books && Settles(Exec(Start(books), before), finish, drain)
    requires KeepsCallback(before + (finish + drain)) && forall step | step in before :: Respects(step, x, o)
    ensures var s := Exec(Start(books), before);
            var t, jobs := Exec(s, finish + drain), JobsFor(s.begun, x);
            && Quiet(t, x) && x in t.books
            && Received(t, x) == Tops(books[x], jobs) && t.books[x] == After(books[x], jobs)
  {
    ReachableRest(books, before, finish, drain);
    RestIsQuiet(Exec(Exec(Start(books), before), finish + drain), x);
    StillRespects(before, finish + drain, x, o);
    ReceivedAfter(books, before, finish + drain, x, o);
  }

  lemma ReceivedAfter(books: Feed.Books, before: seq<Step>, after: seq<Step>, x: string, o: Producer)
    requires x in books && KeepsCallback(before + after)
    requires forall step | step in before + after :: Respects(step, x, o)
    ensures var t := Exec(Exec(Start(books), before), after);
            var jobs := JobsFor(t.begun, x);
            x in t.books
            && (Quiet(t, x) ==> Received(t, x) == Tops(books[x], jobs) && t.books[x] == After(books[x], jobs))
  {
    ExecConcat(Start(books), before, after);
    UpdatesAreTops(books, before + after, x, o);
  }

  lemma ReachableRest(books: Feed.Books, before: seq<Step>, finish: seq<Step>, drain: seq<Step>)
    requires Settles(Exec(Start(books), before), finish, drain)
    ensures var s := Exec(Start(books), before);
            var t := Exec(s, finish + drain);
            AllIdle(t) && Waiting(t.pipe) == [] && t.begun == s.begun
  {
    StartUnderWay(books);
    RunUnderWay(Start(books), before);
    ComesToRest(Exec(Start(books), before), finish, drain);
  }

  lemma StartUnderWay(books: Feed.Books)
    ensures AllUnderWay(Start(books))
  {
  }

  lemma StillRespects(before: seq<Step>, after: seq<Step>, x: string, o: Producer)
    requires NothingNew(after) && forall step | step in before :: Respects(step, x, o)
    ensures forall step | step in before + after :: Respects(step, x, o)
  {
    forall step | step in before + after
      ensures Respects(step, x, o)
    {
      assert step in before || step in after;
    }
  }

  lemma RestIsQuiet(t: State, x: string)
    requires AllIdle(t) && Waiting(t.pipe) == []
    ensures Quiet(t, x)
  {
    forall p
      ensures !HandlerOf(t, p).Busy(x)
    {
      assert HandlerOf(t, p).Idle?;
    }
  }
}
