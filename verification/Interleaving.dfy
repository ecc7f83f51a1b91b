/** Concurrent writers: when the order of locked steps does not matter. */
module Interleaving {
  import opened Levels
  import opened BookSpec
  import opened Sequences

  /** Two single-level writes that cannot influence each other.  On one side: different prices
      (or the same write twice).  On opposite sides: the levels do not cross, or both are removals. */
  predicate Independent(x: Op, y: Op) {
    && x.IsTouch() && y.IsTouch()
    && if x.side == y.side then x.price != y.price || x == y
       else Apart(x.side, x.price, y.price) || (x.Remove? && y.Remove?)
  }

  ghost predicate Commute(x: Op, y: Op) {
    forall b :: Apply(Apply(b, x), y) == Apply(Apply(b, y), x)
  }

  lemma IndependentSymmetric(x: Op, y: Op)
    ensures Independent(x, y) == Independent(y, x)
  {
  }

  /** The diamond: independent writes commute on every book, crossed ones included. */
  lemma Diamond(b: Book, x: Op, y: Op)
    requires Independent(x, y)
    ensures Apply(Apply(b, x), y) == Apply(Apply(b, y), x)
  {
    if x.side == y.side {
      DiamondSameSide(b, x, y);
    } else {
      DiamondOpposite(b, x, y);
    }
  }

  lemma EffectsCommute(own: Ladder, x: Op, y: Op, admitX: bool, admitY: bool)
    requires x.IsTouch() && y.IsTouch() && x.price != y.price
    ensures Effect(Effect(own, x, admitX), y, admitY) == Effect(Effect(own, y, admitY), x, admitX)
  {
  }

  lemma DiamondSameSide(b: Book, x: Op, y: Op)
    requires Independent(x, y) && x.side == y.side
    ensures Apply(Apply(b, x), y) == Apply(Apply(b, y), x)
  {
    if x != y {
      TouchEffect(b, x);
      TouchEffect(b, y);
      TouchEffect(Apply(b, x), y);
      TouchEffect(Apply(b, y), x);
      EffectsCommute(b.On(x.side), x, y, Verdict(b, x), Verdict(b, y));
    }
  }

  lemma DiamondOpposite(b: Book, x: Op, y: Op)
    requires Independent(x, y) && x.side != y.side
    ensures Apply(Apply(b, x), y) == Apply(Apply(b, y), x)
  {
    TouchEffect(b, x);
    TouchEffect(b, y);
    TouchEffect(Apply(b, x), y);
    TouchEffect(Apply(b, y), x);
    if x.Update? { VerdictUnmoved(b, x, y); }
    if y.Update? { VerdictUnmoved(b, y, x); }
  }

  /** An independent write on the opposite side does not change the verdict of a guard. */
  lemma VerdictUnmoved(b: Book, x: Op, y: Op)
    requires Independent(x, y) && x.side != y.side && x.Update?
    ensures Verdict(b, x) <==> Verdict(Apply(b, y), x)
  {
  }

  /** The diamond is exact: any other pair of single-level writes disagrees on some book. */
  lemma DiamondExact(x: Op, y: Op)
    requires x.IsTouch() && y.IsTouch()
    ensures Independent(x, y) <==> Commute(x, y)
  {
    if Independent(x, y) {
      forall b
        ensures Apply(Apply(b, x), y) == Apply(Apply(b, y), x)
      {
        Diamond(b, x, y);
      }
    } else {
      var b := Separates(x, y);
    }
  }

  lemma Separates(x: Op, y: Op) returns (b: Book)
    requires x.IsTouch() && y.IsTouch() && !Independent(x, y)
    ensures Apply(Apply(b, x), y) != Apply(Apply(b, y), x)
  {
    // The two writes meet on an empty book, unless one of them has to remove something first.
    if x.side != y.side && x.Remove? {
      b := EMPTY_BOOK.With(x.side, map[x.price := 1.0]);
    } else if x.side != y.side && y.Remove? {
      b := EMPTY_BOOK.With(y.side, map[y.price := 1.0]);
    } else {
      b := EMPTY_BOOK;
    }
    TouchEffect(b, x);
    TouchEffect(b, y);
    TouchEffect(Apply(b, x), y);
    TouchEffect(Apply(b, y), x);
    var xy, yx := Apply(Apply(b, x), y), Apply(Apply(b, y), x);
    if x.side != y.side && x.Remove? {
      assert y.price !in xy.On(y.side) <==> y.price in yx.On(y.side);
    }
    assert LevelAt(xy, x.side, x.price) != LevelAt(yx, x.side, x.price)
        || LevelAt(xy, y.side, y.price) != LevelAt(yx, y.side, y.price);
  }

  // ---------------------------------------------------------------------------------------
  // Runs of several writers
  // ---------------------------------------------------------------------------------------

  /** One locked write, tagged with the thread that makes it. */
  datatype Event = Event(writer: nat, op: Op)

  function Ops(run: seq<Event>): seq<Op> {
    seq(|run|, i requires 0 <= i < |run| => run[i].op)
  }

  function WrittenBy(writer: nat): Event -> bool {
    (e: Event) => e.writer == writer
  }

  function OpOf(e: Event): Op {
    e.op
  }

  /** The program of one writer: its steps of the run, in order. */
  function Project(run: seq<Event>, writer: nat): seq<Op> {
    Select(run, WrittenBy(writer), OpOf)
  }

  /** The two runs interleave the same programs. */
  ghost predicate SamePrograms(r1: seq<Event>, r2: seq<Event>) {
    forall w: nat :: Project(r1, w) == Project(r2, w)
  }

  /** Writes of different threads are independent; a thread's own writes need not be. */
  predicate WritersIndependent(run: seq<Event>) {
    forall e, f | e in run && f in run && e.writer != f.writer :: Independent(e.op, f.op)
  }

  lemma ProjectMember(run: seq<Event>, e: Event)
    ensures e in run <==> e.op in Project(run, e.writer)
  {
    SelectMember(run, WrittenBy(e.writer), OpOf, e.op);
  }

  /** The last step of a writer in a run. */
  lemma {:induction false} LastStep(run: seq<Event>, w: nat) returns (x: seq<Event>, e: Event, y: seq<Event>)
    requires Project(run, w) != []
    ensures run == x + [e] + y
    ensures e.writer == w && Project(y, w) == []
    ensures Project(run, w) == Project(x, w) + [e.op]
  {
    var init, last := run[..|run| - 1], run[|run| - 1];
    assert run == init + [last];
    if last.writer == w {
      x, e, y := init, last, [];
    } else {
      var y0;
      x, e, y0 := LastStep(init, w);
      y := y0 + [last];
      SelectConcat(y0, [last], WrittenBy(w), OpOf);
      SelectOne(last, WrittenBy(w), OpOf);
    }
  }

  lemma {:induction false} MoveToEnd(b: Book, op: Op, later: seq<Op>)
    requires forall y | y in later :: Independent(op, y)
    ensures Run(b, [op] + later) == Run(b, later + [op])
  {
    if later == [] {
      assert [op] + later == later + [op];
    } else {
      var init, y := later[..|later| - 1], later[|later| - 1];
      assert later == init + [y];
      assert [op] + later == ([op] + init) + [y];
      calc {
        Run(b, [op] + later);
        { RunSnoc(b, [op] + init, y); }
        Apply(Run(b, [op] + init), y);
        { MoveToEnd(b, op, init); RunSnoc(b, init, op); }
        Apply(Apply(Run(b, init), op), y);
        { Diamond(Run(b, init), op, y); }
        Apply(Apply(Run(b, init), y), op);
        { RunSnoc(b, init, y); RunSnoc(b, later, op); }
        Run(b, later + [op]);
      }
    }
  }

  /** Taking the last step of a writer out of the middle of a run and making it the last step of all. */
  lemma PostponeStep(b: Book, x: seq<Event>, e: Event, y: seq<Event>)
    requires forall f | f in y :: Independent(e.op, f.op)
    ensures Run(b, Ops(x + [e] + y)) == Apply(Run(b, Ops(x + y)), e.op)
  {
    assert Ops(x + [e] + y) == Ops(x) + ([e.op] + Ops(y));
    assert Ops(x + y) == Ops(x) + Ops(y);
    RunConcat(b, Ops(x), [e.op] + Ops(y));
    MoveToEnd(Run(b, Ops(x)), e.op, Ops(y));
    RunConcat(b, Ops(x), Ops(y));
    RunSnoc(Run(b, Ops(x)), Ops(y), e.op);
  }

  lemma SameLastStep(init: seq<Event>, e: Event, x: seq<Event>, f: Event, y: seq<Event>)
    requires SamePrograms(init + [e], x + [f] + y)
    requires e.writer == f.writer && Project(y, e.writer) == []
    ensures e == f && SamePrograms(init, x + y)
  {
    forall w: nat
      ensures Project(init, w) + Project([e], w) == Project(x, w) + Project([f], w) + Project(y, w)
    {
      assert Project(init + [e], w) == Project(x + [f] + y, w);
      SelectConcat(init, [e], WrittenBy(w), OpOf);
      SelectConcat(x + [f], y, WrittenBy(w), OpOf);
      SelectConcat(x, [f], WrittenBy(w), OpOf);
    }
    SelectOne(e, WrittenBy(e.writer), OpOf);
    SelectOne(f, WrittenBy(e.writer), OpOf);
    assert Project(init, e.writer) + [e.op] == Project(x, e.writer) + [f.op];
    SnocEqual(Project(init, e.writer), e.op, Project(x, e.writer), f.op);
    forall w: nat
      ensures Project(init, w) == Project(x + y, w)
    {
      assert Project(init, w) + Project([e], w) == Project(x, w) + Project([f], w) + Project(y, w);
      SelectConcat(x, y, WrittenBy(w), OpOf);
      SelectOne(e, WrittenBy(w), OpOf);
      if w == e.writer {
        assert Project(x, w) + [] == Project(x, w);
      } else {
        assert Project(init, w) + [] == Project(init, w) && Project(x, w) + [] == Project(x, w);
      }
    }
  }

  lemma SameSteps(r1: seq<Event>, r2: seq<Event>, e: Event)
    requires SamePrograms(r1, r2)
    ensures e in r1 <==> e in r2
  {
    assert Project(r1, e.writer) == Project(r2, e.writer);
    ProjectMember(r1, e);
    ProjectMember(r2, e);
  }

  /** Every interleaving of the same programs ends in the same book, whatever the starting book. */
  lemma {:induction false} Confluence(b: Book, r1: seq<Event>, r2: seq<Event>)
    requires SamePrograms(r1, r2) && WritersIndependent(r1)
    ensures Run(b, Ops(r1)) == Run(b, Ops(r2))
    decreases |r1|
  {
    if r1 == [] {
      if r2 != [] {
        SameSteps(r1, r2, r2[0]);
      }
    } else {
      var init, e := r1[..|r1| - 1], r1[|r1| - 1];
      assert r1 == init + [e];
      assert Project(r1, e.writer) == Project(r2, e.writer);
      var x, f, y := LastStep(r2, e.writer);
      SameLastStep(init, e, x, f, y);
      forall g | g in y
        ensures Independent(e.op, g.op)
      {
        SameSteps(r1, r2, g);
        ProjectMember(y, g);
      }
      Confluence(b, init, x + y);
      PostponeStep(b, x, e, y);
      assert Ops(r1) == Ops(init) + [e.op];
      RunSnoc(b, Ops(init), e.op);
    }
  }

  /** The programs of the writers, run one whole program after the other. */
  function Serial(programs: seq<seq<Op>>): seq<Event> {
    if programs == [] then [] else
      var n := |programs| - 1;
      Serial(programs[..n]) + Tagged(programs[n], n)
  }

  function Tagged(program: seq<Op>, n: nat): seq<Event> {
    seq(|program|, i requires 0 <= i < |program| => Event(n, program[i]))
  }

  lemma ProjectTagged(program: seq<Op>, n: nat, w: nat)
    ensures Project(Tagged(program, n), w) == if w == n then program else []
  {
    if w == n {
      SelectAll(Tagged(program, n), WrittenBy(w), OpOf);
      assert Project(Tagged(program, n), w) == program;
    } else {
      SelectNone(Tagged(program, n), WrittenBy(w), OpOf);
    }
  }

  lemma {:induction false} ProjectSerial(programs: seq<seq<Op>>, w: nat)
    ensures Project(Serial(programs), w) == if w < |programs| then programs[w] else []
  {
    if programs != [] {
      var n := |programs| - 1;
      var init := programs[..n];
      ProjectSerial(init, w);
      ProjectTagged(programs[n], n, w);
      SelectConcat(Serial(init), Tagged(programs[n], n), WrittenBy(w), OpOf);
      if w < n {
        assert init[w] == programs[w] && programs[w] + [] == programs[w];
      } else {
        assert [] + Project(Tagged(programs[n], n), w) == Project(Tagged(programs[n], n), w);
      }
    }
  }

  ghost predicate Interleaves(run: seq<Event>, programs: seq<seq<Op>>) {
    forall w: nat :: Project(run, w) == if w < |programs| then programs[w] else []
  }

  /** Handlers that run concurrently behave as if each had run alone, one after the other. */
  lemma InterleavingIsSerial(b: Book, run: seq<Event>, programs: seq<seq<Op>>)
    requires Interleaves(run, programs)
    requires forall i, j, x, y | 0 <= i < j < |programs| && x in programs[i] && y in programs[j] :: Independent(x, y)
    ensures Run(b, Ops(run)) == Run(b, Ops(Serial(programs)))
  {
    forall w: nat
      ensures Project(run, w) == Project(Serial(programs), w)
    {
      ProjectSerial(programs, w);
    }
    forall e, f | e in run && f in run && e.writer != f.writer
      ensures Independent(e.op, f.op)
    {
      ProjectMember(run, e);
      ProjectMember(run, f);
      IndependentSymmetric(e.op, f.op);
      assert e.op in programs[e.writer] && f.op in programs[f.writer];
    }
    Confluence(b, run, Serial(programs));
  }

  lemma SerialTwo(b: Book, x: seq<Op>, y: seq<Op>)
    ensures Run(b, Ops(Serial([x, y]))) == Run(b, x + y)
  {
    assert [x, y][..1] == [x] && [x][..0] == [];
    assert Ops(Serial([x])) == x;
    assert Ops(Serial([x, y])) == x + y;
  }

  /** Two blocks of pairwise independent writes change places. */
  lemma {:induction false} SwapBlocks(b: Book, x: seq<Op>, y: seq<Op>)
    requires forall v, w | v in x && w in y :: Independent(v, w)
    ensures Run(b, x + y) == Run(b, y + x)
    decreases |x|
  {
    if x == [] {
      assert x + y == y + x;
    } else {
      var init, op := x[..|x| - 1], x[|x| - 1];
      assert x == init + [op];
      assert x + y == init + ([op] + y) && (init + y) + [op] == init + (y + [op]) && y + x == (y + init) + [op];
      RunConcat(b, init, [op] + y);
      MoveToEnd(Run(b, init), op, y);
      RunConcat(b, init, y + [op]);
      RunSnoc(b, init + y, op);
      SwapBlocks(b, init, y);
      RunSnoc(b, y + init, op);
    }
  }
}
