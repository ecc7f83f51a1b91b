/** What handling a delta does to a book, in closed form, and what handling it again does. */
module Delta {
  import opened Options
  import opened Levels
  import opened BookSpec

  /** The level a side holds at `p` after its update loop: for a price the opposite side admits, the
      last entry wins; for any other touched price updates are ignored but a removal still removes. */
  ghost function Resolved(side: Side, own: Ladder, opposite: Ladder, updates: seq<Level>, p: Price): Option<Size> {
    var last := ToMap(updates);
    if p in last && Admits(side, p, opposite) then (if last[p] == 0.0 then None else Some(last[p]))
    else if Level(p, 0.0) in updates then None
    else Lookup(own, p)
  }

  ghost function Merged(side: Side, own: Ladder, opposite: Ladder, updates: seq<Level>): Ladder {
    map p | p in own.Keys + ToMap(updates).Keys && Resolved(side, own, opposite, updates, p).Some?
      :: Resolved(side, own, opposite, updates, p).value
  }

  lemma MergedAt(side: Side, own: Ladder, opposite: Ladder, updates: seq<Level>, p: Price)
    ensures Lookup(Merged(side, own, opposite, updates), p) == Resolved(side, own, opposite, updates, p)
  {
  }

  lemma MergedIs(side: Side, own: Ladder, opposite: Ladder, updates: seq<Level>, m: Ladder)
    requires forall p :: Lookup(m, p) == Resolved(side, own, opposite, updates, p)
    ensures m == Merged(side, own, opposite, updates)
  {
    forall p
      ensures Lookup(m, p) == Lookup(Merged(side, own, opposite, updates), p)
    {
      MergedAt(side, own, opposite, updates, p);
    }
    LookupExtensional(m, Merged(side, own, opposite, updates));
  }

  lemma ResolvedStep(side: Side, own: Ladder, opposite: Ladder, updates: seq<Level>, level: Level, m: Ladder, p: Price)
    requires Lookup(m, p) == Resolved(side, own, opposite, updates, p)
    ensures Lookup(Effect(m, LevelOp(side, level), Admits(side, level.price, opposite)), p)
         == Resolved(side, own, opposite, updates + [level], p)
  {
    assert (updates + [level])[..|updates|] == updates;
    assert ToMap(updates + [level]) == ToMap(updates)[level.price := level.size];
    assert Level(p, 0.0) in updates + [level] <==> Level(p, 0.0) in updates || level == Level(p, 0.0);
  }

  /** One update loop, with no other writer interleaving. */
  lemma {:induction false} SideLoop(b: Book, side: Side, updates: seq<Level>)
    ensures Run(b, LevelOps(side, updates)).On(side)
         == Merged(side, b.On(side), b.On(side.Opposite()), updates)
    ensures Run(b, LevelOps(side, updates)).On(side.Opposite()) == b.On(side.Opposite())
  {
    var own, opposite := b.On(side), b.On(side.Opposite());
    if updates == [] {
      forall p
        ensures Lookup(own, p) == Resolved(side, own, opposite, updates, p)
      {
      }
      MergedIs(side, own, opposite, updates, own);
    } else {
      var init, level := updates[..|updates| - 1], updates[|updates| - 1];
      assert updates == init + [level];
      SideLoop(b, side, init);
      var before := Run(b, LevelOps(side, init));
      LevelOpsSnoc(side, init, level);
      RunSnoc(b, LevelOps(side, init), LevelOp(side, level));
      TouchEffect(before, LevelOp(side, level));
      var after := Effect(before.On(side), LevelOp(side, level), Admits(side, level.price, opposite));
      forall p
        ensures Lookup(after, p) == Resolved(side, own, opposite, updates, p)
      {
        MergedAt(side, own, opposite, init, p);
        ResolvedStep(side, own, opposite, init, level, before.On(side), p);
      }
      MergedIs(side, own, opposite, updates, after);
    }
  }

  /** The book after a delta. */
  ghost function Handled(b: Book, bids: seq<Level>, asks: seq<Level>): Book {
    Run(b, DeltaOps(bids, asks))
  }

  /** The closed form: the bids merge against the old asks, the asks against the new bids. */
  lemma DeltaClosedForm(b: Book, bids: seq<Level>, asks: seq<Level>)
    ensures Handled(b, bids, asks).bids == Merged(Bid, b.bids, b.asks, bids)
    ensures Handled(b, bids, asks).asks == Merged(Ask, b.asks, Merged(Bid, b.bids, b.asks, bids), asks)
  {
    RunConcat(b, LevelOps(Bid, bids), LevelOps(Ask, asks));
    var middle := Run(b, LevelOps(Bid, bids));
    SideLoop(b, Bid, bids);
    SideLoop(middle, Ask, asks);
    assert middle.On(Bid) == middle.bids && middle.On(Ask) == middle.asks;
  }

  // ---------------------------------------------------------------------------------------
  // Entry order
  // ---------------------------------------------------------------------------------------

  lemma SameEntriesSameMap(u: seq<Level>, v: seq<Level>)
    requires multiset(u) == multiset(v) && DistinctPrices(u) && DistinctPrices(v)
    ensures ToMap(u) == ToMap(v)
    ensures forall x :: x in u <==> x in v
  {
    forall x
      ensures x in u <==> x in v
    {
      assert x in multiset(u) <==> x in multiset(v);
    }
    ToMapDistinct(u);
    ToMapDistinct(v);
    forall i | 0 <= i < |u|
      ensures Lookup(ToMap(v), u[i].price) == Some(u[i].size)
    {
      assert u[i] in v;
      var j :| 0 <= j < |v| && v[j] == u[i];
      assert Lookup(ToMap(v), v[j].price) == Some(v[j].size);
    }
    forall p | p in ToMap(v)
      ensures exists i :: 0 <= i < |u| && u[i].price == p
    {
      var j :| 0 <= j < |v| && v[j].price == p;
      assert v[j] in u;
    }
    ToMapIs(u, ToMap(v));
  }

  lemma MergedIgnoresOrder(side: Side, own: Ladder, opposite: Ladder, u: seq<Level>, v: seq<Level>)
    requires multiset(u) == multiset(v) && DistinctPrices(u) && DistinctPrices(v)
    ensures Merged(side, own, opposite, u) == Merged(side, own, opposite, v)
  {
    SameEntriesSameMap(u, v);
    forall p
      ensures Lookup(Merged(side, own, opposite, u), p) == Resolved(side, own, opposite, v, p)
    {
      MergedAt(side, own, opposite, u, p);
    }
    MergedIs(side, own, opposite, v, Merged(side, own, opposite, u));
  }

  /** With distinct prices on each side, the order of the entries of a delta is irrelevant. */
  lemma EntryOrderIrrelevant(b: Book, bids: seq<Level>, asks: seq<Level>, bids': seq<Level>, asks': seq<Level>)
    requires multiset(bids) == multiset(bids') && DistinctPrices(bids) && DistinctPrices(bids')
    requires multiset(asks) == multiset(asks') && DistinctPrices(asks) && DistinctPrices(asks')
    ensures Handled(b, bids, asks) == Handled(b, bids', asks')
  {
    DeltaClosedForm(b, bids, asks);
    DeltaClosedForm(b, bids', asks');
    MergedIgnoresOrder(Bid, b.bids, b.asks, bids, bids');
    MergedIgnoresOrder(Ask, b.asks, Merged(Bid, b.bids, b.asks, bids), asks, asks');
  }

  // ---------------------------------------------------------------------------------------
  // Last writer wins
  // ---------------------------------------------------------------------------------------

  /** No update of the list is turned away by the opposite side. */
  ghost predicate NoneRefused(side: Side, updates: seq<Level>, opposite: Ladder) {
    forall x | x in updates && x.size != 0.0 :: Admits(side, x.price, opposite)
  }

  /** The plain merge: the last entry of each price replaces the level, 0 deletes it. */
  ghost function LastWriterWins(own: Ladder, updates: seq<Level>): Ladder {
    var last := ToMap(updates);
    map p | p in own.Keys + last.Keys && (p in last ==> last[p] != 0.0) :: if p in last then last[p] else own[p]
  }

  lemma {:induction false} ToMapEntry(updates: seq<Level>, p: Price)
    requires p in ToMap(updates)
    ensures Level(p, ToMap(updates)[p]) in updates
  {
    var init, last := updates[..|updates| - 1], updates[|updates| - 1];
    assert updates == init + [last];
    if last.price != p {
      ToMapEntry(init, p);
    }
  }

  lemma NoneRefusedMerges(side: Side, own: Ladder, opposite: Ladder, updates: seq<Level>)
    requires NoneRefused(side, updates, opposite)
    ensures Merged(side, own, opposite, updates) == LastWriterWins(own, updates)
  {
    forall p
      ensures Lookup(LastWriterWins(own, updates), p) == Resolved(side, own, opposite, updates, p)
    {
      ToMapKeys(updates, p);
      if p in ToMap(updates) {
        ToMapEntry(updates, p);
      }
    }
    MergedIs(side, own, opposite, updates, LastWriterWins(own, updates));
  }

  /** A delta none of whose updates is refused is a last-writer-wins merge of both sides. */
  lemma DeltaMerges(b: Book, bids: seq<Level>, asks: seq<Level>)
    requires NoneRefused(Bid, bids, b.asks)
    requires NoneRefused(Ask, asks, LastWriterWins(b.bids, bids))
    ensures Handled(b, bids, asks) == Book(LastWriterWins(b.bids, bids), LastWriterWins(b.asks, asks))
  {
    DeltaClosedForm(b, bids, asks);
    NoneRefusedMerges(Bid, b.bids, b.asks, bids);
    NoneRefusedMerges(Ask, b.asks, LastWriterWins(b.bids, bids), asks);
  }

  // ---------------------------------------------------------------------------------------
  // Replay
  // ---------------------------------------------------------------------------------------

  lemma SideReplay(side: Side, own: Ladder, opposite: Ladder, updates: seq<Level>)
    ensures var once := Merged(side, own, opposite, updates);
            Merged(side, once, opposite, updates) == once
  {
    var once := Merged(side, own, opposite, updates);
    forall p
      ensures Lookup(once, p) == Resolved(side, once, opposite, updates, p)
    {
      MergedAt(side, own, opposite, updates, p);
    }
    MergedIs(side, once, opposite, updates, once);
  }

  /** A bid that stands and was clear of the old asks is clear of the new ones. */
  lemma StaysClear(bids1: Ladder, asks0: Ladder, asks: seq<Level>, p: Price)
    requires p in bids1 && Admits(Bid, p, asks0)
    ensures Admits(Bid, p, Merged(Ask, asks0, bids1, asks))
  {
    forall q | q in Merged(Ask, asks0, bids1, asks)
      ensures Apart(Bid, p, q)
    {
      MergedAt(Ask, asks0, bids1, asks, q);
      if q !in asks0 {
        assert Admits(Ask, q, bids1) && Apart(Ask, q, p);
      }
    }
  }

  /** Handling a delta again removes no bid ... */
  lemma ReplayKeepsBids(b: Book, bids: seq<Level>, asks: seq<Level>, p: Price)
    requires p in Handled(b, bids, asks).bids
    ensures var once := Handled(b, bids, asks);
            p in Handled(once, bids, asks).bids
  {
    var once := Handled(b, bids, asks);
    DeltaClosedForm(b, bids, asks);
    DeltaClosedForm(once, bids, asks);
    MergedAt(Bid, b.bids, b.asks, bids, p);
    MergedAt(Bid, once.bids, once.asks, bids, p);
    if Admits(Bid, p, b.asks) {
      StaysClear(once.bids, b.asks, asks, p);
    }
    if p in ToMap(bids) {
      ToMapEntry(bids, p);
    }
    if Level(p, 0.0) in bids {
      var i :| 0 <= i < |bids| && bids[i] == Level(p, 0.0);
      ToMapKeys(bids, p);
    }
  }

  /** ... and a bid it adds stands clear of every ask. */
  lemma ReplayAddsClear(b: Book, bids: seq<Level>, asks: seq<Level>, p: Price)
    requires var once := Handled(b, bids, asks);
             p in Handled(once, bids, asks).bids && p !in once.bids
    ensures Admits(Bid, p, Handled(b, bids, asks).asks)
  {
    var once := Handled(b, bids, asks);
    DeltaClosedForm(once, bids, asks);
    MergedAt(Bid, once.bids, once.asks, bids, p);
  }

  /** Handling a delta again never changes the asks. */
  lemma ReplayKeepsAsks(b: Book, bids: seq<Level>, asks: seq<Level>)
    ensures var once := Handled(b, bids, asks);
            Handled(once, bids, asks).asks == once.asks
  {
    var once := Handled(b, bids, asks);
    var twice := Handled(once, bids, asks);
    DeltaClosedForm(b, bids, asks);
    DeltaClosedForm(once, bids, asks);
    forall q
      ensures Lookup(once.asks, q) == Resolved(Ask, once.asks, twice.bids, asks, q)
    {
      MergedAt(Ask, b.asks, once.bids, asks, q);
      if Admits(Ask, q, twice.bids) {
        forall p | p in once.bids
          ensures Apart(Ask, q, p)
        {
          ReplayKeepsBids(b, bids, asks, p);
        }
      } else if Admits(Ask, q, once.bids) && q in once.asks {
        // A bid that now stands in the way would have to be one the replay added.
        var p :| p in twice.bids && !Apart(Ask, q, p);
        ReplayAddsClear(b, bids, asks, p);
        assert false;
      }
    }
    MergedIs(Ask, once.asks, twice.bids, asks, once.asks);
  }

  /** The guard of every bid of the delta, on the book as it is before the replay: a bid whose last
      entry is an update is refused, or already stands with its size. */
  ghost predicate NoBidLetIn(b: Book, bids: seq<Level>) {
    var last := ToMap(bids);
    forall p | p in last && last[p] != 0.0 && Admits(Bid, p, b.asks) :: Lookup(b.bids, p) == Some(last[p])
  }

  /** Replaying a delta is the identity exactly when the book it left lets in none of its bids that do
      not already stand.  The starting book may be crossed, prices may repeat. */
  lemma ReplayExact(b: Book, bids: seq<Level>, asks: seq<Level>)
    ensures var once := Handled(b, bids, asks);
            Handled(once, bids, asks) == once <==> NoBidLetIn(once, bids)
  {
    var once := Handled(b, bids, asks);
    var twice := Handled(once, bids, asks);
    DeltaClosedForm(b, bids, asks);
    DeltaClosedForm(once, bids, asks);
    ReplayKeepsAsks(b, bids, asks);
    var last := ToMap(bids);
    if NoBidLetIn(once, bids) {
      forall p
        ensures Lookup(once.bids, p) == Resolved(Bid, once.bids, once.asks, bids, p)
      {
        MergedAt(Bid, b.bids, b.asks, bids, p);
        if p in last { ToMapEntry(bids, p); }
        if p in once.bids && Admits(Bid, p, b.asks) { StaysClear(once.bids, b.asks, asks, p); }
      }
      MergedIs(Bid, once.bids, once.asks, bids, once.bids);
      assert twice == once;
    } else {
      var p :| p in last && last[p] != 0.0 && Admits(Bid, p, once.asks) && Lookup(once.bids, p) != Some(last[p]);
      MergedAt(Bid, once.bids, once.asks, bids, p);
      assert Lookup(twice.bids, p) != Lookup(once.bids, p);
    }
  }

  /** When no bid of the delta is refused, handling it again changes nothing; asks may be refused and
      prices may repeat. */
  lemma ReplayIdempotent(b: Book, bids: seq<Level>, asks: seq<Level>)
    requires NoneRefused(Bid, bids, b.asks)
    ensures var once := Handled(b, bids, asks);
            Handled(once, bids, asks) == once
  {
    var once := Handled(b, bids, asks);
    forall p | p in ToMap(bids) && ToMap(bids)[p] != 0.0
      ensures Admits(Bid, p, b.asks)
    {
      ToMapEntry(bids, p);
    }
    forall p | p in ToMap(bids) && ToMap(bids)[p] != 0.0
      ensures Lookup(once.bids, p) == Some(ToMap(bids)[p])
    {
      DeltaClosedForm(b, bids, asks);
      MergedAt(Bid, b.bids, b.asks, bids, p);
    }
    ReplayExact(b, bids, asks);
  }

  /** A replay does change the book when the delta removes the ask that refused one of its bids. */
  lemma ReplayCanChange()
    ensures exists b: Book, bids: seq<Level>, asks: seq<Level> ::
              Handled(Handled(b, bids, asks), bids, asks) != Handled(b, bids, asks)
  {
    var b := Book(map[], map[10.0 := 1.0]);
    var bids, asks := [Level(11.0, 1.0)], [Level(10.0, 0.0)];
    assert bids[..0] == [] && asks[..0] == [];
    var once := Handled(b, bids, asks);
    DeltaClosedForm(b, bids, asks);
    MergedAt(Bid, b.bids, b.asks, bids, 11.0);
    assert !Apart(Bid, 11.0, 10.0);
    assert 11.0 !in once.bids;
    assert ToMap(bids) == map[11.0 := 1.0] && ToMap(asks) == map[10.0 := 0.0];
    assert asks[0] == Level(10.0, 0.0);
    forall q
      ensures q !in once.asks
    {
      MergedAt(Ask, b.asks, once.bids, asks, q);
    }
    assert Lookup(once.bids, 11.0) == None && ToMap(bids)[11.0] == 1.0;
    assert !NoBidLetIn(once, bids);
    ReplayExact(b, bids, asks);
  }

  /** Whatever the book and the delta, the first replay is the last one that changes anything. */
  lemma SecondReplaySettles(b: Book, bids: seq<Level>, asks: seq<Level>)
    ensures var twice := Handled(Handled(b, bids, asks), bids, asks);
            Handled(twice, bids, asks) == twice
  {
    var once := Handled(b, bids, asks);
    var twice := Handled(once, bids, asks);
    var thrice := Handled(twice, bids, asks);
    ReplayKeepsAsks(b, bids, asks);
    DeltaClosedForm(once, bids, asks);
    DeltaClosedForm(twice, bids, asks);
    SideReplay(Bid, once.bids, once.asks, bids);
    SideReplay(Ask, once.asks, twice.bids, asks);
  }
}
