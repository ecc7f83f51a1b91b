/** When the split of an `l2update` keeps the meaning of one message, without exception: bids that are
    removed, set again and removed again are judged by running the message on a few probe books. */
module SplitProbes {
  import opened Options
  import opened Levels
  import opened BookSpec
  import opened Coinbase
  import opened Splitting

  function BuyPrices(changes: seq<Change>): set<Price> {
    set c | c in changes && c.side == BUY :: c.price
  }

  /** A price just below `p`: no change has a price from there up to `p`. */
  function JustBelow(changes: seq<Change>, p: Price): (r: Price)
    ensures r < p && forall d | d in changes :: d.price < r || p <= d.price
  {
    if changes == [] then p - 1.0 else
      var init, d := changes[..|changes| - 1], changes[|changes| - 1];
      var r := JustBelow(init, p);
      assert changes == init + [d];
      if r <= d.price < p then (d.price + p) / 2.0 else r
  }

  predicate EndsSet(changes: seq<Change>, y: Price) {
    LastSize(changes, Bid, y).Some? && LastSize(changes, Bid, y) != Some(0.0)
  }

  /** The bids at or above `q` that the message sets and does not remove afterwards. */
  function FinalBids(changes: seq<Change>, q: Price): Ladder {
    map y | y in BuyPrices(changes) && y >= q && EndsSet(changes, y) :: 1.0
  }

  /** The bids at or above `q` that the message removes at some point. */
  function RemovedBids(changes: seq<Change>, q: Price): Ladder {
    map z | z in BuyPrices(changes) && z >= q && RemovedIn(changes, Bid, z, 0, |changes|) :: 1.0
  }

  /** The asks of a probe: just enough to refuse the final bids at or above `q`, by an ask that stays or
      by one that the message removes. */
  ghost predicate IsProbe(changes: seq<Change>, q: Price, asks: Ladder) {
    var finals := FinalBids(changes, q);
    if finals == map[] then asks == map[]
    else
      var lowest := Best(Ask, finals);
      || asks == map[JustBelow(changes, lowest) := 1.0]
      || exists a :: a <= lowest && RemovedIn(changes, Ask, a, 0, |changes|) && asks == map[a := 1.0]
  }

  /** As many bids as can be gone in the end, and one that keeps out every sell below `q`. */
  function Probe(changes: seq<Change>, q: Price, asks: Ladder): Book {
    Book(RemovedBids(changes, q)[JustBelow(changes, q) := 1.0], asks)
  }

  predicate IsFinalSell(changes: seq<Change>, i: nat, q: Price) {
    i < |changes| && IsLast(changes, i, Ask, q) && changes[i].size != 0.0
  }

  /** Run in wire order on its probes, every final sell of the message gets in.  A sell has at most one
      probe more than there are prices of removed asks. */
  ghost predicate SellsGetIn(changes: seq<Change>) {
    forall i: nat, q, asks | IsFinalSell(changes, i, q) && IsProbe(changes, q, asks) ::
      Admits(Ask, q, Wire(Probe(changes, q, asks), changes, i).On(Bid))
  }

  lemma FinalBidAt(changes: seq<Change>, y: Price, q: Price)
    requires y >= q
    ensures y in FinalBids(changes, q)
       <==> exists k: nat :: k < |changes| && IsLast(changes, k, Bid, y) && changes[k].size != 0.0
  {
    assert changes[..|changes|] == changes;
    if TouchedIn(changes, Bid, y, 0, |changes|) {
      var k := LastTouch(changes, Bid, y, |changes|);
      LastSizeIs(changes, Bid, y, k, |changes|);
      assert changes[k] in changes;
    } else {
      NoLastSize(changes, Bid, y, |changes|);
    }
  }

  // ---------------------------------------------------------------------------------------
  // Probes suffice
  // ---------------------------------------------------------------------------------------

  /** The bids at or above `q` in `w` are also in `t`; whatever an ask of `t` refuses, `w` refuses: it
      has that ask too, or, in place of the ask `c`, it has the ask `m`. */
  ghost predicate Dominated(w: Book, t: Book, q: Price, c: Price, m: Price) {
    && (forall z | z in w.On(Bid) && z >= q :: z in t.On(Bid))
    && (forall r | r in t.On(Ask) :: r in w.On(Ask) || (r == c && m in w.On(Ask)))
  }

  /** The ask `m` does for the message what the ask `c` does. */
  ghost predicate StandsFor(changes: seq<Change>, m: Price, c: Price) {
    && (forall d | d in changes :: d.price >= c ==> d.price >= m)
    && (c == m || !RemovedIn(changes, Ask, m, 0, |changes|))
  }

  lemma BidsDominated(changes: seq<Change>, w: Book, t: Book, q: Price, c: Price, m: Price, d: Change, z: Price)
    requires Dominated(w, t, q, c, m) && StandsFor(changes, m, c) && d in changes && z >= q
    requires ChangeOf(w, d, Bid, z).Some?
    ensures ChangeOf(t, d, Bid, z).Some?
  {
  }

  lemma AsksDominated(changes: seq<Change>, w: Book, t: Book, q: Price, c: Price, m: Price, d: Change, r: Price)
    requires Dominated(w, t, q, c, m) && d in changes && JustBelow(changes, q) in t.On(Bid)
    requires ChangeOf(t, d, Ask, r).Some? && Touches(d, Ask, r)
    ensures ChangeOf(w, d, Ask, r).Some? || (r == c && r in t.On(Ask) && m in w.On(Ask))
  {
    if Admits(Ask, r, t.On(Bid)) {
      assert Apart(Ask, r, JustBelow(changes, q));
    }
  }

  lemma {:induction false} StaysDominated(b: Book, t: Book, changes: seq<Change>, q: Price, c: Price, m: Price, n: nat)
    requires n <= |changes| && Dominated(b, t, q, c, m)
    requires StandsFor(changes, m, c) && JustBelow(changes, q) in t.On(Bid)
    ensures Dominated(Wire(b, changes, n), Wire(t, changes, n), q, c, m)
  {
    if n > 0 {
      StaysDominated(b, t, changes, q, c, m, n - 1);
      DominatedStep(b, t, changes, q, c, m, n - 1);
    }
  }

  lemma DominatedStep(b: Book, t: Book, changes: seq<Change>, q: Price, c: Price, m: Price, n: nat)
    requires n < |changes| && StandsFor(changes, m, c) && JustBelow(changes, q) in t.On(Bid)
    requires Dominated(Wire(b, changes, n), Wire(t, changes, n), q, c, m)
    ensures Dominated(Wire(b, changes, n + 1), Wire(t, changes, n + 1), q, c, m)
  {
    var w, u, d := Wire(b, changes, n), Wire(t, changes, n), changes[n];
    var w', u' := Wire(b, changes, n + 1), Wire(t, changes, n + 1);
    assert d in changes;
    Unmentioned(t, changes, Bid, JustBelow(changes, q), n);
    forall z | z in w'.On(Bid) && z >= q
      ensures z in u'.On(Bid)
    {
      WireAt(b, changes, n, Bid, z);
      WireAt(t, changes, n, Bid, z);
      BidsDominated(changes, w, u, q, c, m, d, z);
    }
    forall r | r in u'.On(Ask)
      ensures r in w'.On(Ask) || (r == c && m in w'.On(Ask))
    {
      WireAt(t, changes, n, Ask, r);
      WireAt(b, changes, n, Ask, r);
      WireAt(b, changes, n, Ask, m);
      if Touches(d, Ask, r) {
        AsksDominated(changes, w, u, q, c, m, d, r);
      }
    }
  }

  /** The bids of a book at or above `q` that are gone after the split are removed by the message. */
  lemma GoneIsRemoved(b: Book, changes: seq<Change>, z: Price)
    requires z in b.On(Bid) && z !in Split(b, changes).On(Bid)
    ensures z in BuyPrices(changes) && RemovedIn(changes, Bid, z, 0, |changes|)
  {
    if TouchedIn(changes, Bid, z, 0, |changes|) {
      var k := LastTouch(changes, Bid, z, |changes|);
      assert changes[k] in changes;
      SplitLastDecides(b, changes, Bid, z, k);
    } else {
      SplitUntouched(b, changes, Bid, z);
    }
  }

  lemma FinalIsRefused(b: Book, changes: seq<Change>, q: Price, y: Price)
    requires y in FinalBids(changes, q) && y !in Split(b, changes).On(Bid)
    ensures !Admits(Bid, y, b.asks)
  {
    FinalBidAt(changes, y, q);
    var k: nat :| k < |changes| && IsLast(changes, k, Bid, y) && changes[k].size != 0.0;
    SplitLastDecides(b, changes, Bid, y, k);
  }

  /** A probe that dominates the book, if the bids of the split admit a sell at `q`. */
  lemma FindProbe(b: Book, changes: seq<Change>, q: Price) returns (asks: Ladder, c: Price, m: Price)
    requires Admits(Ask, q, Split(b, changes).On(Bid))
    ensures IsProbe(changes, q, asks) && StandsFor(changes, m, c) && Dominated(b, Probe(changes, q, asks), q, c, m)
  {
    forall z | z in b.On(Bid) && z >= q
      ensures z in RemovedBids(changes, q)
    {
      GoneIsRemoved(b, changes, z);
    }
    var finals := FinalBids(changes, q);
    if finals == map[] {
      asks, c, m := map[], q, q;
    } else {
      var lowest := Best(Ask, finals);
      BestIs(Ask, finals);
      FinalIsRefused(b, changes, q, lowest);
      m :| m in b.asks && !Apart(Bid, lowest, m);
      c := if RemovedIn(changes, Ask, m, 0, |changes|) then m else JustBelow(changes, lowest);
      asks := map[c := 1.0];
    }
  }

  lemma ProbesSuffice(b: Book, changes: seq<Change>, i: nat, q: Price)
    requires SellsGetIn(changes) && i < |changes|
    ensures AdmittedInTime(b, changes, i, q)
  {
    if IsFinalSell(changes, i, q) && Admits(Ask, q, Split(b, changes).bids) {
      assert Split(b, changes).On(Bid) == Split(b, changes).bids;
      var asks, c, m := FindProbe(b, changes, q);
      StaysDominated(b, Probe(changes, q, asks), changes, q, c, m, i);
      forall x | x in Wire(b, changes, i).On(Bid)
        ensures Apart(Ask, q, x)
      {
      }
    }
  }

  // ---------------------------------------------------------------------------------------
  // Probes are needed
  // ---------------------------------------------------------------------------------------

  lemma ProbeRefuses(changes: seq<Change>, q: Price, asks: Ladder, y: Price)
    requires IsProbe(changes, q, asks) && y in FinalBids(changes, q)
    ensures !Admits(Bid, y, asks)
  {
    var finals := FinalBids(changes, q);
    var lowest := Best(Ask, finals);
    BestIs(Ask, finals);
    if asks == map[JustBelow(changes, lowest) := 1.0] {
      assert JustBelow(changes, lowest) in asks && !Apart(Bid, y, JustBelow(changes, lowest));
    } else {
      var a :| a <= lowest && RemovedIn(changes, Ask, a, 0, |changes|) && asks == map[a := 1.0];
      assert a in asks && !Apart(Bid, y, a);
    }
  }

  /** Nothing at or above `q` is left of a probe's bids. */
  lemma ProbeEndsBelow(changes: seq<Change>, q: Price, asks: Ladder, y: Price)
    requires IsProbe(changes, q, asks) && y in Split(Probe(changes, q, asks), changes).On(Bid)
    ensures y < q
  {
    var b := Probe(changes, q, asks);
    if y >= q && TouchedIn(changes, Bid, y, 0, |changes|) {
      var k := LastTouch(changes, Bid, y, |changes|);
      assert changes[k] in changes;
      SplitLastDecides(b, changes, Bid, y, k);
      FinalBidAt(changes, y, q);
      if changes[k].size != 0.0 {
        ProbeRefuses(changes, q, asks, y);
      }
    } else if y >= q {
      SplitUntouched(b, changes, Bid, y);
    }
  }

  /** If the ask of a probe is at `q`, the message removes it. */
  lemma ProbeAsk(changes: seq<Change>, q: Price, asks: Ladder)
    requires IsProbe(changes, q, asks) && q in asks && exists d :: d in changes && d.price == q
    ensures RemovedIn(changes, Ask, q, 0, |changes|)
  {
  }

  lemma RefusedProbeBreaks(changes: seq<Change>, i: nat, q: Price, asks: Ladder)
    requires IsFinalSell(changes, i, q) && IsProbe(changes, q, asks)
    requires !Admits(Ask, q, Wire(Probe(changes, q, asks), changes, i).On(Bid))
    ensures !SplitIsFaithful(changes)
  {
    var b := Probe(changes, q, asks);
    var x :| x in Wire(b, changes, i).On(Bid) && !Apart(Ask, q, x);
    assert changes[i] in changes;
    forall y | y in Guard(b, changes, Ask)
      ensures Apart(Ask, q, y)
    {
      ProbeEndsBelow(changes, q, asks, y);
    }
    SplitLastDecides(b, changes, Ask, q, i);
    Outcome(b, changes, Ask, q, |changes|);
    if k: nat :| Entered(b, changes, Ask, q, k, |changes|) {
      assert k < i;
      NeverAfter(b, changes, q, x, k, i);
      assert false;
    }
    if q in asks {
      ProbeAsk(changes, q, asks);
    }
    Differ(b, changes, Ask, q);
  }

  /** Any message is split faithfully on every book exactly if its final buys are harmless and its final
      sells get in on their probes. */
  lemma SplitExactOnProbes(changes: seq<Change>)
    ensures SplitIsFaithful(changes) <==> BuysHarmless(changes) && SellsGetIn(changes)
  {
    BuysMustBeHarmless(changes);
    if !SellsGetIn(changes) {
      var i: nat, q, asks :| IsFinalSell(changes, i, q) && IsProbe(changes, q, asks)
        && !Admits(Ask, q, Wire(Probe(changes, q, asks), changes, i).On(Bid));
      RefusedProbeBreaks(changes, i, q, asks);
    } else if BuysHarmless(changes) {
      forall b
        ensures Run(b, SplitOps(changes)) == Run(b, WireOps(changes))
      {
        forall i: nat, q | i < |changes|
          ensures AdmittedInTime(b, changes, i, q)
        {
          ProbesSuffice(b, changes, i, q);
        }
        HarmlessSplits(b, changes);
      }
    }
  }
}
