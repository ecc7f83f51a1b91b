/** Cumulative volumes: the sum of all levels strictly better than a price. */
module Volume {
  import opened Levels
  import opened Sums
  import opened BookSpec
  import opened Delta

  /** The levels strictly better than `price`. */
  ghost function Beyond(side: Side, m: Ladder, price: Price): Ladder {
    map q | q in m && Before(side, q, price) :: m[q]
  }

  ghost function VolumeBeyond(side: Side, m: Ladder, price: Price): Size {
    Total(Beyond(side, m, price))
  }

  // ---------------------------------------------------------------------------------------
  // Change
  // ---------------------------------------------------------------------------------------

  /** At each of the given prices, how much the size grew. */
  ghost function Growth(before: Ladder, after: Ladder, touched: set<Price>): Ladder {
    map q | q in touched :: ValueAt(after, q) - ValueAt(before, q)
  }

  /** The ladder `before` with its level at `p` taken from `after`. */
  lemma Adopt(before: Ladder, after: Ladder, p: Price) returns (mid: Ladder)
    ensures forall q :: Lookup(mid, q) == if q == p then Lookup(after, q) else Lookup(before, q)
    ensures Total(mid) == Total(before) + ValueAt(after, p) - ValueAt(before, p)
  {
    if p in after {
      mid := before[p := after[p]];
      TotalPut(before, p, after[p]);
    } else {
      mid := before - {p};
      TotalDrop(before, p);
    }
  }

  lemma GrowthRest(before: Ladder, mid: Ladder, after: Ladder, touched: set<Price>, p: Price)
    requires p in touched
    requires forall q | q != p :: Lookup(mid, q) == Lookup(before, q)
    ensures Total(Growth(before, after, touched))
         == ValueAt(after, p) - ValueAt(before, p) + Total(Growth(mid, after, touched - {p}))
  {
    var growth, rest := Growth(before, after, touched), Growth(mid, after, touched - {p});
    forall q | q in rest
      ensures rest[q] == growth[q]
    {
      assert Lookup(mid, q) == Lookup(before, q);
    }
    assert growth - {p} == rest;
    TotalPick(growth, p);
  }

  lemma {:induction false} TotalChange(before: Ladder, after: Ladder, touched: set<Price>)
    requires forall q | q !in touched :: Lookup(before, q) == Lookup(after, q)
    ensures Total(after) == Total(before) + Total(Growth(before, after, touched))
    decreases touched
  {
    if touched == {} {
      LookupExtensional(before, after);
      assert Growth(before, after, touched) == map[];
    } else {
      assert (forall q :: q !in touched) ==> touched == {};
      var p :| p in touched;
      var mid := Adopt(before, after, p);
      TotalChange(mid, after, touched - {p});
      GrowthRest(before, mid, after, touched, p);
    }
  }

  lemma VolumeChange(side: Side, own: Ladder, opposite: Ladder, updates: seq<Level>, price: Price)
    ensures VolumeBeyond(side, Merged(side, own, opposite, updates), price)
         == VolumeBeyond(side, own, price)
          + Total(Growth(own, Merged(side, own, opposite, updates),
                         set q | q in ToMap(updates) && Before(side, q, price)))
  {
    var merged := Merged(side, own, opposite, updates);
    var touched := set q | q in ToMap(updates) && Before(side, q, price);
    var before, after := Beyond(side, own, price), Beyond(side, merged, price);
    forall q | q !in touched
      ensures Lookup(before, q) == Lookup(after, q)
    {
      UntouchedBeyond(side, own, opposite, updates, price, q);
    }
    TotalChange(before, after, touched);
    SameGrowth(side, own, merged, touched, price);
  }

  lemma UntouchedBeyond(side: Side, own: Ladder, opposite: Ladder, updates: seq<Level>, price: Price, q: Price)
    requires !(q in ToMap(updates) && Before(side, q, price))
    ensures Lookup(Beyond(side, own, price), q) == Lookup(Beyond(side, Merged(side, own, opposite, updates), price), q)
  {
    MergedAt(side, own, opposite, updates, q);
    ToMapKeys(updates, q);
  }

  lemma SameGrowth(side: Side, before: Ladder, after: Ladder, touched: set<Price>, price: Price)
    requires forall q | q in touched :: Before(side, q, price)
    ensures Growth(Beyond(side, before, price), Beyond(side, after, price), touched) == Growth(before, after, touched)
  {
    forall q | q in touched
      ensures Growth(Beyond(side, before, price), Beyond(side, after, price), touched)[q]
           == Growth(before, after, touched)[q]
    {
      assert q in Beyond(side, before, price) <==> q in before;
      assert q in Beyond(side, after, price) <==> q in after;
    }
  }

  /** A delta moves each cumulative volume by exactly the growth of the touched prices beyond it. */
  lemma VolumeUnderDelta(b: Book, bids: seq<Level>, asks: seq<Level>, price: Price)
    ensures var after := Handled(b, bids, asks);
            && VolumeBeyond(Bid, after.bids, price)
               == VolumeBeyond(Bid, b.bids, price)
                + Total(Growth(b.bids, after.bids, set q | q in ToMap(bids) && q > price))
            && VolumeBeyond(Ask, after.asks, price)
               == VolumeBeyond(Ask, b.asks, price)
                + Total(Growth(b.asks, after.asks, set q | q in ToMap(asks) && q < price))
  {
    DeltaClosedForm(b, bids, asks);
    VolumeChange(Bid, b.bids, b.asks, bids, price);
    VolumeChange(Ask, b.asks, Handled(b, bids, asks).bids, asks, price);
    assert (set q | q in ToMap(bids) && q > price) == (set q | q in ToMap(bids) && Before(Bid, q, price));
    assert (set q | q in ToMap(asks) && q < price) == (set q | q in ToMap(asks) && Before(Ask, q, price));
  }

  // ---------------------------------------------------------------------------------------
  // Shape in the price
  // ---------------------------------------------------------------------------------------

  /** Moving the price away from the best side adds the levels passed on the way. */
  lemma VolumeStep(side: Side, m: Ladder, near: Price, far: Price)
    requires Before(side, near, far)
    ensures VolumeBeyond(side, m, far)
         == VolumeBeyond(side, m, near)
           + Total(map q | q in m && !Before(side, q, near) && Before(side, q, far) :: m[q])
  {
    var passed := map q | q in m && !Before(side, q, near) && Before(side, q, far) :: m[q];
    var before, after := Beyond(side, m, near), Beyond(side, m, far);
    TotalChange(before, after, passed.Keys);
    assert Growth(before, after, passed.Keys) == passed;
  }

  /** The volumes at two adjacent levels differ by the size of the nearer one. */
  lemma VolumeTelescopes(side: Side, m: Ladder, near: Price, far: Price)
    requires near in m && Before(side, near, far)
    requires forall q | q in m :: !(Before(side, near, q) && Before(side, q, far))
    ensures VolumeBeyond(side, m, far) == VolumeBeyond(side, m, near) + m[near]
  {
    VolumeStep(side, m, near, far);
    var passed := map q | q in m && !Before(side, q, near) && Before(side, q, far) :: m[q];
    assert passed == map[near := m[near]];
    TotalPick(passed, near);
    assert passed - {near} == map[];
  }

  lemma VolumeMonotone(side: Side, m: Ladder, near: Price, far: Price)
    requires forall q | q in m :: m[q] >= 0.0
    requires Before(side, near, far)
    ensures VolumeBeyond(side, m, near) <= VolumeBeyond(side, m, far)
  {
    VolumeStep(side, m, near, far);
    TotalNonNegative(map q | q in m && !Before(side, q, near) && Before(side, q, far) :: m[q]);
  }

  // ---------------------------------------------------------------------------------------
  // The early-exit loop over the ordered container
  // ---------------------------------------------------------------------------------------

  lemma PrefixGrows(side: Side, ls: seq<Level>, i: nat)
    requires Sorted(side, ls) && i < |ls|
    ensures Total(ToMap(ls[..i + 1])) == Total(ToMap(ls[..i])) + ls[i].size
  {
    assert ls[..i + 1][..i] == ls[..i];
    ToMapKeys(ls[..i], ls[i].price);
    SortedIsDistinct(side, ls);
    assert forall j | 0 <= j < i :: ls[..i][j].price != ls[i].price;
    TotalPut(ToMap(ls[..i]), ls[i].price, ls[i].size);
  }

  /** Where the loop stops, the levels seen are exactly those strictly better than the price. */
  lemma PrefixIsBeyond(side: Side, ls: seq<Level>, i: nat, price: Price)
    requires Sorted(side, ls) && i <= |ls|
    requires forall j | 0 <= j < i :: Before(side, ls[j].price, price)
    requires i < |ls| ==> !Before(side, ls[i].price, price)
    ensures ToMap(ls[..i]) == Beyond(side, ToMap(ls), price)
  {
    var x, y := ls[..i], ls[i..];
    assert ls == x + y;
    ToMapConcat(x, y);
    forall q
      ensures q in ToMap(x) ==> Before(side, q, price)
      ensures q in ToMap(y) ==> !Before(side, q, price)
    {
      ToMapKeys(x, q);
      ToMapKeys(y, q);
      LateLevels(side, ls, i, price);
    }
    assert Beyond(side, ToMap(x) + ToMap(y), price) == ToMap(x);
  }

  lemma LateLevels(side: Side, ls: seq<Level>, i: nat, price: Price)
    requires Sorted(side, ls) && i <= |ls|
    requires i < |ls| ==> !Before(side, ls[i].price, price)
    ensures forall k | 0 <= k < |ls| - i :: !Before(side, ls[i..][k].price, price)
  {
    forall k | 0 <= k < |ls| - i
      ensures !Before(side, ls[i..][k].price, price)
    {
      assert k == 0 || Before(side, ls[i].price, ls[i + k].price);
    }
  }
}
