/** Price levels, the two container orders of the book, and the ordered container itself.

    The order book keeps its bids in a `std::map` ordered by `std::greater` and its asks in one
    ordered by `std::less`.  Both are modelled as a sequence of levels strictly sorted in the
    order of its side, with the map operations the book uses (`operator[]` assignment, `erase`,
    `find`, `begin`).  The lemmas below show that this ordered form refines a plain map. */
module Levels {
  import opened Options
  import opened Sums

  type Price = real
  type Size = real
  type Ladder = map<Price, Size>

  datatype Level = Level(price: Price, size: Size)

  datatype Side = Bid | Ask {
    function Opposite(): Side {
      if Bid? then Ask else Bid
    }
  }

  /** `p` is iterated before `q` in the container of `side`. */
  predicate Before(side: Side, p: Price, q: Price) {
    match side
    case Bid => p > q
    case Ask => p < q
  }

  predicate Sorted(side: Side, ls: seq<Level>) {
    forall i, j | 0 <= i < j < |ls| :: Before(side, ls[i].price, ls[j].price)
  }

  function Lookup(m: Ladder, p: Price): Option<Size> {
    if p in m then Some(m[p]) else None
  }

  /** The map a list of levels denotes: assigned one after the other, so the last entry of a price wins. */
  function ToMap(ls: seq<Level>): Ladder {
    if ls == [] then map[] else
      var last := ls[|ls| - 1];
      ToMap(ls[..|ls| - 1])[last.price := last.size]
  }

  /** Index of the first level that does not come before `p`. */
  function LowerBound(side: Side, ls: seq<Level>, p: Price): (k: nat)
    requires Sorted(side, ls)
    ensures k <= |ls|
    ensures forall i | 0 <= i < k :: Before(side, ls[i].price, p)
    ensures forall i | k <= i < |ls| :: !Before(side, ls[i].price, p)
  {
    if ls == [] || !Before(side, ls[0].price, p) then 0 else 1 + LowerBound(side, ls[1..], p)
  }

  predicate HitsAt(ls: seq<Level>, k: nat, p: Price) {
    k < |ls| && ls[k].price == p
  }

  /** The levels before the place of `p`. */
  function Below(side: Side, ls: seq<Level>, p: Price): seq<Level>
    requires Sorted(side, ls)
  {
    ls[..LowerBound(side, ls, p)]
  }

  /** The levels after the place of `p`. */
  function Above(side: Side, ls: seq<Level>, p: Price): seq<Level>
    requires Sorted(side, ls)
  {
    var k := LowerBound(side, ls, p);
    if HitsAt(ls, k, p) then ls[k + 1..] else ls[k..]
  }

  /** `container[p] = s` */
  function Put(side: Side, ls: seq<Level>, p: Price, s: Size): (r: seq<Level>)
    requires Sorted(side, ls)
    ensures Sorted(side, r)
  {
    AroundPrice(side, ls, p);
    Below(side, ls, p) + [Level(p, s)] + Above(side, ls, p)
  }

  /** `container.erase(p)` */
  function Erase(side: Side, ls: seq<Level>, p: Price): (r: seq<Level>)
    requires Sorted(side, ls)
    ensures Sorted(side, r)
  {
    AroundPrice(side, ls, p);
    Below(side, ls, p) + Above(side, ls, p)
  }

  /** `container.find(p)` */
  function Find(side: Side, ls: seq<Level>, p: Price): (r: Option<Size>)
    requires Sorted(side, ls)
  {
    var k := LowerBound(side, ls, p);
    if HitsAt(ls, k, p) then Some(ls[k].size) else None
  }

  /** Copying one container into a container of the opposite order. */
  function Reverse(ls: seq<Level>): (r: seq<Level>)
    ensures |r| == |ls|
    ensures forall i | 0 <= i < |ls| :: r[i] == ls[|ls| - 1 - i]
  {
    seq(|ls|, i requires 0 <= i < |ls| => ls[|ls| - 1 - i])
  }

  // ---------------------------------------------------------------------------------------
  // The map a list denotes
  // ---------------------------------------------------------------------------------------

  lemma {:induction false} ToMapKeys(ls: seq<Level>, p: Price)
    ensures p in ToMap(ls) <==> exists i :: 0 <= i < |ls| && ls[i].price == p
  {
    if ls == [] {
    } else {
      var init := ls[..|ls| - 1];
      ToMapKeys(init, p);
      if exists i :: 0 <= i < |ls| && ls[i].price == p {
        var i :| 0 <= i < |ls| && ls[i].price == p;
        if i < |init| { assert init[i].price == p; }
      }
      if p in ToMap(ls) && p != ls[|ls| - 1].price {
        var i :| 0 <= i < |init| && init[i].price == p;
        assert ls[i].price == p;
      }
    }
  }

  /** The value at a price is the size of the last entry of that price. */
  lemma {:induction false} ToMapLastWins(ls: seq<Level>, i: nat)
    requires i < |ls|
    requires forall j | i < j < |ls| :: ls[j].price != ls[i].price
    ensures Lookup(ToMap(ls), ls[i].price) == Some(ls[i].size)
  {
    if i < |ls| - 1 {
      ToMapLastWins(ls[..|ls| - 1], i);
    }
  }

  predicate DistinctPrices(ls: seq<Level>) {
    forall i, j | 0 <= i < j < |ls| :: ls[i].price != ls[j].price
  }

  lemma ToMapDistinct(ls: seq<Level>)
    requires DistinctPrices(ls)
    ensures forall i | 0 <= i < |ls| :: Lookup(ToMap(ls), ls[i].price) == Some(ls[i].size)
    ensures forall p | p in ToMap(ls) :: exists i :: 0 <= i < |ls| && ls[i].price == p
  {
    forall i | 0 <= i < |ls|
      ensures Lookup(ToMap(ls), ls[i].price) == Some(ls[i].size)
    {
      ToMapLastWins(ls, i);
    }
    forall p | p in ToMap(ls)
      ensures exists i :: 0 <= i < |ls| && ls[i].price == p
    {
      ToMapKeys(ls, p);
    }
  }

  lemma SortedIsDistinct(side: Side, ls: seq<Level>)
    requires Sorted(side, ls)
    ensures DistinctPrices(ls)
  {
    forall i, j | 0 <= i < j < |ls|
      ensures ls[i].price != ls[j].price
    {
      assert Before(side, ls[i].price, ls[j].price);
    }
  }

  lemma {:induction false} ToMapConcat(x: seq<Level>, y: seq<Level>)
    ensures ToMap(x + y) == ToMap(x) + ToMap(y)
  {
    if y == [] {
      assert x + y == x;
    } else {
      var init := y[..|y| - 1];
      assert (x + y)[..|x + y| - 1] == x + init;
      ToMapConcat(x, init);
    }
  }

  /** A list of distinct prices denotes `m` exactly when it lists the entries of `m`. */
  lemma ToMapIs(ls: seq<Level>, m: Ladder)
    requires DistinctPrices(ls)
    requires forall i | 0 <= i < |ls| :: Lookup(m, ls[i].price) == Some(ls[i].size)
    requires forall p | p in m :: exists i :: 0 <= i < |ls| && ls[i].price == p
    ensures ToMap(ls) == m
  {
    ToMapDistinct(ls);
    forall p
      ensures Lookup(ToMap(ls), p) == Lookup(m, p)
    {
      if p in m || p in ToMap(ls) {
        var i :| 0 <= i < |ls| && ls[i].price == p;
        assert Lookup(ToMap(ls), ls[i].price) == Lookup(m, ls[i].price);
      }
    }
    LookupExtensional(ToMap(ls), m);
  }

  lemma LookupExtensional(m: Ladder, n: Ladder)
    requires forall p :: Lookup(m, p) == Lookup(n, p)
    ensures m == n
  {
    forall p
      ensures p in m <==> p in n
      ensures p in m ==> m[p] == n[p]
    {
      assert Lookup(m, p) == Lookup(n, p);
    }
  }

  // ---------------------------------------------------------------------------------------
  // The ordered container refines the map
  // ---------------------------------------------------------------------------------------

  lemma AroundPrice(side: Side, ls: seq<Level>, p: Price)
    requires Sorted(side, ls)
    ensures Sorted(side, Below(side, ls, p)) && Sorted(side, Above(side, ls, p))
    ensures forall x | x in Below(side, ls, p) :: Before(side, x.price, p)
    ensures forall x | x in Above(side, ls, p) :: Before(side, p, x.price)
  {
    var k := LowerBound(side, ls, p);
    var c := Above(side, ls, p);
    forall x | x in c
      ensures Before(side, p, x.price)
    {
      var i :| 0 <= i < |c| && c[i] == x;
      assert x == ls[|ls| - |c| + i];
      assert !Before(side, ls[k].price, p);
    }
  }

  function At(size: Option<Size>, p: Price): Ladder {
    match size
    case None => map[]
    case Some(s) => map[p := s]
  }

  lemma ToMapThree(a: seq<Level>, x: Level, c: seq<Level>)
    ensures ToMap(a + [x] + c) == ToMap(a) + map[x.price := x.size] + ToMap(c)
  {
    ToMapConcat(a + [x], c);
    ToMapConcat(a, [x]);
    assert ToMap([x]) == map[x.price := x.size];
  }

  lemma SplitAroundPrice(side: Side, ls: seq<Level>, p: Price)
    requires Sorted(side, ls)
    ensures match Find(side, ls, p)
            case None => ls == Below(side, ls, p) + Above(side, ls, p)
            case Some(s) => ls == Below(side, ls, p) + [Level(p, s)] + Above(side, ls, p)
  {
  }

  lemma NotAroundPrice(side: Side, ls: seq<Level>, p: Price)
    requires Sorted(side, ls)
    ensures p !in ToMap(Below(side, ls, p)) && p !in ToMap(Above(side, ls, p))
  {
    AroundPrice(side, ls, p);
    ToMapKeys(Below(side, ls, p), p);
    ToMapKeys(Above(side, ls, p), p);
  }

  /** The map of a container, taken apart around the place of `p`. */
  lemma MapAroundPrice(side: Side, ls: seq<Level>, p: Price)
    requires Sorted(side, ls)
    ensures ToMap(ls) == ToMap(Below(side, ls, p)) + At(Find(side, ls, p), p) + ToMap(Above(side, ls, p))
  {
    SplitAroundPrice(side, ls, p);
    match Find(side, ls, p)
    case None => ToMapConcat(Below(side, ls, p), Above(side, ls, p));
    case Some(s) => ToMapThree(Below(side, ls, p), Level(p, s), Above(side, ls, p));
  }

  lemma MergeAround(a: Ladder, c: Ladder, p: Price, before: Option<Size>, s: Size)
    requires p !in a && p !in c
    ensures Lookup(a + At(before, p) + c, p) == before
    ensures (a + At(before, p) + c)[p := s] == a + map[p := s] + c
    ensures (a + At(before, p) + c) - {p} == a + c
  {
  }

  lemma FindRefines(side: Side, ls: seq<Level>, p: Price)
    requires Sorted(side, ls)
    ensures Find(side, ls, p) == Lookup(ToMap(ls), p)
  {
    NotAroundPrice(side, ls, p);
    MapAroundPrice(side, ls, p);
    MergeAround(ToMap(Below(side, ls, p)), ToMap(Above(side, ls, p)), p, Find(side, ls, p), 0.0);
  }

  lemma PutRefines(side: Side, ls: seq<Level>, p: Price, s: Size)
    requires Sorted(side, ls)
    ensures ToMap(Put(side, ls, p, s)) == ToMap(ls)[p := s]
  {
    NotAroundPrice(side, ls, p);
    MapAroundPrice(side, ls, p);
    ToMapThree(Below(side, ls, p), Level(p, s), Above(side, ls, p));
    MergeAround(ToMap(Below(side, ls, p)), ToMap(Above(side, ls, p)), p, Find(side, ls, p), s);
  }

  lemma EraseRefines(side: Side, ls: seq<Level>, p: Price)
    requires Sorted(side, ls)
    ensures ToMap(Erase(side, ls, p)) == ToMap(ls) - {p}
  {
    NotAroundPrice(side, ls, p);
    MapAroundPrice(side, ls, p);
    ToMapConcat(Below(side, ls, p), Above(side, ls, p));
    MergeAround(ToMap(Below(side, ls, p)), ToMap(Above(side, ls, p)), p, Find(side, ls, p), 0.0);
  }

  lemma ReverseRefines(side: Side, ls: seq<Level>)
    requires Sorted(side, ls)
    ensures Sorted(side.Opposite(), Reverse(ls))
    ensures ToMap(Reverse(ls)) == ToMap(ls)
    ensures Reverse(Reverse(ls)) == ls
  {
    var r := Reverse(ls);
    forall i, j | 0 <= i < j < |r|
      ensures Before(side.Opposite(), r[i].price, r[j].price)
    {
      assert Before(side, ls[|ls| - 1 - j].price, ls[|ls| - 1 - i].price);
    }
    SortedIsDistinct(side, ls);
    SortedIsDistinct(side.Opposite(), r);
    ToMapDistinct(ls);
    forall i | 0 <= i < |r|
      ensures Lookup(ToMap(ls), r[i].price) == Some(r[i].size)
    {
      assert Lookup(ToMap(ls), ls[|ls| - 1 - i].price) == Some(ls[|ls| - 1 - i].size);
    }
    forall q | q in ToMap(ls)
      ensures exists i :: 0 <= i < |r| && r[i].price == q
    {
      var j :| 0 <= j < |ls| && ls[j].price == q;
      assert r[|ls| - 1 - j].price == q;
    }
    ToMapIs(r, ToMap(ls));
  }

  // ---------------------------------------------------------------------------------------
  // Best level
  // ---------------------------------------------------------------------------------------

  /** `p` is the extreme price of a ladder: the highest bid, the lowest ask. */
  ghost predicate IsBest(side: Side, m: Ladder, p: Price) {
    p in m && forall q | q in m && q != p :: Before(side, p, q)
  }

  lemma {:induction false} BestExists(side: Side, m: Ladder)
    requires m != map[]
    ensures exists p :: IsBest(side, m, p)
    decreases |m.Keys|
  {
    var p := HasKey(m);
    var rest := m - {p};
    assert rest.Keys == m.Keys - {p};
    assert forall q | q in m && q != p :: q in rest;
    if rest == map[] {
      assert IsBest(side, m, p);
    } else {
      BestExists(side, rest);
      var b :| IsBest(side, rest, b);
      if Before(side, p, b) {
        assert IsBest(side, m, p);
      } else {
        assert IsBest(side, m, b);
      }
    }
  }

  /** The best price, 0 when there is none, as the getters report it. */
  ghost function Best(side: Side, m: Ladder): Price {
    if m == map[] then 0.0 else BestExists(side, m); var p :| IsBest(side, m, p); p
  }

  lemma BestIs(side: Side, m: Ladder)
    requires m != map[]
    ensures IsBest(side, m, Best(side, m))
  {
    BestExists(side, m);
  }

  /** `begin()` of the ordered container is the best level of the map. */
  lemma FrontIsBest(side: Side, ls: seq<Level>)
    requires Sorted(side, ls)
    ensures ls == [] <==> ToMap(ls) == map[]
    ensures ls != [] ==> Best(side, ToMap(ls)) == ls[0].price && ToMap(ls)[ls[0].price] == ls[0].size
  {
    SortedIsDistinct(side, ls);
    ToMapDistinct(ls);
    if ls != [] {
      assert Lookup(ToMap(ls), ls[0].price) == Some(ls[0].size);
      BestIs(side, ToMap(ls));
      var best := Best(side, ToMap(ls));
      var i :| 0 <= i < |ls| && ls[i].price == best;
      assert i == 0 || Before(side, ls[0].price, ls[i].price);
    }
  }

  /** A sorted container is determined by the map it denotes. */
  lemma {:induction false} SortedCanonical(side: Side, a: seq<Level>, b: seq<Level>)
    requires Sorted(side, a) && Sorted(side, b)
    requires ToMap(a) == ToMap(b)
    ensures a == b
    decreases |a|
  {
    FrontIsBest(side, a);
    FrontIsBest(side, b);
    if a != [] {
      assert a[0] == b[0];
      DropFront(side, a);
      DropFront(side, b);
      SortedCanonical(side, a[1..], b[1..]);
      assert a == [a[0]] + a[1..] && b == [b[0]] + b[1..];
    }
  }

  lemma DropFront(side: Side, ls: seq<Level>)
    requires Sorted(side, ls) && ls != []
    ensures Sorted(side, ls[1..])
    ensures ToMap(ls[1..]) == ToMap(ls) - {ls[0].price}
  {
    EraseRefines(side, ls, ls[0].price);
    assert Erase(side, ls, ls[0].price) == ls[1..];
  }
}
