/** Selecting from a sequence, in order. */
module Sequences {

  /** The values of the elements that pass a test. */
  function Select<E, V>(xs: seq<E>, keep: E -> bool, value: E -> V): seq<V> {
    if xs == [] then [] else
      var last := xs[|xs| - 1];
      Select(xs[..|xs| - 1], keep, value) + (if keep(last) then [value(last)] else [])
  }

  function Identity<T>(x: T): T {
    x
  }

  lemma SelectSnoc<E, V>(xs: seq<E>, x: E, keep: E -> bool, value: E -> V)
    ensures Select(xs + [x], keep, value)
         == if keep(x) then Select(xs, keep, value) + [value(x)] else Select(xs, keep, value)
  {
    assert (xs + [x])[..|xs|] == xs;
  }

  lemma SelectOne<E, V>(x: E, keep: E -> bool, value: E -> V)
    ensures Select([x], keep, value) == if keep(x) then [value(x)] else []
  {
    SelectSnoc([], x, keep, value);
    assert [] + [x] == [x];
  }

  lemma {:induction false} SelectConcat<E, V>(x: seq<E>, y: seq<E>, keep: E -> bool, value: E -> V)
    ensures Select(x + y, keep, value) == Select(x, keep, value) + Select(y, keep, value)
  {
    if y == [] {
      assert x + y == x;
    } else {
      var init, last := y[..|y| - 1], y[|y| - 1];
      assert y == init + [last] && x + y == (x + init) + [last];
      SelectConcat(x, init, keep, value);
      SelectSnoc(x + init, last, keep, value);
    }
  }

  lemma {:induction false} SelectMember<E(!new), V>(xs: seq<E>, keep: E -> bool, value: E -> V, v: V)
    ensures v in Select(xs, keep, value) <==> exists x :: x in xs && keep(x) && value(x) == v
  {
    if xs != [] {
      var init, last := xs[..|xs| - 1], xs[|xs| - 1];
      assert xs == init + [last];
      SelectMember(init, keep, value, v);
      assert forall x :: x in xs <==> x in init || x == last;
    }
  }

  lemma {:induction false} SelectNone<E, V>(xs: seq<E>, keep: E -> bool, value: E -> V)
    requires forall x | x in xs :: !keep(x)
    ensures Select(xs, keep, value) == []
  {
    if xs != [] {
      assert xs[|xs| - 1] in xs;
      SelectNone(xs[..|xs| - 1], keep, value);
    }
  }

  lemma {:induction false} SelectAll<E, V>(xs: seq<E>, keep: E -> bool, value: E -> V)
    requires forall x | x in xs :: keep(x)
    ensures |Select(xs, keep, value)| == |xs|
    ensures forall i | 0 <= i < |xs| :: Select(xs, keep, value)[i] == value(xs[i])
  {
    if xs != [] {
      var init, last := xs[..|xs| - 1], xs[|xs| - 1];
      assert xs == init + [last] && last in xs;
      SelectAll(init, keep, value);
    }
  }

  lemma {:induction false} SelectSame<E, V>(xs: seq<E>, keep: E -> bool, keep': E -> bool, value: E -> V)
    requires forall x | x in xs :: keep(x) == keep'(x)
    ensures Select(xs, keep, value) == Select(xs, keep', value)
  {
    if xs != [] {
      assert xs[|xs| - 1] in xs;
      SelectSame(xs[..|xs| - 1], keep, keep', value);
    }
  }

  lemma SnocEqual<T>(x: seq<T>, a: T, y: seq<T>, b: T)
    requires x + [a] == y + [b]
    ensures x == y && a == b
  {
    assert (x + [a])[|x|] == a && (y + [b])[|y|] == b;
    assert x == (x + [a])[..|x|] && y == (y + [b])[..|y|];
  }
}
