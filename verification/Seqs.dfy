/** Sequences without repetition, removal and filtering, used for the driver's linked lists. */
module Seqs {

  datatype Option<+T> = None | Some(value: T)

  ghost predicate NoDup<T>(xs: seq<T>) {
    forall i, j :: 0 <= i < j < |xs| ==> xs[i] != xs[j]
  }

  /** `xs` with every occurrence of `x` left out. */
  function Without<T(==,!new)>(xs: seq<T>, x: T): (ys: seq<T>)
    ensures x !in ys
    ensures forall y :: y in ys <==> y in xs && y != x
    ensures |ys| <= |xs|
    ensures x !in xs ==> ys == xs
    ensures x in xs ==> |ys| < |xs|
  {
    if xs == [] then []
    else if xs[0] == x then Without(xs[1..], x)
    else [xs[0]] + Without(xs[1..], x)
  }

  /** The elements of `xs` that are in `live`, in order. */
  function Keep<T(==,!new)>(xs: seq<T>, live: set<T>): (ys: seq<T>)
    ensures forall y :: y in ys <==> y in xs && y in live
    ensures |ys| <= |xs|
  {
    if xs == [] then []
    else if xs[0] in live then [xs[0]] + Keep(xs[1..], live)
    else Keep(xs[1..], live)
  }

  lemma {:induction false} WithoutConcat<T(!new)>(xs: seq<T>, ys: seq<T>, x: T)
    ensures Without(xs + ys, x) == Without(xs, x) + Without(ys, x)
  {
    if xs == [] {
      assert xs + ys == ys;
    } else {
      assert (xs + ys)[1..] == xs[1..] + ys;
      WithoutConcat(xs[1..], ys, x);
    }
  }

  lemma {:induction false} WithoutHead<T(!new)>(xs: seq<T>)
    requires xs != [] && NoDup(xs)
    ensures Without(xs, xs[0]) == xs[1..]
  {
    assert xs[0] !in xs[1..];
  }

  lemma {:induction false} WithoutNoDup<T(!new)>(xs: seq<T>, x: T)
    requires NoDup(xs)
    ensures NoDup(Without(xs, x))
  {
    if xs != [] {
      assert NoDup(xs[1..]);
      WithoutNoDup(xs[1..], x);
      if xs[0] != x {
        assert xs[0] !in xs[1..];
        assert xs[0] !in Without(xs[1..], x);
      }
    }
  }

  lemma {:induction false} KeepConcat<T(!new)>(xs: seq<T>, ys: seq<T>, live: set<T>)
    ensures Keep(xs + ys, live) == Keep(xs, live) + Keep(ys, live)
  {
    if xs == [] {
      assert xs + ys == ys;
    } else {
      assert (xs + ys)[1..] == xs[1..] + ys;
      KeepConcat(xs[1..], ys, live);
    }
  }

  lemma {:induction false} KeepSame<T(!new)>(xs: seq<T>, live: set<T>, live': set<T>)
    requires forall x :: x in xs ==> (x in live <==> x in live')
    ensures Keep(xs, live) == Keep(xs, live')
  {
    if xs != [] {
      KeepSame(xs[1..], live, live');
    }
  }

  lemma {:induction false} KeepRemove<T(!new)>(xs: seq<T>, live: set<T>, x: T)
    ensures Keep(xs, live - {x}) == Without(Keep(xs, live), x)
  {
    if xs != [] {
      KeepRemove(xs[1..], live, x);
      if xs[0] in live {
        WithoutConcat([xs[0]], Keep(xs[1..], live), x);
      }
    }
  }
}
