/** Ordered lists used as sets: filtering and removing duplicates. */
module Lists {

  function Filter<T>(xs: seq<T>, p: T -> bool): seq<T> {
    if xs == [] then []
    else
      var rest := Filter(xs[..|xs| - 1], p);
      if p(xs[|xs| - 1]) then rest + [xs[|xs| - 1]] else rest
  }

  /** Keep the first occurrence of every element. */
  function Uniq<T(==)>(xs: seq<T>): seq<T> {
    if xs == [] then []
    else
      var rest := Uniq(xs[..|xs| - 1]);
      if xs[|xs| - 1] in rest then rest else rest + [xs[|xs| - 1]]
  }

  ghost predicate NoDup<T>(xs: seq<T>) {
    forall i, j :: 0 <= i < j < |xs| ==> xs[i] != xs[j]
  }

  lemma {:induction false} FilterMember<T>(xs: seq<T>, p: T -> bool, x: T)
    ensures x in Filter(xs, p) <==> x in xs && p(x)
  {
    if xs != [] {
      var n := |xs| - 1;
      FilterMember(xs[..n], p, x);
      assert xs == xs[..n] + [xs[n]];
    }
  }

  lemma FilterMembers<T(!new)>(xs: seq<T>, p: T -> bool)
    ensures forall x :: x in Filter(xs, p) <==> x in xs && p(x)
  {
    forall x
      ensures x in Filter(xs, p) <==> x in xs && p(x)
    {
      FilterMember(xs, p, x);
    }
  }

  lemma {:induction false} FilterNoDup<T(!new)>(xs: seq<T>, p: T -> bool)
    requires NoDup(xs)
    ensures NoDup(Filter(xs, p))
  {
    if xs != [] {
      var n := |xs| - 1;
      FilterNoDup(xs[..n], p);
      FilterMembers(xs[..n], p);
    }
  }

  lemma {:induction false} FilterConcat<T>(xs: seq<T>, ys: seq<T>, p: T -> bool)
    ensures Filter(xs + ys, p) == Filter(xs, p) + Filter(ys, p)
  {
    if ys == [] {
      assert xs + ys == xs;
    } else {
      FilterConcat(xs, ys[..|ys| - 1], p);
      assert (xs + ys)[..|xs + ys| - 1] == xs + ys[..|ys| - 1];
    }
  }

  lemma {:induction false} FilterAll<T>(xs: seq<T>, p: T -> bool)
    requires forall i :: 0 <= i < |xs| ==> p(xs[i])
    ensures Filter(xs, p) == xs
  {
    if xs != [] {
      FilterAll(xs[..|xs| - 1], p);
    }
  }

  lemma {:induction false} UniqMember<T>(xs: seq<T>, x: T)
    ensures x in Uniq(xs) <==> x in xs
  {
    if xs != [] {
      var n := |xs| - 1;
      UniqMember(xs[..n], x);
      assert xs == xs[..n] + [xs[n]];
    }
  }

  lemma {:induction false} UniqNoDup<T>(xs: seq<T>)
    ensures NoDup(Uniq(xs))
  {
    if xs != [] {
      UniqNoDup(xs[..|xs| - 1]);
    }
  }

  lemma {:induction false} UniqFixed<T>(xs: seq<T>)
    requires NoDup(xs)
    ensures Uniq(xs) == xs
  {
    if xs != [] {
      UniqFixed(xs[..|xs| - 1]);
    }
  }

  lemma NoDupConcat<T>(xs: seq<T>, ys: seq<T>)
    requires NoDup(xs) && NoDup(ys) && forall i :: 0 <= i < |ys| ==> ys[i] !in xs
    ensures NoDup(xs + ys)
  {
    var zs := xs + ys;
    forall i, j | 0 <= i < j < |zs|
      ensures zs[i] != zs[j]
    {
      if i < |xs| <= j {
        assert zs[j] == ys[j - |xs|];
        assert zs[i] in xs;
      }
    }
  }
}
