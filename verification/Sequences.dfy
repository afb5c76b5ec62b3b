/** Flattening and counting, used wherever the program accumulates over nested lists. */
module Sequences {

  function Flatten<T>(ss: seq<seq<T>>): seq<T> {
    if ss == [] then [] else Flatten(ss[..|ss| - 1]) + ss[|ss| - 1]
  }

  lemma {:induction false} FlattenConcat<T>(ss: seq<seq<T>>, ss': seq<seq<T>>)
    ensures Flatten(ss + ss') == Flatten(ss) + Flatten(ss')
  {
    if ss' == [] {
      assert ss + ss' == ss;
    } else {
      var front, last := ss'[..|ss'| - 1], ss'[|ss'| - 1];
      FlattenConcat(ss, front);
      assert (ss + ss')[..|ss| + |ss'| - 1] == ss + front;
      assert Flatten(ss + ss') == Flatten(ss + front) + last;
      assert (Flatten(ss) + Flatten(front)) + last == Flatten(ss) + (Flatten(front) + last);
    }
  }

  function Count<T(==)>(xs: seq<T>, x: T): nat {
    if xs == [] then 0 else Count(xs[..|xs| - 1], x) + if xs[|xs| - 1] == x then 1 else 0
  }

  lemma {:induction false} CountConcat<T>(xs: seq<T>, ys: seq<T>, x: T)
    ensures Count(xs + ys, x) == Count(xs, x) + Count(ys, x)
  {
    if ys == [] {
      assert xs + ys == xs;
    } else {
      CountConcat(xs, ys[..|ys| - 1], x);
      assert (xs + ys)[..|xs| + |ys| - 1] == xs + ys[..|ys| - 1];
    }
  }

  lemma {:induction false} CountZero<T>(xs: seq<T>, x: T)
    ensures Count(xs, x) == 0 <==> x !in xs
  {
    if xs != [] {
      CountZero(xs[..|xs| - 1], x);
      assert xs == xs[..|xs| - 1] + [xs[|xs| - 1]];
    }
  }

  lemma {:induction false} InFlatten<T>(ss: seq<seq<T>>, k: nat, x: T)
    requires k < |ss| && x in ss[k]
    ensures x in Flatten(ss)
  {
    if k < |ss| - 1 {
      InFlatten(ss[..|ss| - 1], k, x);
    }
  }

  lemma {:induction false} FromFlatten<T>(ss: seq<seq<T>>, x: T) returns (k: nat)
    requires x in Flatten(ss)
    ensures k < |ss| && x in ss[k]
  {
    if x in ss[|ss| - 1] {
      k := |ss| - 1;
    } else {
      k := FromFlatten(ss[..|ss| - 1], x);
    }
  }

  /** The elements of `xs` that satisfy `keep`, each one once, in order of first appearance. */
  function Distinct<T(==)>(xs: seq<T>, keep: T -> bool): seq<T> {
    if xs == [] then []
    else
      var front, last := Distinct(xs[..|xs| - 1], keep), xs[|xs| - 1];
      if keep(last) && last !in front then front + [last] else front
  }

  lemma {:induction false} DistinctIsASet<T(!new)>(xs: seq<T>, keep: T -> bool)
    ensures forall x :: x in Distinct(xs, keep) <==> x in xs && keep(x)
    ensures forall i, j | 0 <= i < j < |Distinct(xs, keep)| :: Distinct(xs, keep)[i] != Distinct(xs, keep)[j]
  {
    if xs != [] {
      DistinctIsASet(xs[..|xs| - 1], keep);
      assert xs == xs[..|xs| - 1] + [xs[|xs| - 1]];
    }
  }
}
