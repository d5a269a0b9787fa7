/** Counting elements of sequences, and the pigeonhole principle. */
module Counting {
  /** How many elements of xs satisfy p. */
  function Tally<T>(xs: seq<T>, p: T -> bool): (n: nat)
    ensures n <= |xs|
  {
    if xs == [] then 0 else (if p(xs[0]) then 1 else 0) + Tally(xs[1..], p)
  }

  lemma {:induction false} TallyUpdate<T>(xs: seq<T>, i: nat, x: T, p: T -> bool)
    requires i < |xs|
    ensures Tally(xs[i := x], p) + (if p(xs[i]) then 1 else 0) == Tally(xs, p) + (if p(x) then 1 else 0)
  {
    if i == 0 {
      assert xs[i := x][1..] == xs[1..];
    } else {
      assert xs[i := x][1..] == xs[1..][i - 1 := x];
      TallyUpdate(xs[1..], i - 1, x, p);
    }
  }

  lemma {:induction false} TallyAppend<T>(xs: seq<T>, x: T, p: T -> bool)
    ensures Tally(xs + [x], p) == Tally(xs, p) + (if p(x) then 1 else 0)
  {
    if xs != [] {
      assert (xs + [x])[1..] == xs[1..] + [x];
      TallyAppend(xs[1..], x, p);
    }
  }

  lemma {:induction false} TallyNone<T>(xs: seq<T>, p: T -> bool)
    requires forall i :: 0 <= i < |xs| ==> !p(xs[i])
    ensures Tally(xs, p) == 0
  {
    if xs != [] { TallyNone(xs[1..], p); }
  }

  /** The numbers below m. */
  function Below(m: nat): (r: set<nat>)
    ensures |r| == m && forall i: nat :: i in r <==> i < m
  {
    if m == 0 then {} else Below(m - 1) + {m - 1}
  }

  function Elements(xs: seq<nat>): (r: set<nat>)
    ensures forall x :: x in r <==> x in xs
  {
    set x | x in xs
  }

  lemma {:induction false} DistinctCount(xs: seq<nat>)
    requires forall i, j :: 0 <= i < j < |xs| ==> xs[i] != xs[j]
    ensures |Elements(xs)| == |xs|
  {
    if xs != [] {
      DistinctCount(xs[1..]);
      assert xs[0] !in xs[1..];
      assert Elements(xs) == Elements(xs[1..]) + {xs[0]};
    }
  }

  lemma {:induction false} CardinalityOfSubset(a: set<nat>, b: set<nat>)
    requires a <= b
    ensures |a| <= |b|
    decreases a
  {
    if a != {} {
      var x :| x in a;
      CardinalityOfSubset(a - {x}, b - {x});
    }
  }

  /** More numbers than there are numbers below m: two of them are equal. */
  lemma Pigeonhole(xs: seq<nat>, m: nat) returns (i: nat, j: nat)
    requires |xs| > m && forall x :: x in xs ==> x < m
    ensures i < j < |xs| && xs[i] == xs[j]
  {
    if forall i, j :: 0 <= i < j < |xs| ==> xs[i] != xs[j] {
      DistinctCount(xs);
      CardinalityOfSubset(Elements(xs), Below(m));
      assert false;
    }
    i, j :| 0 <= i < j < |xs| && xs[i] == xs[j];
  }
}
