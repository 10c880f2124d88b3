/**
 * `_.sampleSize(xs, n)`, a library call with a random result. The model
 * takes the random choice as an input: the list of positions of `xs` the
 * call picks, in the order it returns them.
 */
module Sampling {

  function Min(a: nat, b: nat): nat
  {
    if a <= b then a else b
  }

  predicate InRange(picks: seq<nat>, len: nat)
  {
    forall k :: 0 <= k < |picks| ==> picks[k] < len
  }

  predicate Distinct<T(==)>(s: seq<T>)
  {
    forall k, l :: 0 <= k < l < |s| ==> s[k] != s[l]
  }

  /**
   * What `_.sampleSize(xs, n)` may pick from a list of `len` elements:
   * `min(n, len)` distinct positions.
   */
  predicate IsSelection(picks: seq<nat>, len: nat, n: nat)
  {
    |picks| == Min(n, len) && InRange(picks, len) && Distinct(picks)
  }

  /** The elements of `xs` at the positions `picks`, in the order of `picks`. */
  function Sample<T>(xs: seq<T>, picks: seq<nat>): (r: seq<T>)
    requires InRange(picks, |xs|)
    ensures |r| == |picks|
    ensures forall k :: 0 <= k < |picks| ==> r[k] == xs[picks[k]]
  {
    if picks == [] then [] else [xs[picks[0]]] + Sample(xs, picks[1..])
  }

  /** The positions renumbered for `xs[1..]`: position 0 is dropped and every other one moves down by one. */
  function Shift(picks: seq<nat>): seq<nat>
  {
    if picks == [] then []
    else if picks[0] == 0 then Shift(picks[1..])
    else [picks[0] - 1] + Shift(picks[1..])
  }

  /** How often position 0 is picked. */
  function Zeros(picks: seq<nat>): nat
  {
    if picks == [] then 0 else (if picks[0] == 0 then 1 else 0) + Zeros(picks[1..])
  }

  lemma {:induction false} ShiftMembers(picks: seq<nat>, q: nat)
    ensures q in Shift(picks) <==> q + 1 in picks
  {
    if picks != [] {
      ShiftMembers(picks[1..], q);
      assert q + 1 in picks <==> q + 1 == picks[0] || q + 1 in picks[1..];
    }
  }

  lemma {:induction false} ShiftInRange(picks: seq<nat>, len: nat)
    requires len >= 1 && InRange(picks, len)
    ensures InRange(Shift(picks), len - 1)
  {
    if picks != [] {
      ShiftInRange(picks[1..], len);
    }
  }

  lemma DistinctCons<T>(x: T, s: seq<T>)
    requires x !in s && Distinct(s)
    ensures Distinct([x] + s)
  {
  }

  lemma {:induction false} ShiftDistinct(picks: seq<nat>)
    requires Distinct(picks)
    ensures Distinct(Shift(picks))
  {
    if picks != [] {
      var p, ps := picks[0], picks[1..];
      assert p !in ps;
      ShiftDistinct(ps);
      if p != 0 {
        ShiftMembers(ps, p - 1);
        DistinctCons(p - 1, Shift(ps));
      }
    }
  }

  lemma {:induction false} ZerosMember(picks: seq<nat>)
    ensures Zeros(picks) == 0 <==> 0 !in picks
  {
    if picks != [] {
      ZerosMember(picks[1..]);
      assert 0 in picks <==> picks[0] == 0 || 0 in picks[1..];
    }
  }

  /** Distinct positions pick position 0 at most once. */
  lemma ZerosDistinct(picks: seq<nat>)
    requires Distinct(picks)
    ensures Zeros(picks) <= 1
  {
    if picks != [] {
      assert picks[0] !in picks[1..];
      ZerosMember(picks[1..]);
    }
  }

  lemma ShiftCons(p: nat, ps: seq<nat>)
    ensures Shift([p] + ps) == if p == 0 then Shift(ps) else [p - 1] + Shift(ps)
  {
    assert ([p] + ps)[1..] == ps;
  }

  lemma SampleCons<T>(xs: seq<T>, p: nat, ps: seq<nat>)
    requires p < |xs| && InRange(ps, |xs|)
    ensures InRange([p] + ps, |xs|)
    ensures Sample(xs, [p] + ps) == [xs[p]] + Sample(xs, ps)
  {
    assert ([p] + ps)[1..] == ps;
  }

  /** The first element of `xs`, as often as position 0 is picked. */
  function Head<T>(xs: seq<T>, picks: seq<nat>): multiset<T>
    requires |xs| >= 1
  {
    multiset{}[xs[0] := Zeros(picks)]
  }

  /** The split, for picks of the form `[0] + ps`, given the split for `ps`. */
  lemma SplitStepZero<T>(xs: seq<T>, ps: seq<nat>)
    requires |xs| >= 1 && InRange(ps, |xs|) && InRange(Shift(ps), |xs| - 1)
    requires multiset(Sample(xs, ps)) == multiset(Sample(xs[1..], Shift(ps))) + Head(xs, ps)
    ensures InRange([0] + ps, |xs|) && Shift([0] + ps) == Shift(ps)
    ensures multiset(Sample(xs, [0] + ps)) == multiset(Sample(xs[1..], Shift(ps))) + Head(xs, [0] + ps)
  {
    SampleCons(xs, 0, ps);
    ShiftCons(0, ps);
    HeadZero(xs, ps);
  }

  lemma HeadZero<T>(xs: seq<T>, ps: seq<nat>)
    requires |xs| >= 1
    ensures Head(xs, [0] + ps) == multiset{xs[0]} + Head(xs, ps)
  {
    assert ([0] + ps)[1..] == ps;
  }

  /** The split, for picks of the form `[p] + ps` with `p != 0`, given the split for `ps`. */
  lemma SplitStepOther<T>(xs: seq<T>, p: nat, ps: seq<nat>)
    requires 0 < p < |xs| && InRange(ps, |xs|) && InRange(Shift(ps), |xs| - 1)
    requires multiset(Sample(xs, ps)) == multiset(Sample(xs[1..], Shift(ps))) + Head(xs, ps)
    ensures InRange([p] + ps, |xs|) && Shift([p] + ps) == [p - 1] + Shift(ps)
    ensures multiset(Sample(xs, [p] + ps)) == multiset(Sample(xs[1..], [p - 1] + Shift(ps))) + Head(xs, [p] + ps)
  {
    SampleCons(xs, p, ps);
    ShiftCons(p, ps);
    SampleCons(xs[1..], p - 1, Shift(ps));
    assert ([p] + ps)[1..] == ps;
    assert Head(xs, [p] + ps) == Head(xs, ps);
  }

  /** Sampling `xs` splits into its first element, as often as position 0 is picked, and a sample of `xs[1..]`. */
  lemma {:induction false} SampleSplit<T>(xs: seq<T>, picks: seq<nat>)
    requires |xs| >= 1 && InRange(picks, |xs|)
    ensures InRange(Shift(picks), |xs| - 1)
    ensures multiset(Sample(xs, picks)) == multiset(Sample(xs[1..], Shift(picks))) + Head(xs, picks)
  {
    ShiftInRange(picks, |xs|);
    if picks != [] {
      var p, ps := picks[0], picks[1..];
      assert picks == [p] + ps;
      ShiftInRange(ps, |xs|);
      SampleSplit(xs, ps);
      if p == 0 {
        SplitStepZero(xs, ps);
      } else {
        SplitStepOther(xs, p, ps);
      }
    }
  }

  /**
   * The elements of a sample come from distinct positions of the input, so
   * they are a sub-multiset of it: nothing is invented and nothing is
   * taken more often than it occurs.
   */
  lemma {:induction false} SampleFromInput<T>(xs: seq<T>, picks: seq<nat>)
    requires InRange(picks, |xs|) && Distinct(picks)
    ensures multiset(Sample(xs, picks)) <= multiset(xs)
    decreases |xs|
  {
    if xs != [] {
      SampleSplit(xs, picks);
      ShiftDistinct(picks);
      SampleFromInput(xs[1..], Shift(picks));
      HeadAtMostOnce(xs, picks);
      SumBelow(multiset(Sample(xs[1..], Shift(picks))), Head(xs, picks), multiset(xs[1..]), multiset{xs[0]});
      assert multiset(xs) == multiset(xs[1..]) + multiset{xs[0]} by {
        assert xs == [xs[0]] + xs[1..];
      }
    }
  }

  /** Distinct positions take the first element at most once. */
  lemma HeadAtMostOnce<T>(xs: seq<T>, picks: seq<nat>)
    requires |xs| >= 1 && Distinct(picks)
    ensures Head(xs, picks) <= multiset{xs[0]}
  {
    ZerosDistinct(picks);
  }

  lemma SumBelow<T>(a: multiset<T>, b: multiset<T>, c: multiset<T>, d: multiset<T>)
    requires a <= c && b <= d
    ensures a + b <= c + d
  {
  }

  /** A sample of a list without repeats has no repeats. */
  lemma SampleDistinct<T>(xs: seq<T>, picks: seq<nat>)
    requires InRange(picks, |xs|) && Distinct(picks) && Distinct(xs)
    ensures Distinct(Sample(xs, picks))
  {
  }
}
