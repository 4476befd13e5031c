/** Stock facts about finite sequences that several components share. */
module Sequences {

  datatype Option<+T> = None | Some(value: T)

  /** The sum of a measure over a sequence. */
  ghost function Sum<T>(xs: seq<T>, f: T -> nat): nat {
    if xs == [] then 0 else f(xs[0]) + Sum(xs[1..], f)
  }

  lemma {:induction false} SumUpdate<T>(xs: seq<T>, i: nat, x: T, f: T -> nat)
    requires i < |xs|
    ensures Sum(xs[i := x], f) == Sum(xs, f) - f(xs[i]) + f(x)
  {
    if i == 0 {
      assert xs[0 := x][1..] == xs[1..];
    } else {
      assert xs[i := x][1..] == xs[1..][i - 1 := x];
      SumUpdate(xs[1..], i - 1, x, f);
    }
  }

  lemma {:induction false} SumBound<T>(xs: seq<T>, f: T -> nat, k: nat)
    requires forall i :: 0 <= i < |xs| ==> f(xs[i]) <= k
    ensures Sum(xs, f) <= k * |xs|
  {
    if xs != [] {
      assert forall i :: 0 <= i < |xs[1..]| ==> xs[1..][i] == xs[i + 1];
      SumBound(xs[1..], f, k);
    }
  }

  lemma {:induction false} SumZero<T>(xs: seq<T>, f: T -> nat)
    requires forall i :: 0 <= i < |xs| ==> f(xs[i]) == 0
    ensures Sum(xs, f) == 0
  {
    SumBound(xs, f, 0);
  }

  /** The union with multiplicity of the bags a function attaches to the elements. */
  ghost function Bag<T, H>(xs: seq<T>, f: T -> multiset<H>): multiset<H> {
    if xs == [] then multiset{} else f(xs[0]) + Bag(xs[1..], f)
  }

  lemma {:induction false} BagUpdate<T, H>(xs: seq<T>, i: nat, x: T, f: T -> multiset<H>)
    requires i < |xs|
    ensures f(xs[i]) <= Bag(xs, f)
    ensures Bag(xs[i := x], f) == Bag(xs, f) - f(xs[i]) + f(x)
  {
    if i == 0 {
      assert xs[0 := x][1..] == xs[1..];
    } else {
      assert xs[i := x][1..] == xs[1..][i - 1 := x];
      BagUpdate(xs[1..], i - 1, x, f);
    }
  }

  lemma {:induction false} BagEmpty<T, H>(xs: seq<T>, f: T -> multiset<H>)
    requires forall i :: 0 <= i < |xs| ==> f(xs[i]) == multiset{}
    ensures Bag(xs, f) == multiset{}
  {
    if xs != [] {
      BagEmpty(xs[1..], f);
    }
  }

  /** A prefix of a concatenation. */
  lemma PrefixOf<T>(a: seq<T>, b: seq<T>, m: nat)
    requires m <= |a| + |b|
    ensures m <= |a| ==> (a + b)[..m] == a[..m]
    ensures |a| <= m ==> (a + b)[..m] == a + b[..m - |a|]
  {
  }

  /** A slice of a concatenation. */
  lemma SliceOf<T>(a: seq<T>, b: seq<T>, lo: nat, hi: nat)
    requires lo <= hi <= |a| + |b|
    ensures hi <= |a| ==> (a + b)[lo..hi] == a[lo..hi]
    ensures lo <= |a| <= hi ==> (a + b)[lo..hi] == a[lo..] + b[..hi - |a|]
    ensures |a| <= lo ==> (a + b)[lo..hi] == b[lo - |a|..hi - |a|]
  {
  }
}
