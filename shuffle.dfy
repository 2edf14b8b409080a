/** The in-place shuffle of the filler list: a backward Fisher-Yates pass
    whose swap partners are supplied by the caller (they are the random
    generator's draws; the generator itself is not part of this model). */
module Shuffle {

  /** Exchanges the elements at i and j. */
  function Swap<T>(s: seq<T>, i: nat, j: nat): (r: seq<T>)
    requires i < |s| && j < |s|
    ensures |r| == |s|
  {
    s[i := s[j]][j := s[i]]
  }

  /** Swap partners for positions i, i-1, ..., 1: the partner of position
      i - k is drawn from [0, i - k], that is js[k] <= i - k. */
  predicate PartnersFrom(i: nat, js: seq<nat>) {
    |js| == i && forall k :: 0 <= k < i ==> js[k] <= i - k
  }

  /** Swap partners for a whole list of n elements. */
  predicate Partners(n: nat, js: seq<nat>) {
    PartnersFrom(if n == 0 then 0 else n - 1, js)
  }

  /** Positions i down to 1 swapped, in that order, with their partners. */
  function FisherYates<T>(s: seq<T>, i: nat, js: seq<nat>): (r: seq<T>)
    requires i < |s| && PartnersFrom(i, js)
    ensures |r| == |s|
    decreases i
  {
    if i == 0 then s else FisherYates(Swap(s, i, js[0]), i - 1, js[1..])
  }

  /** Whatever the partners, the pass only rearranges the elements. */
  lemma {:induction false} FisherYatesPermutes<T>(s: seq<T>, i: nat, js: seq<nat>)
    requires i < |s| && PartnersFrom(i, js)
    ensures multiset(FisherYates(s, i, js)) == multiset(s)
    decreases i
  {
    if i > 0 {
      StepPartners(i, js);
      FisherYatesPermutes(Swap(s, i, js[0]), i - 1, js[1..]);
    }
  }

  lemma StepPartners(i: nat, js: seq<nat>)
    requires i > 0 && PartnersFrom(i, js)
    ensures js[0] <= i && PartnersFrom(i - 1, js[1..])
  {
  }

  /** The whole list shuffled with the given partners. */
  function Shuffled<T>(s: seq<T>, js: seq<nat>): (r: seq<T>)
    requires Partners(|s|, js)
    ensures |r| == |s|
  {
    if |s| == 0 then s else FisherYates(s, |s| - 1, js)
  }

  /** A shuffle is a permutation, whatever the partners drawn. */
  lemma ShuffledPermutes<T>(s: seq<T>, js: seq<nat>)
    requires Partners(|s|, js)
    ensures multiset(Shuffled(s, js)) == multiset(s)
  {
    if |s| > 0 {
      FisherYatesPermutes(s, |s| - 1, js);
    }
  }

  /** On three elements the pass is two swaps: position 2, then position 1. */
  lemma ShuffledThree<T>(s: seq<T>, js: seq<nat>)
    requires |s| == 3 && Partners(3, js)
    ensures js[0] < 3 && js[1] < 2
    ensures Shuffled(s, js) == Swap(Swap(s, 2, js[0]), 1, js[1])
  {
  }

  /** Shuffles a in place; afterwards it holds the shuffled old contents. */
  method ShuffleInPlace<T>(a: array<T>, js: seq<nat>)
    requires Partners(a.Length, js)
    modifies a
    ensures a[..] == Shuffled(old(a[..]), js)
  {
    if a.Length == 0 {
      return;
    }
    ghost var goal := FisherYates(a[..], a.Length - 1, js);
    var i, k := a.Length - 1, 0;
    assert js[k..] == js;
    while i > 0
      invariant 0 <= i < a.Length && k == a.Length - 1 - i
      invariant PartnersFrom(i, js[k..])
      invariant FisherYates(a[..], i, js[k..]) == goal
      decreases i
    {
      var j := js[k];
      ghost var before := a[..];
      StepPartners(i, js[k..]);
      assert js[k..][1..] == js[k + 1..];
      assert FisherYates(before, i, js[k..]) == FisherYates(Swap(before, i, j), i - 1, js[k + 1..]);
      var t := a[i];
      a[i] := a[j];
      a[j] := t;
      ghost var after := a[..];
      assert after == Swap(before, i, j);
      assert FisherYates(after, i - 1, js[k + 1..]) == goal;
      i, k := i - 1, k + 1;
    }
    assert FisherYates(a[..], 0, js[k..]) == a[..];
  }
}
