/** The Fisher–Yates shuffle `shuffleArray` of src/App.tsx.

    The source draws each swap partner with `Math.floor(Math.random() * (i + 1))`.
    Here the draws are an explicit input, so the shuffle is a deterministic
    function of the array and the draws. */
module Shuffle {

  /** `draws[i]` is the partner index `j` the loop picks while its counter is `i`,
      so `0 <= draws[i] <= i`. The loop never runs with counter 0, so `draws[0]`
      is never read. */
  predicate ValidDraws(draws: seq<nat>, n: nat) {
    n <= |draws| && forall i :: 0 < i < n ==> draws[i] <= i
  }

  /** Exchanging the elements at `i` and `j`. */
  function Swap<T>(s: seq<T>, i: nat, j: nat): (r: seq<T>)
    requires i < |s| && j < |s|
    ensures |r| == |s| && r[i] == s[j] && r[j] == s[i]
    ensures forall k :: 0 <= k < |s| && k != i && k != j ==> r[k] == s[k]
  {
    s[i := s[j]][j := s[i]]
  }

  lemma SwapPermutes<T>(s: seq<T>, i: nat, j: nat)
    requires i < |s| && j < |s|
    ensures multiset(Swap(s, i, j)) == multiset(s)
  {
  }

  /** The swaps the loop still has to do when its counter is `i`:
      counters `i`, `i - 1`, ..., `1`, in that order. The length is kept;
      that the elements are kept is `ShuffleDownPermutes`. */
  function ShuffleDown<T>(s: seq<T>, draws: seq<nat>, i: nat): (r: seq<T>)
    requires i < |s| && ValidDraws(draws, |s|)
    ensures |r| == |s|
    decreases i
  {
    if i == 0 then s else ShuffleDown(Swap(s, i, draws[i]), draws, i - 1)
  }

  lemma {:induction false} ShuffleDownPermutes<T>(s: seq<T>, draws: seq<nat>, i: nat)
    requires i < |s| && ValidDraws(draws, |s|)
    ensures multiset(ShuffleDown(s, draws, i)) == multiset(s)
    decreases i
  {
    if i > 0 {
      var t := Swap(s, i, draws[i]);
      SwapPermutes(s, i, draws[i]);
      ShuffleDownPermutes(t, draws, i - 1);
    }
  }

  /** The result of the whole shuffle: the loop starts at the last index.
      The length is kept; the rest of its meaning is `FisherYatesPermutes`. */
  function FisherYates<T>(s: seq<T>, draws: seq<nat>): (r: seq<T>)
    requires ValidDraws(draws, |s|)
    ensures |r| == |s|
  {
    if s == [] then s else ShuffleDown(s, draws, |s| - 1)
  }

  /** Whatever the draws, the shuffle returns a permutation of its input. */
  lemma {:induction false} FisherYatesPermutes<T>(s: seq<T>, draws: seq<nat>)
    requires ValidDraws(draws, |s|)
    ensures |FisherYates(s, draws)| == |s|
    ensures multiset(FisherYates(s, draws)) == multiset(s)
    ensures forall x :: x in FisherYates(s, draws) <==> x in s
  {
    if s != [] {
      ShuffleDownPermutes(s, draws, |s| - 1);
    }
    var r := FisherYates(s, draws);
    forall x ensures x in r <==> x in s {
      assert x in r <==> x in multiset(r);
      assert x in s <==> x in multiset(s);
    }
  }

  lemma {:induction false} ShuffleDownKeeps<T>(s: seq<T>, draws: seq<nat>, i: nat)
    requires i < |s| && ValidDraws(draws, |s|)
    requires forall k :: 0 < k <= i ==> draws[k] == k
    ensures ShuffleDown(s, draws, i) == s
    decreases i
  {
    if i > 0 {
      assert Swap(s, i, draws[i]) == s;
      ShuffleDownKeeps(s, draws, i - 1);
    }
  }

  /** Draws that always pick `j == i` leave the order unchanged, so the
      original order is among the shuffle's outcomes. */
  lemma FisherYatesKeepsOnSelfDraws<T>(s: seq<T>, draws: seq<nat>)
    requires ValidDraws(draws, |s|)
    requires forall k :: 0 < k < |s| ==> draws[k] == k
    ensures FisherYates(s, draws) == s
  {
    if s != [] {
      ShuffleDownKeeps(s, draws, |s| - 1);
    }
  }

  /** `shuffleArray`: copies the input and swaps in place from the last index
      down to 1. The input array is only read. */
  method ShuffleArray<T>(a: array<T>, draws: seq<nat>) returns (shuffled: array<T>)
    requires ValidDraws(draws, a.Length)
    ensures fresh(shuffled)
    ensures shuffled[..] == FisherYates(a[..], draws)
    ensures shuffled.Length == a.Length && multiset(shuffled[..]) == multiset(a[..])
    ensures a[..] == old(a[..])
  {
    shuffled := new T[a.Length](k requires 0 <= k < a.Length reads a => a[k]);
    assert shuffled[..] == a[..];
    var i := shuffled.Length - 1;
    while i > 0
      invariant -1 <= i < shuffled.Length
      invariant i < 0 ==> shuffled.Length == 0
      invariant i >= 0 ==> ShuffleDown(shuffled[..], draws, i) == FisherYates(a[..], draws)
    {
      ghost var before := shuffled[..];
      var j := draws[i];
      var t := shuffled[i];
      shuffled[i] := shuffled[j];
      shuffled[j] := t;
      assert shuffled[..] == Swap(before, i, j);
      assert ShuffleDown(before, draws, i) == ShuffleDown(shuffled[..], draws, i - 1);
      i := i - 1;
    }
    if i == 0 {
      assert shuffled[..] == ShuffleDown(shuffled[..], draws, 0);
    }
    FisherYatesPermutes(a[..], draws);
  }

  /** `shuffleArray` applied to a list held as a value: the list is laid out in
      a new array, shuffled there, and read back. */
  method ShuffledCopy<T>(s: seq<T>, draws: seq<nat>) returns (r: seq<T>)
    requires ValidDraws(draws, |s|)
    ensures r == FisherYates(s, draws)
    ensures |r| == |s| && multiset(r) == multiset(s)
  {
    var a := new T[|s|](k requires 0 <= k < |s| => s[k]);
    assert a[..] == s;
    var shuffled := ShuffleArray(a, draws);
    r := shuffled[..];
  }
}
