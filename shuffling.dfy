/**
 * Kotlin's `shuffled()`, with the random source made explicit: `picks` are the successive draws
 * of the generator. Each draw takes one of the remaining elements to the front. Every outcome is
 * a permutation of the input, and every permutation is the outcome of some draws, so "shuffle"
 * here means exactly "some permutation".
 */
module Shuffling {

  /** No value occurs twice in `s`. */
  predicate Distinct<T(==)>(s: seq<T>) {
    forall i, j :: 0 <= i < j < |s| ==> s[i] != s[j]
  }

  /** `s` without its element at position `k`, the others in their order. */
  function RemoveAt<T>(s: seq<T>, k: nat): (r: seq<T>)
    requires k < |s|
    ensures |r| == |s| - 1
    ensures forall i :: 0 <= i < |r| ==> r[i] == if i < k then s[i] else s[i + 1]
  {
    s[..k] + s[k + 1..]
  }

  lemma RemoveAtMultiset<T>(s: seq<T>, k: nat)
    requires k < |s|
    ensures multiset(RemoveAt(s, k)) + multiset{s[k]} == multiset(s)
  {
    assert s == s[..k] + [s[k]] + s[k + 1..];
  }

  /** The draw taken from `picks` when `n` elements remain. */
  function Draw(picks: seq<nat>, n: nat): (k: nat)
    requires n > 0
    ensures k < n
    ensures |picks| > 0 && picks[0] < n ==> k == picks[0]
  {
    if |picks| == 0 then 0 else picks[0] % n
  }

  function Rest(picks: seq<nat>): seq<nat> {
    if |picks| == 0 then [] else picks[1..]
  }

  /** The shuffled sequence: the drawn element first, then the shuffle of the others. */
  function Shuffle<T(==)>(s: seq<T>, picks: seq<nat>): (r: seq<T>)
    ensures |r| == |s|
    ensures multiset(r) == multiset(s)
    decreases |s|
  {
    if |s| == 0 then []
    else
      var k := Draw(picks, |s|);
      RemoveAtMultiset(s, k);
      [s[k]] + Shuffle(RemoveAt(s, k), Rest(picks))
  }

  /** A first draw of `k` puts `s[k]` in front of the shuffle of the rest. */
  lemma ShuffleFirstDraw<T>(s: seq<T>, k: nat, tail: seq<nat>)
    requires k < |s|
    ensures Shuffle(s, [k] + tail) == [s[k]] + Shuffle(RemoveAt(s, k), tail)
  {
    var picks := [k] + tail;
    assert Draw(picks, |s|) == k;
    assert Rest(picks) == tail;
  }

  /** A value counted in a sequence's multiset sits at some position. */
  lemma PositionOf<T>(s: seq<T>, x: T) returns (k: nat)
    requires x in multiset(s)
    ensures k < |s| && s[k] == x
  {
    assert x in s;
    k :| 0 <= k < |s| && s[k] == x;
  }

  /** Every permutation of `s` is what some sequence of draws produces. */
  lemma {:induction false} ShuffleReaches<T>(s: seq<T>, p: seq<T>) returns (picks: seq<nat>)
    requires multiset(p) == multiset(s)
    ensures Shuffle(s, picks) == p
    decreases |s|
  {
    assert |p| == |multiset(p)| == |multiset(s)| == |s|;
    if |s| == 0 {
      picks := [];
    } else {
      var k := PositionOf(s, p[0]);
      TailMatchesRest(s, p, k);
      var tail := ShuffleReaches(RemoveAt(s, k), p[1..]);
      picks := [k] + tail;
      ShuffleFirstDraw(s, k, tail);
      assert p == [p[0]] + p[1..];
    }
  }

  /** Once the first element of `p` is drawn from `s`, what remains on both sides agrees. */
  lemma TailMatchesRest<T>(s: seq<T>, p: seq<T>, k: nat)
    requires multiset(p) == multiset(s) && k < |s| && |p| > 0 && s[k] == p[0]
    ensures multiset(p[1..]) == multiset(RemoveAt(s, k))
  {
    RemoveAtMultiset(s, k);
    assert p == [p[0]] + p[1..];
    var a, b := multiset(p[1..]), multiset(RemoveAt(s, k));
    assert a + multiset{p[0]} == b + multiset{p[0]};
    forall y
      ensures a[y] == b[y]
    {
      assert (a + multiset{p[0]})[y] == (b + multiset{p[0]})[y];
    }
  }

  lemma {:induction false} DistinctCountsAtMostOne<T>(s: seq<T>, x: T)
    requires Distinct(s)
    ensures multiset(s)[x] <= 1
    decreases |s|
  {
    if |s| > 0 {
      assert s == [s[0]] + s[1..];
      DistinctCountsAtMostOne(s[1..], x);
      if s[0] == x {
        assert x !in s[1..];
      }
    }
  }

  lemma RepeatCountsTwice<T>(s: seq<T>, i: nat, j: nat)
    requires i < j < |s| && s[i] == s[j]
    ensures multiset(s)[s[i]] >= 2
  {
    assert s == s[..i] + [s[i]] + s[i + 1..j] + [s[j]] + s[j + 1..];
  }

  /** Reordering cannot create a duplicate. */
  lemma PermutationKeepsDistinct<T>(a: seq<T>, b: seq<T>)
    requires multiset(a) == multiset(b) && Distinct(a)
    ensures Distinct(b)
  {
    forall i, j | 0 <= i < j < |b|
      ensures b[i] != b[j]
    {
      if b[i] == b[j] {
        RepeatCountsTwice(b, i, j);
        DistinctCountsAtMostOne(a, b[i]);
      }
    }
  }
}
