/** Shuffling a list in place by swapping each position, from the last one
    down, with a position at or below it chosen at random.

    The random choices are an input: `picks[i]` is the index the random
    source returned at step i, a number between 0 and i inclusive. */
module Shuffle {

  /** Step i may only pick a position at or below i. */
  predicate PickInRange(picks: seq<nat>, i: int)
    requires 0 <= i < |picks|
  {
    picks[i] <= i
  }

  /** Are the random picks in range for a list of length n? */
  predicate ValidPicks(picks: seq<nat>, n: nat)
  {
    |picks| == n && forall i :: 0 <= i < n ==> PickInRange(picks, i)
  }

  function Swap<E>(s: seq<E>, i: nat, j: nat): (r: seq<E>)
    requires i < |s| && j < |s|
    ensures |r| == |s|
  {
    s[i := s[j]][j := s[i]]
  }

  /** A swap only reorders. */
  lemma SwapPermutes<E>(s: seq<E>, i: nat, j: nat)
    requires i < |s| && j < |s|
    ensures multiset(Swap(s, i, j)) == multiset(s)
  {
  }

  /** A swap exchanges the two positions and leaves every other one. */
  lemma SwapExchanges<E>(s: seq<E>, i: nat, j: nat)
    requires i < |s| && j < |s|
    ensures Swap(s, i, j)[i] == s[j] && Swap(s, i, j)[j] == s[i]
    ensures forall k :: 0 <= k < |s| && k != i && k != j ==> Swap(s, i, j)[k] == s[k]
  {
  }

  /** The steps i-1, i-2, ..., 0 applied to `s`. */
  function ShuffleBelow<E>(s: seq<E>, picks: seq<nat>, i: nat): (r: seq<E>)
    requires i <= |s| && ValidPicks(picks, |s|)
    decreases i
  {
    if i == 0 then s
    else
      assert PickInRange(picks, i - 1);
      ShuffleBelow(Swap(s, i - 1, picks[i - 1]), picks, i - 1)
  }

  /** The list after a full shuffle with the given picks. */
  function Shuffled<E>(s: seq<E>, picks: seq<nat>): seq<E>
    requires ValidPicks(picks, |s|)
  {
    if |s| > 1 then ShuffleBelow(s, picks, |s|) else s
  }

  /** Whatever the random picks, a shuffle only reorders the list. */
  lemma {:induction false} ShuffleBelowPermutes<E>(s: seq<E>, picks: seq<nat>, i: nat)
    requires i <= |s| && ValidPicks(picks, |s|)
    ensures |ShuffleBelow(s, picks, i)| == |s|
    ensures multiset(ShuffleBelow(s, picks, i)) == multiset(s)
    decreases i
  {
    if i > 0 {
      assert PickInRange(picks, i - 1);
      SwapPermutes(s, i - 1, picks[i - 1]);
      ShuffleBelowPermutes(Swap(s, i - 1, picks[i - 1]), picks, i - 1);
    }
  }

  lemma ShuffledPermutes<E>(s: seq<E>, picks: seq<nat>)
    requires ValidPicks(picks, |s|)
    ensures |Shuffled(s, picks)| == |s|
    ensures multiset(Shuffled(s, picks)) == multiset(s)
  {
    if |s| > 1 {
      ShuffleBelowPermutes(s, picks, |s|);
    }
  }

  /** Shuffle the list in place. */
  method ShuffleList<E>(list: array<E>, picks: seq<nat>)
    requires ValidPicks(picks, list.Length)
    modifies list
    ensures list[..] == Shuffled(old(list[..]), picks)
    ensures multiset(list[..]) == multiset(old(list[..]))
  {
    ghost var orig := list[..];
    ShuffledPermutes(orig, picks);
    if list.Length > 1 {
      var i := list.Length - 1;
      while i >= 0
        invariant -1 <= i < list.Length
        invariant ShuffleBelow(list[..], picks, i + 1) == ShuffleBelow(orig, picks, list.Length)
      {
        assert PickInRange(picks, i);
        var tmp := list[i];
        var randomIndex := picks[i];
        ghost var before := list[..];
        list[i] := list[randomIndex];
        list[randomIndex] := tmp;
        assert list[..] == Swap(before, i, randomIndex);
        i := i - 1;
      }
    }
  }
}
