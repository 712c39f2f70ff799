/** Ordering hands by the cards' sorting value.

    The engine sorts a hand with an insertion sort that walks each new card
    left past every card whose sorting value is strictly greater. The
    functional reference `InsertionSort` takes the same steps on a sequence;
    `SortCards` runs them in place and is proved to agree with it. */
module Sorting {
  import opened Cards

  /** Non-decreasing sorting values. */
  predicate Sorted(s: seq<Card>)
  {
    forall i, j :: 0 <= i < j < |s| ==> s[i].sortingValue <= s[j].sortingValue
  }

  /** The cards of `s` whose sorting value is `v`, in their order in `s`. */
  function WithValue(s: seq<Card>, v: int): (r: seq<Card>)
    ensures |r| <= |s|
    ensures forall c :: c in r ==> c in s && c.sortingValue == v
  {
    if s == [] then []
    else WithValue(s[..|s| - 1], v) + (if s[|s| - 1].sortingValue == v then [s[|s| - 1]] else [])
  }

  /** Insert `x` at the back of `s` and let it sink left past every card
      with a strictly greater sorting value. */
  function Insert(s: seq<Card>, x: Card): (r: seq<Card>)
  {
    if s == [] || s[|s| - 1].sortingValue <= x.sortingValue then s + [x]
    else Insert(s[..|s| - 1], x) + [s[|s| - 1]]
  }

  /** Insertion sort: the first n-1 cards sorted, then the last inserted. */
  function InsertionSort(s: seq<Card>): (r: seq<Card>)
  {
    if s == [] then [] else Insert(InsertionSort(s[..|s| - 1]), s[|s| - 1])
  }

  lemma {:induction false} InsertPermutes(s: seq<Card>, x: Card)
    ensures multiset(Insert(s, x)) == multiset(s) + multiset{x}
  {
    if s == [] || s[|s| - 1].sortingValue <= x.sortingValue {
    } else {
      var init, last := s[..|s| - 1], s[|s| - 1];
      InsertPermutes(init, x);
      assert s == init + [last];
    }
  }

  lemma {:induction false} InsertKeepsSorted(s: seq<Card>, x: Card)
    requires Sorted(s)
    ensures Sorted(Insert(s, x))
    ensures |Insert(s, x)| == |s| + 1
    ensures forall c :: c in Insert(s, x) ==> c in s || c == x
  {
    if s == [] || s[|s| - 1].sortingValue <= x.sortingValue {
    } else {
      var init, last := s[..|s| - 1], s[|s| - 1];
      InsertKeepsSorted(init, x);
      var r := Insert(init, x);
      forall c | c in r ensures c.sortingValue <= last.sortingValue {
        if c != x {
          var k :| 0 <= k < |init| && init[k] == c;
          assert s[k] == c;
        }
      }
      forall i, j | 0 <= i < j < |r| + 1 ensures (r + [last])[i].sortingValue <= (r + [last])[j].sortingValue {
        if j == |r| {
          assert r[i] in r;
        }
      }
    }
  }

  lemma WithValueSnoc(s: seq<Card>, c: Card, v: int)
    ensures WithValue(s + [c], v) == WithValue(s, v) + (if c.sortingValue == v then [c] else [])
  {
    assert (s + [c])[..|s|] == s;
  }

  lemma AppendCommutesPastEmpty(w: seq<Card>, xs: seq<Card>, ys: seq<Card>)
    requires xs == [] || ys == []
    ensures w + xs + ys == w + ys + xs
  {
    if xs == [] {
      assert w + xs == w;
    } else {
      assert w + ys == w;
    }
  }

  /** Cards of equal sorting value never pass each other. */
  lemma {:induction false} InsertStable(s: seq<Card>, x: Card, v: int)
    ensures WithValue(Insert(s, x), v) == WithValue(s, v) + (if x.sortingValue == v then [x] else [])
  {
    if s == [] || s[|s| - 1].sortingValue <= x.sortingValue {
      WithValueSnoc(s, x, v);
    } else {
      var init, last := s[..|s| - 1], s[|s| - 1];
      var r := Insert(init, x);
      assert Insert(s, x) == r + [last];
      assert s == init + [last];
      InsertStable(init, x, v);
      WithValueSnoc(r, last, v);
      WithValueSnoc(init, last, v);
      AppendCommutesPastEmpty(WithValue(init, v), if x.sortingValue == v then [x] else [],
                              if last.sortingValue == v then [last] else []);
    }
  }

  lemma {:induction false} InsertionSortCorrect(s: seq<Card>)
    ensures Sorted(InsertionSort(s))
    ensures multiset(InsertionSort(s)) == multiset(s)
  {
    if s != [] {
      var init, last := s[..|s| - 1], s[|s| - 1];
      InsertionSortCorrect(init);
      InsertKeepsSorted(InsertionSort(init), last);
      InsertPermutes(InsertionSort(init), last);
      assert s == init + [last];
    }
  }

  /** Stability: for every sorting value, the cards carrying it keep their
      relative order. */
  lemma {:induction false} InsertionSortStable(s: seq<Card>, v: int)
    ensures WithValue(InsertionSort(s), v) == WithValue(s, v)
  {
    if s != [] {
      var init := s[..|s| - 1];
      InsertionSortStable(init, v);
      InsertStable(InsertionSort(init), s[|s| - 1], v);
    }
  }

  /** While the new card `x` sits at position k of the prefix being
      sorted, with only greater cards to its right, finishing the insertion
      only concerns the cards left of it. */
  lemma {:induction false} InsertSplit(p: seq<Card>, x: Card, k: nat)
    requires k <= |p|
    requires forall j :: k <= j < |p| ==> x.sortingValue < p[j].sortingValue
    ensures Insert(p, x) == Insert(p[..k], x) + p[k..]
  {
    if k < |p| {
      var init := p[..|p| - 1];
      InsertSplit(init, x, k);
      assert init[..k] == p[..k];
      assert init[k..] + [p[|p| - 1]] == p[k..];
    } else {
      assert p[..k] == p;
    }
  }

  /** The last card of a sorted list has the greatest sorting value. */
  lemma SortedLastIsGreatest(s: seq<Card>)
    requires Sorted(s) && s != []
    ensures forall c :: c in s ==> c.sortingValue <= s[|s| - 1].sortingValue
  {
    forall c | c in s ensures c.sortingValue <= s[|s| - 1].sortingValue {
      var j :| 0 <= j < |s| && s[j] == c;
      if j < |s| - 1 {
        assert s[j].sortingValue <= s[|s| - 1].sortingValue;
      }
    }
  }

  /** Swapping the sinking card `x` with its left neighbour moves it one
      place left in the picture `p[..k] + [x] + p[k..] + rest`. */
  lemma SinkStep(p: seq<Card>, x: Card, rest: seq<Card>, k: nat)
    requires 0 < k <= |p|
    ensures var a := p[..k] + [x] + p[k..] + rest;
            a[k := p[k - 1]][k - 1 := x] == p[..k - 1] + [x] + p[k - 1..] + rest
  {
    var a := p[..k] + [x] + p[k..] + rest;
    var b := p[..k - 1] + [x] + p[k - 1..] + rest;
    assert |a| == |b|;
    forall j | 0 <= j < |a| ensures a[k := p[k - 1]][k - 1 := x][j] == b[j] {
      if j < k - 1 {
        assert a[j] == p[j] && b[j] == p[j];
      } else if k + 1 <= j < |p| + 1 {
        assert a[j] == p[j - 1] && b[j] == p[j - 1];
      } else if j > |p| {
        assert a[j] == rest[j - |p| - 1] && b[j] == rest[j - |p| - 1];
      }
    }
  }

  /** Where the sinking card stops, the insertion is finished. */
  lemma SinkDone(p: seq<Card>, x: Card, rest: seq<Card>, k: nat)
    requires k <= |p|
    requires forall j :: k <= j < |p| ==> x.sortingValue < p[j].sortingValue
    requires k > 0 ==> p[k - 1].sortingValue <= x.sortingValue
    ensures (p[..k] + [x] + p[k..] + rest)[..|p| + 1] == Insert(p, x)
    ensures (p[..k] + [x] + p[k..] + rest)[|p| + 1..] == rest
  {
    InsertSplit(p, x, k);
    if k > 0 {
      assert p[..k][..k - 1] == p[..k - 1];
      assert p[..k][k - 1] == p[k - 1];
    }
    assert Insert(p[..k], x) == p[..k] + [x];
    var a := p[..k] + [x] + p[k..];
    assert p[..k] + [x] + p[k..] + rest == a + rest;
    assert (a + rest)[..|a|] == a;
    assert (a + rest)[|a|..] == rest;
  }

  /** One pass of the outer loop: the card at position i sinks left into
      the prefix before it. */
  method SinkCard(cards: array<Card>, i: nat)
    requires i < cards.Length
    modifies cards
    ensures cards[..i + 1] == Insert(old(cards[..i]), old(cards[i]))
    ensures cards[i + 1..] == old(cards[i + 1..])
  {
    ghost var p := cards[..i];
    ghost var x := cards[i];
    ghost var rest := cards[i + 1..];
    assert cards[..] == p[..i] + [x] + p[i..] + rest;
    var k := i;
    while k > 0 && cards[k].sortingValue < cards[k - 1].sortingValue
      invariant 0 <= k <= i
      invariant cards[..] == p[..k] + [x] + p[k..] + rest
      invariant forall j :: k <= j < i ==> x.sortingValue < p[j].sortingValue
    {
      assert cards[k] == x && cards[k - 1] == p[k - 1];
      SinkStep(p, x, rest, k);
      cards[k], cards[k - 1] := cards[k - 1], cards[k];
      k := k - 1;
    }
    assert k > 0 ==> cards[k] == x && cards[k - 1] == p[k - 1];
    SinkDone(p, x, rest, k);
  }

  /** In-place insertion sort of a hand. */
  method SortCards(cards: array<Card>)
    modifies cards
    ensures cards[..] == InsertionSort(old(cards[..]))
  {
    ghost var orig := cards[..];
    if cards.Length == 0 {
      return;
    }
    var i := 1;
    assert orig[..1] == [] + [orig[0]];
    while i < cards.Length
      invariant 1 <= i <= cards.Length
      invariant cards[..i] == InsertionSort(orig[..i])
      invariant cards[i..] == orig[i..]
    {
      assert cards[i] == orig[i];
      SinkCard(cards, i);
      assert orig[..i + 1][..i] == orig[..i];
      i := i + 1;
    }
    assert cards[..] == cards[..i];
    assert orig == orig[..i];
  }
}
