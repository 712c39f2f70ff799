/** The rule engine that runs a round: it builds and shuffles the deck,
    deals, judges and plays cards, carries out the action cards, moves the
    turn on, makes the computer players' moves and scores the round.

    The windows, the timer that delays a computer's move and the dialogs
    are not part of this model. The answers a human gives in the dialogs
    (the colour for a Wild, the seat to swap hands with on a seven) are
    inputs, and every random choice is taken from a `RandomSource` holding
    the raw values the random generator will hand out. */
module Controller {
  import opened Cards
  import opened Seats
  import opened GameState
  import opened Sorting
  import opened Shuffle
  import opened Deck
  import opened Rules

  // ---------------------------------------------------------------------
  // Randomness
  // ---------------------------------------------------------------------

  /** The number in [lo, hi) a random generator answers when its next raw
      value is the head of `stream`; a source with nothing left answers lo. */
  function NextIn(stream: seq<nat>, lo: int, hi: int): (r: int)
    requires lo < hi
    ensures lo <= r < hi
  {
    if stream == [] then lo else lo + stream[0] % (hi - lo)
  }

  /** The raw values left after one draw. */
  function Rest(stream: seq<nat>): (r: seq<nat>)
    ensures stream != [] ==> |r| == |stream| - 1
  {
    if stream == [] then [] else stream[1..]
  }

  /** The raw values left after n draws. */
  function Drop(stream: seq<nat>, n: nat): seq<nat>
  {
    if n == 0 then stream else Drop(Rest(stream), n - 1)
  }

  /** The picks a shuffle of n cards draws: for position i, from the last
      one down to 0, a number between 0 and i. */
  function ShufflePicks(stream: seq<nat>, n: nat): (picks: seq<nat>)
    ensures ValidPicks(picks, n)
  {
    if n == 0 then []
    else
      var prev := ShufflePicks(Rest(stream), n - 1);
      var picks := prev + [NextIn(stream, 0, n)];
      assert ValidPicks(picks, n) by {
        forall i | 0 <= i < n ensures PickInRange(picks, i) {
          if i < n - 1 {
            assert PickInRange(prev, i);
          }
        }
      }
      picks
  }

  /** The random number generator, as the sequence of raw values it will
      hand out. */
  class RandomSource {
    var stream: seq<nat>

    constructor (values: seq<nat>)
      ensures stream == values
    {
      stream := values;
    }

    /** A number in [lo, hi). */
    method Next(lo: int, hi: int) returns (r: int)
      requires lo < hi
      modifies this
      ensures lo <= r < hi
      ensures r == NextIn(old(stream), lo, hi) && stream == Rest(old(stream))
    {
      r := NextIn(stream, lo, hi);
      stream := Rest(stream);
    }

    /** The picks for shuffling n cards. A list of at most one card is
        left alone and draws nothing. */
    method ShufflePicksFor(n: nat) returns (picks: seq<nat>)
      modifies this
      ensures ValidPicks(picks, n)
      ensures picks == ShufflePicks(old(stream), n)
      ensures stream == if n > 1 then Drop(old(stream), n) else old(stream)
    {
      picks := ShufflePicks(stream, n);
      if n > 1 {
        stream := Drop(stream, n);
      }
    }
  }

  // ---------------------------------------------------------------------
  // The generated deck
  // ---------------------------------------------------------------------

  lemma {:induction false} NonWildCountOfColorRun(c: Color, k: nat, base: nat, sortingOf: ValueTable, scoringOf: ValueTable)
    requires c != Wild && k <= 16
    ensures NonWildCount(ColorRun(c, k, base, sortingOf, scoringOf)) == RunLength(k)
  {
    if k > 0 {
      var prev := ColorRun(c, k - 1, base, sortingOf, scoringOf);
      var step := FaceCards(c, k - 1, base + RunLength(k - 1), sortingOf, scoringOf);
      NonWildCountOfColorRun(c, k - 1, base, sortingOf, scoringOf);
      SumOfAppend(prev, step, NonWildWeight);
      NonWildCountOfFaceCards(c, k - 1, base + RunLength(k - 1), sortingOf, scoringOf);
    }
  }

  /** The copies of a face in a playable colour are all non-wild. */
  lemma NonWildCountOfFaceCards(c: Color, k: nat, start: nat, sortingOf: ValueTable, scoringOf: ValueTable)
    requires c != Wild && k < 16
    ensures NonWildCount(FaceCards(c, k, start, sortingOf, scoringOf)) == Copies(k)
  {
    var cards := FaceCards(c, k, start, sortingOf, scoringOf);
    NonWildCountOfCons(cards[0], cards[1..]);
    if k != 0 {
      NonWildCountOfCons(cards[1], []);
      assert cards[1..] == [cards[1]];
    } else {
      assert cards[1..] == [];
    }
  }

  lemma {:induction false} NonWildCountOfWildRun(k: nat, base: nat, sortingOf: ValueTable, scoringOf: ValueTable)
    ensures NonWildCount(WildRun(k, base, sortingOf, scoringOf)) == 0
  {
    if k > 0 {
      var prev := WildRun(k - 1, base, sortingOf, scoringOf);
      var a := NewCard(base + 2 * (k - 1), Wild, NoFace, sortingOf, scoringOf);
      var b := NewCard(base + 2 * (k - 1) + 1, Wild, Draw4, sortingOf, scoringOf);
      assert WildRun(k, base, sortingOf, scoringOf) == prev + [a, b];
      NonWildCountOfWildRun(k - 1, base, sortingOf, scoringOf);
      SumOfAppend(prev, [a, b], NonWildWeight);
      NonWildCountOfCons(a, [b]);
      NonWildCountOfCons(b, []);
    }
  }

  lemma {:induction false} NonWildCountOfDeckPrefix(i: nat, sortingOf: ValueTable, scoringOf: ValueTable)
    requires i <= NumberOfColors
    ensures NonWildCount(DeckPrefix(i, sortingOf, scoringOf)) == 31 * (if i == NumberOfColors then i - 1 else i)
  {
    if i > 0 {
      var prev := DeckPrefix(i - 1, sortingOf, scoringOf);
      var run := ColorCards(i - 1, |prev|, sortingOf, scoringOf);
      assert DeckPrefix(i, sortingOf, scoringOf) == prev + run;
      NonWildCountOfDeckPrefix(i - 1, sortingOf, scoringOf);
      assert NonWildCount(prev) == 31 * (i - 1);
      SumOfAppend(prev, run, NonWildWeight);
      assert NonWildCount(prev + run) == NonWildCount(prev) + NonWildCount(run);
      NonWildCountOfColorCards(i - 1, |prev|, sortingOf, scoringOf);
      assert NonWildCount(run) == if i == NumberOfColors then 0 else 31;
    }
  }

  /** Colour ordinal i contributes 31 non-wild cards, except the last,
      Wild, which contributes none. */
  lemma NonWildCountOfColorCards(i: nat, base: nat, sortingOf: ValueTable, scoringOf: ValueTable)
    requires i < NumberOfColors
    ensures NonWildCount(ColorCards(i, base, sortingOf, scoringOf)) == if i == NumberOfColors - 1 then 0 else 31
  {
    var c := ColorOfOrdinal(i);
    if c != Wild {
      NonWildCountOfColorRun(c, 16, base, sortingOf, scoringOf);
    } else {
      NonWildCountOfWildRun(4, base, sortingOf, scoringOf);
    }
  }

  /** 124 of the 132 generated cards have a playable colour. */
  lemma NonWildCountOfUnoDeck(sortingOf: ValueTable, scoringOf: ValueTable)
    ensures NonWildCount(UnoDeck(sortingOf, scoringOf)) == 124
  {
    NonWildCountOfDeckPrefix(NumberOfColors, sortingOf, scoringOf);
  }

  // ---------------------------------------------------------------------
  // Picking up
  // ---------------------------------------------------------------------

  /** A seat's record and the deck after the seat picks up from a deck that
      has a card: the head goes in before the first card of the hand whose
      sorting value is not smaller; under TNT up to four cards go in at
      that same place, as many as the deck holds. */
  function PickedUp(g: GamePlayer, deck: seq<Card>, tnt: bool): (GamePlayer, seq<Card>)
    requires deck != []
  {
    var k := InsertionPoint(g.cards, deck[0].sortingValue);
    if tnt then
      var z := TntPickup(Zones(g.cards, deck), k, 4);
      (g.(cards := z.hand, cardsPickedUp := g.cardsPickedUp + Min(4, |deck|)), z.deck)
    else
      (g.(cards := g.cards[..k] + [deck[0]] + g.cards[k..], cardsPickedUp := g.cardsPickedUp + 1), deck[1..])
  }

  /** Picking up moves cards from the deck to the hand and nowhere else;
      it grows the hand and the pick-up counter by the number of cards
      taken, and touches nothing else of the seat. */
  lemma PickedUpMovesCards(g: GamePlayer, deck: seq<Card>, tnt: bool)
    requires deck != []
    ensures multiset(PickedUp(g, deck, tnt).0.cards) + multiset(PickedUp(g, deck, tnt).1)
            == multiset(g.cards) + multiset(deck)
    ensures |PickedUp(g, deck, tnt).0.cards| - |g.cards| == |deck| - |PickedUp(g, deck, tnt).1|
            == PickedUp(g, deck, tnt).0.cardsPickedUp - g.cardsPickedUp
    ensures |deck| - |PickedUp(g, deck, tnt).1| == if tnt then Min(4, |deck|) else 1
    ensures multiset(g.cards) <= multiset(PickedUp(g, deck, tnt).0.cards)
    ensures PickedUp(g, deck, tnt).0 == g.(cards := PickedUp(g, deck, tnt).0.cards,
                                           cardsPickedUp := PickedUp(g, deck, tnt).0.cardsPickedUp)
  {
    var k := InsertionPoint(g.cards, deck[0].sortingValue);
    assert g.cards == g.cards[..k] + g.cards[k..];
    if tnt {
      TntPickupKeepsCards(Zones(g.cards, deck), k, 4);
      TntPickupShape(Zones(g.cards, deck), k, 4);
    } else {
      assert deck == [deck[0]] + deck[1..];
    }
  }

  /** What a pick-up computed step by step amounts to. */
  lemma PickedUpIs(g: GamePlayer, deck: seq<Card>, tnt: bool, cards: seq<Card>, deck': seq<Card>, taken: int)
    requires deck != []
    requires tnt ==> Zones(cards, deck') == TntPickup(Zones(g.cards, deck), InsertionPoint(g.cards, deck[0].sortingValue), 4)
                     && taken == Min(4, |deck|)
    requires !tnt ==> cards == g.cards[..InsertionPoint(g.cards, deck[0].sortingValue)] + [deck[0]]
                                 + g.cards[InsertionPoint(g.cards, deck[0].sortingValue)..]
                      && deck' == deck[1..] && taken == 1
    ensures PickedUp(g, deck, tnt) == (g.(cards := cards, cardsPickedUp := g.cardsPickedUp + taken), deck')
    ensures multiset(cards) + multiset(deck') == multiset(g.cards) + multiset(deck)
    ensures |cards| > |g.cards|
  {
    PickedUpMovesCards(g, deck, tnt);
  }

  /** A single pick-up keeps a sorted hand sorted. */
  lemma PickedUpKeepsSorted(g: GamePlayer, deck: seq<Card>)
    requires deck != [] && Sorted(g.cards)
    ensures Sorted(PickedUp(g, deck, false).0.cards)
  {
    InsertAtPointKeepsSorted(g.cards, deck[0]);
  }

  /** A seat that has not finished has not finished after picking up. */
  lemma PickedUpStillPlaying(g: GamePlayer, deck: seq<Card>, tnt: bool)
    requires deck != [] && !g.Finished()
    ensures !PickedUp(g, deck, tnt).0.Finished()
  {
    PickedUpMovesCards(g, deck, tnt);
  }

  /** `after` is `before` with seat i having drawn k cards: its hand keeps
      every card it held and has k more, its pick-up counter has gone up
      by k, and nothing else of any seat has changed. */
  ghost predicate Drew(before: seq<GamePlayer>, after: seq<GamePlayer>, i: int, k: int)
  {
    0 <= i < |before| == |after|
    && after == before[i := after[i]]
    && after[i] == before[i].(cards := after[i].cards, cardsPickedUp := after[i].cardsPickedUp)
    && multiset(before[i].cards) <= multiset(after[i].cards)
    && |after[i].cards| == |before[i].cards| + k
    && after[i].cardsPickedUp == before[i].cardsPickedUp + k
  }

  /** A pick-up is seat i drawing as many cards as left the deck. */
  lemma PickedUpDraws(gps: seq<GamePlayer>, i: int, deck: seq<Card>, tnt: bool)
    requires 0 <= i < |gps| && deck != []
    ensures Drew(gps, gps[i := PickedUp(gps[i], deck, tnt).0], i, |deck| - |PickedUp(gps[i], deck, tnt).1|)
  {
    PickedUpMovesCards(gps[i], deck, tnt);
  }

  /** A seat that draws and was playing is still playing, and so is every
      other seat that was. */
  lemma DrewStillPlaying(a: seq<GamePlayer>, b: seq<GamePlayer>, i: int, k: int)
    requires Drew(a, b, i, k) && k >= 0 && !a[i].Finished()
    ensures !b[i].Finished()
    ensures SameStatuses(a, b)
  {
  }

  /** Two draws by the same seat are one draw of both counts. */
  lemma {:induction false} DrewTransitive(a: seq<GamePlayer>, b: seq<GamePlayer>, c: seq<GamePlayer>, i: int, k1: int, k2: int)
    requires Drew(a, b, i, k1) && Drew(b, c, i, k2)
    ensures Drew(a, c, i, k1 + k2)
  {
    assert c == b[i := c[i]];
    assert c[i] == a[i].(cards := c[i].cards, cardsPickedUp := c[i].cardsPickedUp);
  }

  /** One more single pick-up in a run of them: a seat that has drawn
      as many of its first i cards as could be drawn has, after one more
      attempt, drawn as many of its first i + 1. */
  lemma DrawCardsStep(gps0: seq<GamePlayer>, before: seq<GamePlayer>, after: seq<GamePlayer>, idx: int,
                      i: nat, left0: int, success: bool, d0: int, d1: int)
    requires Drew(gps0, before, idx, Min(i, left0)) && d0 == left0 - Min(i, left0)
    requires success ==> d0 > 0 && Drew(before, after, idx, 1) && d1 == d0 - 1
    requires !success ==> d0 <= 0 && after == before && d1 == d0
    ensures Drew(gps0, after, idx, Min(i + 1, left0)) && d1 == left0 - Min(i + 1, left0)
  {
    if success {
      DrewTransitive(gps0, before, after, idx, Min(i, left0), 1);
    }
  }

  /** Cards one pick-up takes while a card can be drawn: one, or under
      TNT up to four, as many as the deck holds once an empty deck has been
      refilled from all of the pile but its top card. */
  function PickupSize(deck: seq<Card>, pile: seq<Card>, tnt: bool): (k: int)
    ensures deck != [] ==> 1 <= k <= |deck|
    ensures deck == [] && |pile| >= 2 ==> 1 <= k <= |pile| - 1
  {
    if !tnt then 1 else Min(4, if deck != [] then |deck| else |pile| - 1)
  }

  /** Cards moved between the deck and one seat's hand stay in the game. */
  lemma HandsMoveFromDeck(gps: seq<GamePlayer>, i: nat, g: GamePlayer, deck: seq<Card>, deck': seq<Card>, pile: seq<Card>)
    requires i < |gps|
    requires multiset(g.cards) + multiset(deck') == multiset(gps[i].cards) + multiset(deck)
    ensures multiset(deck') + multiset(pile) + Hands(gps[i := g]) == multiset(deck) + multiset(pile) + Hands(gps)
  {
    HandsUpdate(gps, i, g);
    forall c ensures (multiset(deck') + multiset(pile) + Hands(gps[i := g]))[c] == (multiset(deck) + multiset(pile) + Hands(gps))[c] {
      assert (Hands(gps[i := g]) + multiset(gps[i].cards))[c] == (Hands(gps) + multiset(g.cards))[c];
      assert (multiset(g.cards) + multiset(deck'))[c] == (multiset(gps[i].cards) + multiset(deck))[c];
    }
  }

  /** One step of passing hands round: seat i takes seat j's hand. With
      `held` kept aside, what is missing from the table is now seat j's
      hand instead of seat i's. */
  lemma PassHandStep(gps: seq<GamePlayer>, gps0: seq<GamePlayer>, held: seq<Card>, i: nat, j: nat)
    requires i < |gps| && j < |gps| && i != j
    requires Hands(gps) + multiset(held) == Hands(gps0) + multiset(gps[i].cards)
    ensures Hands(gps[i := gps[i].(cards := gps[j].cards)]) + multiset(held)
            == Hands(gps0) + multiset(gps[j].cards)
  {
    var g := gps[i].(cards := gps[j].cards);
    HandsUpdate(gps, i, g);
    forall c ensures (Hands(gps[i := g]) + multiset(held))[c] == (Hands(gps0) + multiset(gps[j].cards))[c] {
      assert (Hands(gps[i := g]) + multiset(gps[i].cards))[c] == (Hands(gps) + multiset(g.cards))[c];
      assert (Hands(gps) + multiset(held))[c] == (Hands(gps0) + multiset(gps[i].cards))[c];
    }
  }

  /** The last step of passing hands round: seat i takes the hand kept
      aside, and the table holds every card again. */
  lemma PassHandLast(gps: seq<GamePlayer>, gps0: seq<GamePlayer>, held: seq<Card>, i: nat)
    requires i < |gps|
    requires Hands(gps) + multiset(held) == Hands(gps0) + multiset(gps[i].cards)
    ensures Hands(gps[i := gps[i].(cards := held)]) == Hands(gps0)
  {
    var g := gps[i].(cards := held);
    HandsUpdate(gps, i, g);
    forall c ensures Hands(gps[i := g])[c] == Hands(gps0)[c] {
      assert (Hands(gps[i := g]) + multiset(gps[i].cards))[c] == (Hands(gps) + multiset(g.cards))[c];
      assert (Hands(gps) + multiset(held))[c] == (Hands(gps0) + multiset(gps[i].cards))[c];
    }
  }

  /** What holds while hands are passed round, `i` steps in, the visit at
      seat `index`, `held` being seat 0's hand as it was, and `done` once
      the last seat has taken it. Until then the cards missing from the
      table are the hand at `index`, which is still to be replaced. */
  ghost predicate Passing(gps0: seq<GamePlayer>, gps: seq<GamePlayer>, held: seq<Card>, index: int, i: int, done: bool)
  {
    |gps| == |gps0| && 0 <= index < |gps0| && 0 <= i <= |gps0|
    && (forall s :: 0 <= s < |gps0| ==> gps[s] == gps0[s].(cards := gps[s].cards))
    && held == gps0[0].cards
    && (i == 0 ==> index == 0 && gps == gps0 && !done)
    && (i > 0 && !done ==> !gps[index].Finished() && i < CountPlaying(gps))
    && (!done ==> Hands(gps) + multiset(held) == Hands(gps0) + multiset(gps[index].cards))
    && (done ==> Hands(gps) == Hands(gps0) && i >= CountPlaying(gps))
  }

  /** A visited seat that is not the last takes the next seat's hand;
      the next seat to visit is the one whose hand was taken. */
  lemma PassingStep(gps0: seq<GamePlayer>, gps: seq<GamePlayer>, held: seq<Card>, index: int, i: int, up: bool)
    requires Passing(gps0, gps, held, index, i, false) && i < CountPlaying(gps) - 1
    ensures var from := NextPlaying(gps, index, up);
            var gps' := gps[index := gps[index].(cards := gps[from].cards)];
            CountPlaying(gps') > 0
            && NextPlaying(gps', index, up) == from
            && Passing(gps0, gps', held, from, i + 1, false)
  {
    var from := NextPlaying(gps, index, up);
    var g := gps[index].(cards := gps[from].cards);
    var gps' := gps[index := g];
    NextPlayingNotSelf(gps, index, up);
    PassHandStep(gps, gps0, held, index, from);
    CountPlayingUpdate(gps, index, g);
    FirstPlayingIgnoresStart(gps, gps', index, up, 1);
    assert gps'[from] == gps[from];
  }

  /** The last visited seat takes seat 0's hand, and the visit ends. */
  lemma PassingLast(gps0: seq<GamePlayer>, gps: seq<GamePlayer>, held: seq<Card>, index: int, i: int)
    requires Passing(gps0, gps, held, index, i, false) && i == CountPlaying(gps) - 1
    ensures var gps' := gps[index := gps[index].(cards := held)];
            CountPlaying(gps') > 0 && Passing(gps0, gps', held, index, i + 1, true)
  {
    var g := gps[index].(cards := held);
    PassHandLast(gps, gps0, held, index);
    CountPlayingUpdate(gps, index, g);
    if i == 0 {
      assert gps[index := g] == gps;
    }
  }

  /** A card played from seat i's hand moves onto the pile and stays in
      the game. */
  lemma HandsMoveToPile(gps: seq<GamePlayer>, i: nat, card: Card, deck: seq<Card>, pile: seq<Card>)
    requires i < |gps| && card in gps[i].cards
    ensures multiset(deck) + multiset(pile + [card]) + Hands(gps[i := gps[i].(cards := RemoveFirst(gps[i].cards, card))])
            == multiset(deck) + multiset(pile) + Hands(gps)
  {
    var g := gps[i].(cards := RemoveFirst(gps[i].cards, card));
    HandsUpdate(gps, i, g);
    forall c ensures (multiset(deck) + multiset(pile + [card]) + Hands(gps[i := g]))[c]
                     == (multiset(deck) + multiset(pile) + Hands(gps))[c] {
      assert (Hands(gps[i := g]) + multiset(gps[i].cards))[c] == (Hands(gps) + multiset(g.cards))[c];
      assert multiset(gps[i].cards)[c] == (multiset(g.cards) + multiset{card})[c];
    }
  }

  /** Reordering one seat's hand keeps every card. */
  lemma HandsPermuteSeat(gps: seq<GamePlayer>, i: nat, cards: seq<Card>)
    requires i < |gps| && multiset(cards) == multiset(gps[i].cards)
    ensures Hands(gps[i := gps[i].(cards := cards)]) == Hands(gps)
  {
    var g := gps[i].(cards := cards);
    HandsUpdate(gps, i, g);
    forall c ensures Hands(gps[i := g])[c] == Hands(gps)[c] {
      assert (Hands(gps[i := g]) + multiset(gps[i].cards))[c] == (Hands(gps) + multiset(g.cards))[c];
    }
  }

  /** Cards each player is dealt: the option's value, or none when it is
      not positive. */
  function HandSize(cardsForEachPlayer: int): (k: nat)
    ensures k == 0 || k == cardsForEachPlayer
    ensures cardsForEachPlayer > 0 <==> k > 0
  {
    if cardsForEachPlayer > 0 then cardsForEachPlayer else 0
  }

  /** After dealing at most 123 cards of a full deck, a card that is not
      a Wild is left. */
  lemma NonWildLeftAfterDeal(deck: seq<Card>, m: nat)
    requires |deck| == 132 && NonWildCount(deck) == 124 && m <= 123
    ensures m < |deck| && NonWildCount(deck[m..]) > 0
  {
    assert deck == deck[..m] + deck[m..];
    SumOfAppend(deck[..m], deck[m..], NonWildWeight);
    NonWildCountBounds(deck[..m]);
  }

  /** A full deck in any order has 132 cards, 124 of them not Wild. */
  lemma FullDeckNonWild(deck: seq<Card>, sortingOf: ValueTable, scoringOf: ValueTable)
    requires multiset(deck) == multiset(UnoDeck(sortingOf, scoringOf))
    ensures |deck| == 132 && NonWildCount(deck) == 124
  {
    NonWildCountOfUnoDeck(sortingOf, scoringOf);
    SumOfPermutation(deck, UnoDeck(sortingOf, scoringOf), NonWildWeight);
    UnoDeckContents(sortingOf, scoringOf, Red, Skip);
    assert |deck| == |multiset(deck)| == |multiset(UnoDeck(sortingOf, scoringOf))| == 132;
  }

  /** Seats with empty hands hold no cards. */
  lemma {:induction false} EmptyHands(gps: seq<GamePlayer>)
    requires forall s :: 0 <= s < |gps| ==> gps[s].cards == []
    ensures Hands(gps) == multiset{}
  {
    if gps != [] {
      EmptyHands(gps[1..]);
    }
  }

  /** The seats once `card` has left seat i's hand: one copy of it fewer
      there, if it was held, and every other seat as it was. */
  function Discarded(gps: seq<GamePlayer>, i: int, card: Card): (r: seq<GamePlayer>)
    requires 0 <= i < |gps|
    ensures |r| == |gps| && r[i] == gps[i].(cards := r[i].cards)
    ensures forall s :: 0 <= s < |gps| && s != i ==> r[s] == gps[s]
    ensures card in gps[i].cards ==> multiset(r[i].cards) == multiset(gps[i].cards) - multiset{card}
  {
    gps[i := gps[i].(cards := RemoveFirst(gps[i].cards, card))]
  }

  /** Cards a face adds to the pending draw. */
  function DrawOf(face: Face): (k: nat)
    ensures k > 0 <==> face.Draw2? || face.Draw4?
    ensures k <= 4
  {
    if face.Draw2? then 2 else if face.Draw4? then 4 else 0
  }

  /** A face whose action leaves the seats, the deck, the pile and the
      current seat alone: all but RandomDraw and the enabled hand swaps on
      a 0 or a 7. */
  predicate QuietFace(face: Face, options: GameOptions)
  {
    !face.RandomDraw? && !(face == Number(0) && options.swapHandsWith0)
    && !(face == Number(7) && options.swapHandsWith7)
  }

  /** Seat i's record with one more turn. */
  function TurnTaken(gps: seq<GamePlayer>, i: int): (r: seq<GamePlayer>)
    requires 0 <= i < |gps|
  {
    gps[i := gps[i].(turns := gps[i].turns + 1)]
  }

  /** The seats once seat i has played a card: one more card played and,
      if it has now finished, the last finishing place handed out. */
  function PlayRecorded(gps: seq<GamePlayer>, i: int): (r: seq<GamePlayer>)
    requires 0 <= i < |gps|
  {
    gps[i := SeatRecorded(gps[i], CountFinished(gps))]
  }

  /** A seat's record once it has played a card, with `finished` seats
      finished in all. */
  function SeatRecorded(g: GamePlayer, finished: nat): GamePlayer
  {
    g.(cardsPlayed := g.cardsPlayed + 1, finishRank := if g.Finished() then finished - 1 else g.finishRank)
  }

  /** Recording a play keeps every hand and every seat's status, and a
      finished player's place is one of those handed out so far. */
  lemma PlayRecordedKeeps(gps: seq<GamePlayer>, i: int)
    requires 0 <= i < |gps|
    ensures Hands(PlayRecorded(gps, i)) == Hands(gps)
    ensures SameStatuses(gps, PlayRecorded(gps, i))
    ensures gps[i].Finished() ==> 0 <= PlayRecorded(gps, i)[i].finishRank < CountFinished(gps)
    ensures gps[i].Finished() ==> PlayRecorded(gps, i)[i].finishRank == CountFinished(gps) - 1
  {
    var r := PlayRecorded(gps, i)[i];
    assert PlayRecorded(gps, i) == gps[i := r];
    if gps[i].Finished() {
      FinishedSeatCounted(gps, i);
    }
    assert r.Finished() == gps[i].Finished();
    HandsSameCards(gps, i, r);
  }

  /** Seat by seat, the same seats have finished. */
  ghost predicate SameStatuses(a: seq<GamePlayer>, b: seq<GamePlayer>)
  {
    |a| == |b| && forall i :: 0 <= i < |a| ==> a[i].Finished() == b[i].Finished()
  }

  lemma SameStatusesTransitive(a: seq<GamePlayer>, b: seq<GamePlayer>, c: seq<GamePlayer>)
    requires SameStatuses(a, b) && SameStatuses(b, c)
    ensures SameStatuses(a, c)
  {
  }

  /** Seats with the same statuses give the same counts. */
  lemma {:induction false} SameStatusesCounts(a: seq<GamePlayer>, b: seq<GamePlayer>)
    requires SameStatuses(a, b)
    ensures CountPlaying(a) == CountPlaying(b) && CountFinished(a) == CountFinished(b)
    ensures AllFinished(a) == AllFinished(b)
    decreases |a|
  {
    if a != [] {
      SameStatusesCounts(a[1..], b[1..]);
      assert a[0].Finished() == b[0].Finished();
      NonePlayingIffAllFinished(a);
      NonePlayingIffAllFinished(b);
    }
  }

  /** The search for the next playing seat looks at nothing but the
      seats' statuses. */
  lemma {:induction false} FirstPlayingSameStatuses(a: seq<GamePlayer>, b: seq<GamePlayer>, i: int, up: bool, d: nat)
    requires SameStatuses(a, b) && 0 <= i < |a| && 1 <= d
    ensures FirstPlaying(a, i, up, d) == FirstPlaying(b, i, up, d)
    decreases |a| + 1 - d
  {
    if d <= |a| && a[SeatAfter(i, d, |a|, up)].Finished() {
      FirstPlayingSameStatuses(a, b, i, up, d + 1);
    }
  }

  /** Seats with the same statuses have the same next playing seat. */
  lemma NextPlayingSameStatuses(a: seq<GamePlayer>, b: seq<GamePlayer>, i: int, up: bool)
    requires SameStatuses(a, b) && 0 <= i < |a| && CountPlaying(a) > 0
    ensures CountPlaying(b) > 0 && NextPlaying(a, i, up) == NextPlaying(b, i, up)
  {
    SameStatusesCounts(a, b);
    FirstPlayingSameStatuses(a, b, i, up, 1);
  }

  /** The seat the turn settles on once it reaches seat j: j itself while
      that player still plays, otherwise the next seat that does. */
  function Landing(gps: seq<GamePlayer>, j: int, up: bool): (r: int)
    requires 0 <= j < |gps| && CountPlaying(gps) > 0
    ensures 0 <= r < |gps| && !gps[r].Finished()
  {
    if gps[j].Finished() then NextPlaying(gps, j, up) else j
  }

  /** One step from seat i settles on the next playing seat after i; when
      the step lands on a finished seat, that seat is nearer to it. */
  lemma LandingAfterStep(gps: seq<GamePlayer>, i: int, up: bool)
    requires 0 <= i < |gps| && CountPlaying(gps) > 0
    ensures Landing(gps, NextSeat(i, |gps|, up), up) == NextPlaying(gps, i, up)
    ensures gps[NextSeat(i, |gps|, up)].Finished() ==>
              Distance(gps, NextSeat(i, |gps|, up), up) < Distance(gps, i, up)
  {
    if gps[NextSeat(i, |gps|, up)].Finished() {
      NextPlayingPastFinished(gps, i, up);
    } else {
      assert SeatAfter(i, 1, |gps|, up) == NextSeat(i, |gps|, up);
    }
  }

  /** Seats `gps` with the turn at seat `idx` are seats `gps0` once play
      moved on quietly from seat i in direction `up`: the turn went to the
      next seat still playing and only its turn counter moved, unless the
      round was over, in which case nothing moved. */
  ghost predicate Passed(options: GameOptions, up: bool, i: int, gps0: seq<GamePlayer>, idx: int, gps: seq<GamePlayer>)
  {
    0 <= i < |gps0|
    && if RoundFinished(options, gps0) then idx == i && gps == gps0
       else idx == NextPlaying(gps0, i, up) && gps == TurnTaken(gps0, idx)
  }

  /** Once seat i, still playing in a round that is not over, has drawn,
      play passing on from it reaches the seat that was next before the
      draw. */
  lemma DrewThenPassed(options: GameOptions, up: bool, gps0: seq<GamePlayer>, drawn: seq<GamePlayer>, i: int, k: int,
                       idx: int, gps: seq<GamePlayer>)
    requires Drew(gps0, drawn, i, k) && k >= 0 && !gps0[i].Finished() && !RoundFinished(options, gps0)
    requires Passed(options, up, i, drawn, idx, gps)
    ensures idx == NextPlaying(gps0, i, up) && gps == TurnTaken(drawn, idx)
  {
    DrewStillPlaying(gps0, drawn, i, k);
    SameStatusesCounts(gps0, drawn);
    NextPlayingSameStatuses(gps0, drawn, i, up);
  }

  /** What moving the turn on looks at and changes: the current seat, the
      seats, the deck, the pile, the TNT flag, and the pending Skip and
      draw. */
  datatype Turn = Turn(idx: int, gps: seq<GamePlayer>, deck: seq<Card>, pile: seq<Card>,
                       tnt: bool, skip: bool, pending: int)

  /** Cards a player owes with `pending` cards to draw: those, and four
      more under TNT. */
  function Owed(pending: int, tnt: bool): int
  {
    pending + (if tnt then 4 else 0)
  }

  /** Cards still to be drawn from `deck` and `pile`: the whole deck and,
      once it is refilled, every card of the pile but the one in play. */
  function Drawable(deck: seq<Card>, pile: seq<Card>): int
  {
    |deck| + |pile| - 1
  }

  /** In `t` the turn went quietly to seat `next` of seats `gps0`: only
      its turn counter moved, and the deck, the pile and the TNT flag are
      `deck0`, `pile0` and `tnt0`. */
  ghost predicate GivenTo(t: Turn, next: int, gps0: seq<GamePlayer>, deck0: seq<Card>, pile0: seq<Card>, tnt0: bool)
  {
    0 <= next < |gps0| && t.idx == next && t.gps == TurnTaken(gps0, next)
    && t.deck == deck0 && t.pile == pile0 && t.tnt == tnt0
  }

  /** In `t` seat j of seats `gps0` has lost its turn, which went on to
      the next seat still playing in direction `up`; that seat's turn
      counter went up twice, once as the turn reached it and once as the
      skipped player's turn ended. `gps1` is the seats once the skipped
      player's penalty was carried out; nothing else moved since. */
  ghost predicate SkippedOver(t: Turn, up: bool, j: int, gps0: seq<GamePlayer>, gps1: seq<GamePlayer>,
                              deck0: seq<Card>, pile0: seq<Card>, tnt0: bool)
  {
    0 <= j < |gps0| == |gps1| && CountPlaying(gps0) > 0
    && var next := NextPlaying(gps0, j, up);
       GivenTo(t, next, TurnTaken(gps1, next), deck0, pile0, tnt0)
  }

  /** In `t` the current player of `t0` has suffered the actions pending
      in `t0`. A Skip passes play on from them. Pending cards, four more
      under TNT, are drawn while more than one player is left, as many as
      can still be drawn, `drawn` being the seats then, and play passes on
      from them too. Nothing is pending afterwards.
      A Skip with cards pending is left unconstrained: no single card both
      skips and makes the next player draw, and both are cleared once
      handled, so the two are never pending together. Were they, the Skip
      would pass play on and the seat after would draw. */
  ghost predicate Handled(t: Turn, options: GameOptions, up: bool, t0: Turn, drawn: seq<GamePlayer>)
  {
    (t0.skip && t0.pending == 0 ==>
       Passed(options, up, t0.idx, t0.gps, t.idx, t.gps)
       && t.deck == t0.deck && t.pile == t0.pile && t.tnt == t0.tnt && t.pending == 0 && !t.skip)
    && (!t0.skip && t0.pending > 0 && CountPlaying(t0.gps) > 1 ==>
          var k := Min(Owed(t0.pending, t0.tnt), Drawable(t0.deck, t0.pile));
          t.pending == 0 && !t.skip && !t.tnt && Drawable(t.deck, t.pile) == Drawable(t0.deck, t0.pile) - k
          && Drew(t0.gps, drawn, t0.idx, k) && Passed(options, up, t0.idx, drawn, t.idx, t.gps))
  }

  /** In `t` the turn has reached seat `at` of `t0`'s seats, which then
      suffered the actions pending in `t0`. With nothing pending it has
      the turn. A Skip makes it lose the turn to the next seat still
      playing in direction `up`. Pending cards, four more under TNT, are
      drawn while more than one player is left, as many as can still be
      drawn, `drawn` being the seats then, and the turn moves on as after
      a Skip; with one player left they stay pending and the seat has the
      turn. As in `Handled`, a Skip with cards pending, which no play
      leaves behind, is left unconstrained. */
  ghost predicate Reached(t: Turn, up: bool, at: int, t0: Turn, drawn: seq<GamePlayer>)
  {
    (!t0.skip && (t0.pending == 0 || CountPlaying(t0.gps) <= 1) ==>
       GivenTo(t, at, t0.gps, t0.deck, t0.pile, t0.tnt) && t.pending == t0.pending && !t.skip)
    && (t0.skip && t0.pending == 0 ==>
          SkippedOver(t, up, at, t0.gps, t0.gps, t0.deck, t0.pile, t0.tnt) && t.pending == 0 && !t.skip)
    && (!t0.skip && t0.pending > 0 && CountPlaying(t0.gps) > 1 ==>
          var k := Min(Owed(t0.pending, t0.tnt), Drawable(t0.deck, t0.pile));
          t.pending == 0 && !t.skip && Drawable(t.deck, t.pile) == Drawable(t0.deck, t0.pile) - k
          && Drew(t0.gps, drawn, at, k) && SkippedOver(t, up, at, t0.gps, drawn, t.deck, t.pile, false))
  }

  /** Once the actions pending at a playing seat are handled in a round
      that is not over, and the next turn is set up, the turn has reached
      that seat. `t1` is the state in between. */
  lemma HandledThenSetUp(options: GameOptions, up: bool, t0: Turn, t1: Turn, t: Turn, drawn: seq<GamePlayer>)
    requires 0 <= t0.idx < |t0.gps| && !t0.gps[t0.idx].Finished() && !RoundFinished(options, t0.gps)
    requires t0.pile != [] && t0.pending >= 0
    requires !t0.skip && (t0.pending == 0 || CountPlaying(t0.gps) <= 1) ==> t1 == t0
    requires Handled(t1, options, up, t0, drawn)
    requires 0 <= t1.idx < |t1.gps| && t == t1.(gps := TurnTaken(t1.gps, t1.idx))
    ensures Reached(t, up, t0.idx, t0, drawn)
  {
    if !t0.skip && t0.pending > 0 && CountPlaying(t0.gps) > 1 {
      DrewThenPassed(options, up, t0.gps, drawn, t0.idx, Min(Owed(t0.pending, t0.tnt), Drawable(t0.deck, t0.pile)), t1.idx, t1.gps);
    }
  }

  /** Where the turn set out from plays no part once it has reached a
      seat. */
  lemma ReachedFromAnySeat(t: Turn, up: bool, at: int, t0: Turn, drawn: seq<GamePlayer>, j: int)
    requires Reached(t, up, at, t0.(idx := j), drawn)
    ensures Reached(t, up, at, t0, drawn)
  {
  }

  /** The state once the current seat of `t` has played `card` with a
      quiet face: the card leaves that hand for the top of the pile, the
      seat is credited with the play (and ranked if now out), and the
      face's Skip, TNT or draw is added to what is pending. */
  function Played(t: Turn, card: Card): (r: Turn)
    requires 0 <= t.idx < |t.gps|
    ensures r.idx == t.idx && |r.gps| == |t.gps| && r.deck == t.deck && r.pile == t.pile + [card]
    ensures card in t.gps[t.idx].cards ==>
              multiset(r.gps[t.idx].cards) == multiset(t.gps[t.idx].cards) - multiset{card}
    ensures r.gps[t.idx].cardsPlayed == t.gps[t.idx].cardsPlayed + 1
    ensures r.gps[t.idx].Finished() ==> 0 <= r.gps[t.idx].finishRank < CountFinished(r.gps)
    ensures r.gps[t.idx].Finished() ==> r.gps[t.idx].finishRank == CountFinished(r.gps) - 1
    ensures forall s :: 0 <= s < |t.gps| && s != t.idx ==> r.gps[s] == t.gps[s]
    ensures r.pending == t.pending + DrawOf(card.face)
    ensures r.skip == (t.skip || card.face.Skip?) && r.tnt == (t.tnt || card.face.TNT?)
  {
    var gps := Discarded(t.gps, t.idx, card);
    PlayRecordedKeeps(gps, t.idx);
    SameStatusesCounts(gps, PlayRecorded(gps, t.idx));
    Turn(t.idx, PlayRecorded(gps, t.idx), t.deck, t.pile + [card],
         t.tnt || card.face.TNT?, t.skip || card.face.Skip?, t.pending + DrawOf(card.face))
  }

  /** A seat that was still playing and goes out with this card takes the
      place after every seat that had finished before it. */
  lemma PlayedRank(t: Turn, card: Card)
    requires 0 <= t.idx < |t.gps| && !t.gps[t.idx].Finished()
    ensures Played(t, card).gps[t.idx].Finished() ==>
              Played(t, card).gps[t.idx].finishRank == CountFinished(t.gps)
  {
    var gps := Discarded(t.gps, t.idx, card);
    if gps[t.idx].Finished() {
      CountPlayingUpdate(t.gps, t.idx, gps[t.idx]);
      assert t.gps[t.idx := gps[t.idx]] == gps;
      FinishedPlusPlaying(t.gps);
      FinishedPlusPlaying(gps);
      assert CountFinished(gps) == CountFinished(t.gps) + 1;
    }
  }

  /** Discarding the card, carrying out a quiet face's action and
      recording the play, one after the other, give `Played`. */
  lemma PlayedIs(t0: Turn, card: Card, t: Turn)
    requires 0 <= t0.idx < |t0.gps|
    requires t.idx == t0.idx && t.gps == PlayRecorded(Discarded(t0.gps, t0.idx, card), t0.idx)
    requires t.deck == t0.deck && t.pile == t0.pile + [card] && t.pending == t0.pending + DrawOf(card.face)
    requires t.skip == (t0.skip || card.face.Skip?) && t.tnt == (t0.tnt || card.face.TNT?)
    ensures t == Played(t0, card)
  {
  }

  /** The current seat of `t0` picked up: if no card is left to draw
      nothing changes; otherwise the seat drew `PickupSize` cards (four
      under TNT, which is then spent) and nothing else is pending any
      differently. */
  ghost predicate PickedUpFrom(t: Turn, t0: Turn)
  {
    (t0.deck == [] && |t0.pile| < 2 ==> t == t0)
    && (t0.deck != [] || |t0.pile| >= 2 ==>
          t.idx == t0.idx && t.pending == t0.pending && t.skip == t0.skip && !t.tnt
          && Drew(t0.gps, t.gps, t.idx, PickupSize(t0.deck, t0.pile, t0.tnt))
          && Drawable(t.deck, t.pile) == Drawable(t0.deck, t0.pile) - PickupSize(t0.deck, t0.pile, t0.tnt))
  }

  /** How the turn moved on from `t0`, with `skipAll` the SkipAll flag
      then: nothing moves once the round is over; otherwise a SkipAll
      gives the turn back to the seat that played it (or on, if that seat
      is out), and anything else gives it to the next seat still
      playing. */
  ghost predicate MovedOn(t: Turn, options: GameOptions, up: bool, t0: Turn, skipAll: bool, drawn: seq<GamePlayer>)
    requires 0 <= t0.idx < |t0.gps|
  {
    (RoundFinished(options, t0.gps) ==> t == t0)
    && (!RoundFinished(options, t0.gps) && !skipAll ==> Reached(t, up, NextPlaying(t0.gps, t0.idx, up), t0, drawn))
    && (!RoundFinished(options, t0.gps) && skipAll ==> Reached(t, up, Landing(t0.gps, t0.idx, up), t0, drawn))
  }

  /** The seats once seats i and j have exchanged hands; nothing else
      about any seat changes and no card is lost or made. */
  function Swapped(gps: seq<GamePlayer>, i: int, j: int): (r: seq<GamePlayer>)
    requires 0 <= i < |gps| && 0 <= j < |gps|
    ensures |r| == |gps| && r[i].cards == gps[j].cards && r[j].cards == gps[i].cards
    ensures forall s :: 0 <= s < |gps| ==> r[s] == gps[s].(cards := r[s].cards)
    ensures forall s :: 0 <= s < |gps| && s != i && s != j ==> r[s] == gps[s]
    ensures Hands(r) == Hands(gps)
  {
    HandsSwap(gps, j, i);
    gps[j := gps[j].(cards := gps[i].cards)][i := gps[i].(cards := gps[j].cards)]
  }

  /** Seat h is the one a computer swaps hands with on a seven: a seat
      whose player is not called `name`, holding the fewest cards of all
      such seats, and the first of them to do so. */
  ghost predicate IsSevenTarget(players: seq<Player>, gps: seq<GamePlayer>, name: string, h: int)
  {
    0 <= h < |players| <= |gps| && players[h].name != name
    && (forall j :: 0 <= j < |players| && players[j].name != name ==> |gps[h].cards| <= |gps[j].cards|)
    && (forall j :: 0 <= j < h && players[j].name != name ==> |gps[h].cards| < |gps[j].cards|)
  }

  /** There is at most one such seat. */
  lemma SevenTargetUnique(players: seq<Player>, gps: seq<GamePlayer>, name: string, h1: int, h2: int)
    requires IsSevenTarget(players, gps, name, h1) && IsSevenTarget(players, gps, name, h2)
    ensures h1 == h2
  {
  }

  // ---------------------------------------------------------------------
  // Scoring
  // ---------------------------------------------------------------------

  /** A hand sorted in an array of its own: the insertion sort of the
      hand, so sorted and holding the same cards. */
  method SortedHand(hand: seq<Card>) returns (sorted: seq<Card>)
    ensures sorted == InsertionSort(hand)
    ensures Sorted(sorted) && multiset(sorted) == multiset(hand)
  {
    var cards := new Card[|hand|](i requires 0 <= i < |hand| => hand[i]);
    assert cards[..] == hand;
    SortCards(cards);
    InsertionSortCorrect(hand);
    sorted := cards[..];
  }

  /** Official score of a hand: the sum of its cards' scoring values. */
  method CalculateUnoScoreForHand(hand: seq<Card>) returns (score: int)
    ensures score == HandScore(hand)
  {
    score := 0;
    for i := 0 to |hand|
      invariant score == HandScore(hand[..i])
    {
      assert hand[..i + 1][..i] == hand[..i];
      score := score + hand[i].scoringValue;
    }
    assert hand[..|hand|] == hand;
  }

  /** Where a picked-up card goes, found by scanning the hand from the
      left past the cards with a smaller sorting value. */
  method FindInsertionIndex(cards: seq<Card>, card: Card) returns (index: nat)
    ensures index == InsertionPoint(cards, card.sortingValue)
  {
    index := 0;
    while index < |cards| && cards[index].sortingValue < card.sortingValue
      invariant 0 <= index <= |cards|
      invariant forall j :: 0 <= j < index ==> cards[j].sortingValue < card.sortingValue
    {
      index := index + 1;
    }
    InsertionPointCharacterised(cards, card.sortingValue, index);
  }

  /** The TNT pick-up: up to four times, while the deck has a card, its
      head goes into the hand at `index`. */
  method InsertFour(hand: seq<Card>, deck: seq<Card>, index: nat) returns (hand': seq<Card>, deck': seq<Card>, taken: nat)
    requires index <= |hand|
    ensures Zones(hand', deck') == TntPickup(Zones(hand, deck), index, 4)
    ensures taken == Min(4, |deck|)
  {
    hand', deck', taken := hand, deck, 0;
    while taken < 4 && deck' != []
      invariant 0 <= taken <= 4 && index <= |hand'|
      invariant TntPickup(Zones(hand', deck'), index, 4 - taken) == TntPickup(Zones(hand, deck), index, 4)
      invariant taken + |deck'| == |deck|
    {
      hand' := hand'[..index] + [deck'[0]] + hand'[index..];
      deck' := deck'[1..];
      taken := taken + 1;
    }
  }

  /** Sort a copy of the cards and take the last one: a card with the
      greatest sorting value and, the sort being stable, the last such
      card in the given order. */
  method LastAfterSorting(cards: seq<Card>) returns (selected: Card)
    requires cards != []
    ensures |InsertionSort(cards)| == |cards| && selected == InsertionSort(cards)[|cards| - 1]
    ensures selected in cards
    ensures forall c :: c in cards ==> c.sortingValue <= selected.sortingValue
  {
    var sorted := new Card[|cards|](i requires 0 <= i < |cards| => cards[i]);
    assert sorted[..] == cards;
    SortCards(sorted);
    ghost var s := sorted[..];
    InsertionSortCorrect(cards);
    assert |s| == |multiset(s)| == |cards|;
    SortedLastIsGreatest(s);
    selected := sorted[sorted.Length - 1];
    assert selected == s[|s| - 1] && selected in multiset(s);
    forall c | c in cards ensures c.sortingValue <= selected.sortingValue {
      assert c in multiset(cards);
      assert c in s;
    }
  }

  /** The cards a computer chooses among: the smart candidates, or every
      playable card for a basic player. */
  function ComputerCandidates(t: Table, cards: seq<Card>, smart: bool): seq<Card>
  {
    if smart then SmartCandidates(t, cards) else Candidates(t, cards, AnyPlayable)
  }

  /** The card a computer plays from its candidates: for a smart player
      the last one once they are sorted, for a basic one the candidate at
      the random index the next value of `stream` gives. Either way it is
      one of the candidates. */
  function ComputerPick(playable: seq<Card>, smart: bool, stream: seq<nat>): (c: Card)
    requires playable != []
    ensures c in playable
  {
    InsertionSortCorrect(playable);
    assert |InsertionSort(playable)| == |multiset(InsertionSort(playable))| == |playable|;
    if smart then
      assert InsertionSort(playable)[|playable| - 1] in multiset(InsertionSort(playable));
      InsertionSort(playable)[|playable| - 1]
    else
      playable[NextIn(stream, 0, |playable|)]
  }

  /** Position in the deck of the j-th card dealt to seat t when n seats
      are dealt to in turn. */
  function DealSlot(j: nat, n: nat, t: nat): (p: nat)
    ensures p >= t
  {
    if j == 0 then t else DealSlot(j - 1, n, t) + n
  }

  lemma {:induction false} DealSlotIsLinear(j: nat, n: nat, t: nat)
    ensures DealSlot(j, n, t) == j * n + t
  {
    if j > 0 {
      DealSlotIsLinear(j - 1, n, t);
      assert j * n == (j - 1) * n + n;
    }
  }

  lemma {:induction false} DealSlotShift(j: nat, n: nat, t: nat)
    ensures DealSlot(j, n, t) == DealSlot(j, n, 0) + t
  {
    if j > 0 {
      DealSlotShift(j - 1, n, t);
    }
  }

  lemma {:induction false} DealSlotMonotonic(j: nat, k: nat, n: nat)
    requires j <= k
    ensures DealSlot(j, n, 0) <= DealSlot(k, n, 0)
    decreases k - j
  {
    if j < k {
      DealSlotMonotonic(j + 1, k, n);
    }
  }

  /** Cards a deal of k cards to each of n seats takes from the deck:
      n times the hand size. */
  function CardsDealt(n: nat, k: int): nat
  {
    DealSlot(HandSize(k), n, 0)
  }

  lemma CardsDealtIsProduct(n: nat, k: int)
    ensures CardsDealt(n, k) == n * HandSize(k)
  {
    DealSlotIsLinear(HandSize(k), n, 0);
  }

  /** Seats holding the first `round` cards of their deal, and seats
      before s one more: seat t's j-th card is the deck's card j * n + t. */
  ghost predicate DealtSoFar(gps0: seq<GamePlayer>, gps: seq<GamePlayer>, deck0: seq<Card>, round: nat, s: nat)
  {
    |gps| == |gps0| && s <= |gps|
    && (forall t :: 0 <= t < |gps| ==>
          gps[t] == gps0[t].(cards := gps[t].cards) && |gps[t].cards| == if t < s then round + 1 else round)
    && (forall t, j :: 0 <= t < |gps| && 0 <= j < |gps[t].cards| ==>
          DealSlot(j, |gps|, t) < |deck0| && gps[t].cards[j] == deck0[DealSlot(j, |gps|, t)])
  }

  /** Seat s taking the head of the rest of the deck keeps the deal
      pattern and leaves the deck starting at the next position. */
  lemma DealTurnKeeps(gps0: seq<GamePlayer>, gps: seq<GamePlayer>, deck0: seq<Card>, deck: seq<Card>, round: nat, s: nat)
    requires DealtSoFar(gps0, gps, deck0, round, s) && s < |gps|
    requires DealSlot(round + 1, |gps|, 0) <= |deck0|
    requires deck == deck0[DealSlot(round, |gps|, 0) + s..]
    ensures deck != [] && deck[1..] == deck0[DealSlot(round, |gps|, 0) + s + 1..]
    ensures DealtSoFar(gps0, gps[s := gps[s].(cards := gps[s].cards + [deck[0]])], deck0, round, s + 1)
  {
    var n := |gps|;
    DealSlotShift(round, n, s);
    var gps' := gps[s := gps[s].(cards := gps[s].cards + [deck[0]])];
    forall t, j | 0 <= t < n && 0 <= j < |gps'[t].cards|
      ensures DealSlot(j, n, t) < |deck0| && gps'[t].cards[j] == deck0[DealSlot(j, n, t)]
    {
      if t != s {
        assert gps'[t] == gps[t];
      } else if j < round {
        assert gps'[t].cards[j] == gps[t].cards[j];
      }
    }
  }

  /** A round in which every seat has taken its card is the start of the
      next one. */
  lemma DealRoundDone(gps0: seq<GamePlayer>, gps: seq<GamePlayer>, deck0: seq<Card>, round: nat)
    requires DealtSoFar(gps0, gps, deck0, round, |gps|)
    ensures DealtSoFar(gps0, gps, deck0, round + 1, 0)
  {
  }

  /** Seat s taking the head of the deck moves one card and loses none. */
  lemma HandTakesHead(gps: seq<GamePlayer>, s: nat, deck: seq<Card>)
    requires s < |gps| && deck != []
    ensures Hands(gps[s := gps[s].(cards := gps[s].cards + [deck[0]])]) + multiset(deck[1..]) == Hands(gps) + multiset(deck)
  {
    var g := gps[s].(cards := gps[s].cards + [deck[0]]);
    assert deck == [deck[0]] + deck[1..];
    assert multiset(g.cards) == multiset(gps[s].cards) + multiset{deck[0]};
    assert multiset(deck) == multiset{deck[0]} + multiset(deck[1..]);
    HandsUpdate(gps, s, g);
    forall c ensures (Hands(gps[s := g]) + multiset(deck[1..]))[c] == (Hands(gps) + multiset(deck))[c] {
      assert (Hands(gps[s := g]) + multiset(gps[s].cards))[c] == (Hands(gps) + multiset(g.cards))[c];
    }
  }

  /** One round of the deal: each seat in turn takes the head of the
      deck. */
  method DealRound(gps: seq<GamePlayer>, deck: seq<Card>, ghost gps0: seq<GamePlayer>, ghost deck0: seq<Card>, ghost round: nat)
    returns (gps': seq<GamePlayer>, deck': seq<Card>)
    requires DealtSoFar(gps0, gps, deck0, round, 0) && DealSlot(round + 1, |gps|, 0) <= |deck0|
    requires deck == deck0[DealSlot(round, |gps|, 0)..]
    ensures DealtSoFar(gps0, gps', deck0, round + 1, 0) && deck' == deck0[DealSlot(round + 1, |gps|, 0)..]
    ensures Hands(gps') + multiset(deck') == Hands(gps) + multiset(deck)
  {
    var n := |gps|;
    gps', deck' := gps, deck;
    for s := 0 to n
      invariant DealtSoFar(gps0, gps', deck0, round, s)
      invariant deck' == deck0[DealSlot(round, n, 0) + s..]
      invariant Hands(gps') + multiset(deck') == Hands(gps) + multiset(deck)
    {
      DealTurnKeeps(gps0, gps', deck0, deck', round, s);
      HandTakesHead(gps', s, deck');
      ghost var prevGps, prevDeck := gps', deck';
      gps' := gps'[s := gps'[s].(cards := gps'[s].cards + [deck'[0]])];
      deck' := deck'[1..];
      assert Hands(gps') + multiset(deck') == Hands(prevGps) + multiset(prevDeck);
    }
    DealRoundDone(gps0, gps', deck0, round);
  }

  /** Deal from the head of the deck, one card to each seat in turn,
      until the last seat holds `cardsForEachPlayer` cards. */
  method Deal(gps: seq<GamePlayer>, deck: seq<Card>, cardsForEachPlayer: int) returns (gps': seq<GamePlayer>, deck': seq<Card>)
    requires gps != [] && forall s :: 0 <= s < |gps| ==> gps[s].cards == []
    requires CardsDealt(|gps|, cardsForEachPlayer) <= |deck|
    ensures deck' == deck[CardsDealt(|gps|, cardsForEachPlayer)..]
    ensures DealtSoFar(gps, gps', deck, HandSize(cardsForEachPlayer), 0)
    ensures Hands(gps') + multiset(deck') == Hands(gps) + multiset(deck)
  {
    var n := |gps|;
    ghost var rounds := HandSize(cardsForEachPlayer);
    ghost var round := 0;
    gps', deck' := gps, deck;
    while |gps'[n - 1].cards| < cardsForEachPlayer
      invariant 0 <= round <= rounds && DealtSoFar(gps, gps', deck, round, 0)
      invariant DealSlot(round, n, 0) <= |deck| && deck' == deck[DealSlot(round, n, 0)..]
      invariant Hands(gps') + multiset(deck') == Hands(gps) + multiset(deck)
      decreases rounds - round
    {
      DealSlotMonotonic(round + 1, rounds, n);
      gps', deck' := DealRound(gps', deck', gps, deck, round);
      round := round + 1;
    }
  }

  /** Move cards from the head of the deck to the end of the pile until
      the last one moved is not a Wild. */
  method TurnUp(deck: seq<Card>, pile: seq<Card>) returns (deck': seq<Card>, pile': seq<Card>)
    requires NonWildCount(deck) > 0
    ensures pile' != [] && pile'[|pile'| - 1].color != Wild
    ensures |pile| < |pile'| <= |pile| + |deck|
    ensures pile' == pile + deck[..|pile'| - |pile|] && deck' == deck[|pile'| - |pile|..]
    ensures forall i :: |pile| <= i < |pile'| - 1 ==> pile'[i].color == Wild
    ensures multiset(deck') + multiset(pile') == multiset(deck) + multiset(pile)
  {
    TurnUpStep(deck, pile, 0);
    pile' := pile + [deck[0]];
    deck' := deck[1..];
    ghost var t := 1;
    while pile'[|pile'| - 1].color == Wild
      invariant 1 <= t <= |deck| && pile' == pile + deck[..t] && deck' == deck[t..]
      invariant forall i :: |pile| <= i < |pile'| - 1 ==> pile'[i].color == Wild
      invariant pile'[|pile'| - 1].color == Wild ==> NonWildCount(deck') > 0
      decreases |deck'|
    {
      TurnUpStep(deck, pile, t);
      pile' := pile' + [deck'[0]];
      deck' := deck'[1..];
      t := t + 1;
    }
    TurnedUpKeepsCards(deck, pile, t);
  }

  /** Turning up card t of the deck: it is the head of what is left, it
      extends the turned-up prefix, and it counts towards the non-wild
      cards left. */
  lemma TurnUpStep(deck: seq<Card>, pile: seq<Card>, t: nat)
    requires t < |deck|
    ensures deck[t..][0] == deck[t] && deck[t..][1..] == deck[t + 1..]
    ensures (pile + deck[..t]) + [deck[t]] == pile + deck[..t + 1]
    ensures NonWildCount(deck[t..]) == NonWildWeight(deck[t]) + NonWildCount(deck[t + 1..])
  {
    assert deck[t..] == [deck[t]] + deck[t + 1..];
    assert deck[..t + 1] == deck[..t] + [deck[t]];
    NonWildCountOfCons(deck[t], deck[t + 1..]);
  }

  /** Moving a prefix of the deck onto the pile keeps the cards. */
  lemma TurnedUpKeepsCards(deck: seq<Card>, pile: seq<Card>, t: nat)
    requires t <= |deck|
    ensures multiset(deck[t..]) + multiset(pile + deck[..t]) == multiset(deck) + multiset(pile)
  {
    assert deck == deck[..t] + deck[t..];
  }

  /** Answers a human gives in the dialogs: the colour for a Wild (None
      when the dialog is cancelled) and the seat to swap hands with on a
      seven (None when cancelled). */
  datatype HumanChoices = HumanChoices(wildColor: Option<Color>, swapTarget: Option<int>)

  /** The table as the current seat sees it. */
  function TableOf(game: Game): Table
    reads game
    requires game.Valid() && game.discardPile != []
  {
    Table(game.CurrentGamePlayer().cards, game.discardPile, game.CurrentColor(), game.CurrentFace(),
          game.options.allowDraw4Always)
  }

  /** The pile's top card is what it was, if there was one. */
  ghost predicate KeepsTop(before: seq<Card>, after: seq<Card>)
  {
    before != [] ==> after != [] && after[|after| - 1] == before[|before| - 1]
  }

  /** Does the round end now? Without teams when all but one player have
      finished, with teams as soon as anyone has. */
  function RoundOver(game: Game): bool
    reads game
  {
    if !game.options.enableTeams then game.NumberOfFinishedPlayers() == game.NumberOfPlayers() - 1
    else game.NumberOfFinishedPlayers() > 0
  }

  class GameController {
    const game: Game
    const random: RandomSource
    /** Cards the next player must draw. */
    var cardsToDraw: int
    /** The next player loses their turn. */
    var skip: bool
    /** The player who played a SkipAll plays again. */
    var skipAll: bool
    /** The next pick-up takes four cards at once. */
    var tnt: bool

    /** The seats are consistent, a card is in play and the pending draw
        is not negative. */
    ghost predicate Valid()
      reads this, game
    {
      game.Valid() && game.discardPile != [] && cardsToDraw >= 0
    }

    /** Since the state with cards `cards0`, pile `pile0` and seats `gps0`:
        the controller is valid, no card is lost or made, the pile's top
        card stays and the same seats have finished. */
    ghost predicate Keeps(cards0: multiset<Card>, pile0: seq<Card>, gps0: seq<GamePlayer>)
      reads this, game
    {
      Valid() && game.AllCards() == cards0 && KeepsTop(pile0, game.discardPile)
      && SameStatuses(gps0, game.gamePlayers)
    }

    /** The state moving the turn on looks at and changes. */
    ghost function Now(): Turn
      reads this`tnt, this`skip, this`cardsToDraw,
            game`currentPlayerIndex, game`gamePlayers, game`deck, game`discardPile
    {
      Turn(game.currentPlayerIndex, game.gamePlayers, game.deck, game.discardPile, tnt, skip, cardsToDraw)
    }

    /** Set up a round of a new game: build and shuffle the deck, deal,
        sort every hand, turn up the first card, carry out its action and
        get the first player ready. `swapTarget` is the seat a human picks
        should the first card make them swap hands. */
    constructor (newGame: Game, source: RandomSource, sortingOf: ValueTable, scoringOf: ValueTable,
                 swapTarget: Option<int>)
      requires newGame.Valid()
      requires forall s :: 0 <= s < |newGame.gamePlayers| ==> newGame.gamePlayers[s].cards == []
      requires CardsDealt(newGame.NumberOfPlayers(), newGame.options.cardsForEachPlayer) <= 123
      requires swapTarget.Some? ==> 0 <= swapTarget.value < newGame.NumberOfPlayers()
      modifies newGame, source
      ensures Valid() && game == newGame && random == source
      ensures game.AllCards() == multiset(UnoDeck(sortingOf, scoringOf)) + multiset(old(newGame.discardPile))
      ensures game.CurrentCard().color != Wild
      ensures !skip && !skipAll
    {
      game := newGame;
      random := source;
      new;
      EmptyHands(game.gamePlayers);
      PrepareDeck(sortingOf, scoringOf);
      StartRound(swapTarget);
    }

    /** Deal from a full deck, turn up the first card, carry out its action
        and get the first player ready. */
    method StartRound(swapTarget: Option<int>)
      requires game.Valid()
      requires forall s :: 0 <= s < |game.gamePlayers| ==> game.gamePlayers[s].cards == []
      requires CardsDealt(game.NumberOfPlayers(), game.options.cardsForEachPlayer) <= 123
      requires |game.deck| == 132 && NonWildCount(game.deck) == 124
      requires swapTarget.Some? ==> 0 <= swapTarget.value < game.NumberOfPlayers()
      modifies this, game`gamePlayers, game`deck, game`discardPile, game`currentPlayerIndex, game`reverse, random
      ensures Valid() && game.AllCards() == old(game.AllCards())
      ensures game.CurrentCard().color != Wild
      ensures !skip && !skipAll
    {
      NonWildLeftAfterDeal(game.deck, CardsDealt(game.NumberOfPlayers(), game.options.cardsForEachPlayer));
      DealSortedHands();
      cardsToDraw, skip, skipAll, tnt := 0, false, false, false;
      FirstTurn(swapTarget);
    }

    /** Deal, turn up the first card and sort every hand: each player
        holds a sorted hand of the starting size. */
    method DealSortedHands()
      requires game.Valid()
      requires forall s :: 0 <= s < |game.gamePlayers| ==> game.gamePlayers[s].cards == []
      requires CardsDealt(game.NumberOfPlayers(), game.options.cardsForEachPlayer) < |game.deck|
      requires NonWildCount(game.deck[CardsDealt(game.NumberOfPlayers(), game.options.cardsForEachPlayer)..]) > 0
      modifies game`gamePlayers, game`deck, game`discardPile
      ensures game.Valid() && game.discardPile != [] && game.CurrentCard().color != Wild
      ensures forall s :: 0 <= s < |game.gamePlayers| ==>
                Sorted(game.gamePlayers[s].cards) && |game.gamePlayers[s].cards| == HandSize(game.options.cardsForEachPlayer)
      ensures game.AllCards() == old(game.AllCards())
    {
      DealCards();
      ghost var dealt := game.gamePlayers;
      assert forall s :: 0 <= s < |dealt| ==> |dealt[s].cards| == HandSize(game.options.cardsForEachPlayer);
      SortHands();
      forall s | 0 <= s < |game.gamePlayers|
        ensures |game.gamePlayers[s].cards| == HandSize(game.options.cardsForEachPlayer)
      {
        assert |game.gamePlayers[s].cards| == |multiset(game.gamePlayers[s].cards)| == |multiset(dealt[s].cards)|;
      }
    }

    /** Carry out the action of the first card turned up and get the
        first player ready. */
    method FirstTurn(swapTarget: Option<int>)
      requires Valid() && game.CurrentCard().color != Wild
      requires swapTarget.Some? ==> 0 <= swapTarget.value < game.NumberOfPlayers()
      modifies this`cardsToDraw, this`skip, this`skipAll, this`tnt, game`gamePlayers, game`deck,
               game`discardPile, game`currentPlayerIndex, game`reverse, random
      ensures Valid() && game.AllCards() == old(game.AllCards())
      ensures game.CurrentCard() == old(game.CurrentCard())
      ensures !skip && !skipAll
    {
      PerformAction(game.CurrentCard(), swapTarget);
      var _ := HandleActions();
      SetupCurrentPlayer();
    }

    /** How far play must move to reach a seat that still plays; the
        measure that makes moving the turn on end. */
    ghost function TurnDistance(): nat
      reads this, game
    {
      if game.Valid() && game.NumberOfPlayingPlayers() > 0
      then Distance(game.gamePlayers, game.currentPlayerIndex, MovesUp(game.reverse, false))
      else 0
    }

    // -------------------------------------------------------------------
    // Seats
    // -------------------------------------------------------------------

    /** The next seat that still plays, searching from `initial` one seat
        at a time; `reverse` asks for the direction opposite to the game's. */
    method GetNextPlayingPlayerIndex(initial: int, reverse: bool) returns (value: int)
      requires game.Valid() && 0 <= initial < game.NumberOfPlayers()
      requires game.NumberOfPlayingPlayers() > 0
      ensures value == NextPlaying(game.gamePlayers, initial, MovesUp(game.reverse, reverse))
    {
      var n := game.NumberOfPlayers();
      var up := MovesUp(game.reverse, reverse);
      ghost var gps := game.gamePlayers;
      DistanceFound(gps, initial, up);
      value := NextSeat(initial, n, up);
      ghost var d := 1;
      while game.gamePlayers[value].Finished()
        invariant 1 <= d <= Distance(gps, initial, up)
        invariant value == SeatAfter(initial, d, n, up)
        invariant FirstPlaying(gps, initial, up, d) == Distance(gps, initial, up)
        decreases Distance(gps, initial, up) - d
      {
        value := NextSeat(value, n, up);
        d := d + 1;
      }
    }

    /** Reverse the direction of play. */
    method Reverse()
      modifies game`reverse
      ensures game.reverse == !old(game.reverse)
    {
      game.reverse := if game.reverse then false else true;
    }

    /** Get the current player ready: one more turn on their record. */
    method SetupCurrentPlayer()
      requires Valid()
      modifies game`gamePlayers
      ensures Valid()
      ensures game.gamePlayers == TurnTaken(old(game.gamePlayers), game.currentPlayerIndex)
      ensures game.AllCards() == old(game.AllCards())
      ensures SameStatuses(old(game.gamePlayers), game.gamePlayers)
      ensures game.NumberOfPlayingPlayers() == old(game.NumberOfPlayingPlayers())
      ensures game.Finished() == old(game.Finished())
    {
      var i, gps := game.currentPlayerIndex, game.gamePlayers;
      HandsSameCards(gps, i, gps[i].(turns := gps[i].turns + 1));
      assert SameStatuses(gps, TurnTaken(gps, i));
      SameStatusesCounts(gps, TurnTaken(gps, i));
      game.gamePlayers := gps[i := gps[i].(turns := gps[i].turns + 1)];
    }

    // -------------------------------------------------------------------
    // Deck and discard pile
    // -------------------------------------------------------------------

    /** Shuffle the deck in place. */
    method ShuffleDeck()
      modifies game`deck, random
      ensures game.deck == Shuffled(old(game.deck), ShufflePicks(old(random.stream), |old(game.deck)|))
      ensures multiset(game.deck) == multiset(old(game.deck))
      ensures random.stream == if |old(game.deck)| > 1 then Drop(old(random.stream), |old(game.deck)|)
                               else old(random.stream)
    {
      var d := game.deck;
      var list := new Card[|d|](i requires 0 <= i < |d| => d[i]);
      assert list[..] == d;
      var picks := random.ShufflePicksFor(list.Length);
      ShuffleList(list, picks);
      game.deck := list[..];
    }

    /** Move every card of the discard pile but the top one to the deck,
        and shuffle the deck; refused while the pile has fewer than two
        cards. */
    method DiscardPileToDeck() returns (success: bool)
      modifies game`deck, game`discardPile, random
      ensures success <==> |old(game.discardPile)| >= 2
      ensures !success ==> unchanged(game, random)
      ensures success ==> game.discardPile == [old(game.discardPile)[|old(game.discardPile)| - 1]]
      ensures success ==> game.deck == Shuffled(old(game.deck) + old(game.discardPile)[..|old(game.discardPile)| - 1],
                                                ShufflePicks(old(random.stream), |old(game.deck)| + |old(game.discardPile)| - 1))
      ensures multiset(game.deck) + multiset(game.discardPile)
              == old(multiset(game.deck) + multiset(game.discardPile))
      ensures KeepsTop(old(game.discardPile), game.discardPile)
    {
      if |game.discardPile| < 2 {
        return false;
      }
      var cardsToMove := game.discardPile[..|game.discardPile| - 1];
      RemoveFromDiscardPile(cardsToMove);
      assert old(game.discardPile) == cardsToMove + game.discardPile;
      game.deck := game.deck + cardsToMove;
      ghost var refilled := game.deck;
      assert |refilled| == |old(game.deck)| + |old(game.discardPile)| - 1;
      ShuffleDeck();
      assert game.deck == Shuffled(refilled, ShufflePicks(old(random.stream), |refilled|));
      ShuffledPermutes(refilled, ShufflePicks(old(random.stream), |refilled|));
      success := true;
    }

    /** Remove each of `cards` from the discard pile, first occurrence
        first. When they are the pile's first cards, in order, each removal
        takes the pile's first card. */
    method RemoveFromDiscardPile(cards: seq<Card>)
      requires |cards| <= |game.discardPile| && cards == game.discardPile[..|cards|]
      modifies game`discardPile
      ensures game.discardPile == old(game.discardPile)[|cards|..]
    {
      for i := 0 to |cards|
        invariant game.discardPile == old(game.discardPile)[i..]
      {
        assert IndexOf(game.discardPile, cards[i]) == 0;
        game.discardPile := RemoveFirst(game.discardPile, cards[i]);
      }
    }

    /** The current player picks up from a deck that has a card. */
    method PickupFromDeck()
      requires Valid() && game.deck != []
      modifies this`tnt, game`gamePlayers, game`deck
      ensures Valid() && !tnt
      ensures game.gamePlayers == old(game.gamePlayers)[game.currentPlayerIndex :=
                PickedUp(old(game.CurrentGamePlayer()), old(game.deck), old(tnt)).0]
      ensures game.deck == PickedUp(old(game.CurrentGamePlayer()), old(game.deck), old(tnt)).1
      ensures game.AllCards() == old(game.AllCards())
      ensures |old(game.deck)| - |game.deck| == if old(tnt) then Min(4, |old(game.deck)|) else 1
      ensures Drew(old(game.gamePlayers), game.gamePlayers, game.currentPlayerIndex, |old(game.deck)| - |game.deck|)
    {
      PickedUpMovesCards(game.CurrentGamePlayer(), game.deck, tnt);
      PickedUpDraws(game.gamePlayers, game.currentPlayerIndex, game.deck, tnt);
      var g', deck' := PickUp(game.CurrentGamePlayer(), game.deck, tnt);
      tnt := false;
      HandsMoveFromDeck(game.gamePlayers, game.currentPlayerIndex, g', game.deck, deck', game.discardPile);
      game.gamePlayers := game.gamePlayers[game.currentPlayerIndex := g'];
      game.deck := deck';
    }

    /** Seat record `g` picks up from `deck`: the head of the deck goes in
        before the first card whose sorting value is not smaller, or under
        TNT up to four cards at that place. The result is `PickedUp`, and
        the cards only move from the deck to the hand. */
    method PickUp(g: GamePlayer, deck: seq<Card>, tnt: bool) returns (g': GamePlayer, deck': seq<Card>)
      requires deck != []
      ensures (g', deck') == PickedUp(g, deck, tnt)
      ensures multiset(g'.cards) + multiset(deck') == multiset(g.cards) + multiset(deck)
    {
      var index := FindInsertionIndex(g.cards, deck[0]);
      var cards, taken;
      if tnt {
        cards, deck', taken := InsertFour(g.cards, deck, index);
      } else {
        cards, deck', taken := g.cards[..index] + [deck[0]] + g.cards[index..], deck[1..], 1;
      }
      g' := g.(cards := cards, cardsPickedUp := g.cardsPickedUp + taken);
      PickedUpIs(g, deck, tnt, cards, deck', taken);
    }

    /** The current player picks up a card; an empty deck is first refilled
        from the discard pile, and when that is refused nothing happens. */
    method CurrentPlayerPickupCard() returns (success: bool)
      requires Valid()
      modifies this`tnt, game`gamePlayers, game`deck, game`discardPile, random
      ensures Valid()
      ensures game.AllCards() == old(game.AllCards())
      ensures KeepsTop(old(game.discardPile), game.discardPile)
      ensures success <==> old(game.deck) != [] || |old(game.discardPile)| >= 2
      ensures !success ==> unchanged(game, random) && tnt == old(tnt)
      ensures success ==>
                !tnt
                && Drew(old(game.gamePlayers), game.gamePlayers, game.currentPlayerIndex,
                        PickupSize(old(game.deck), old(game.discardPile), old(tnt)))
                && Drawable(game.deck, game.discardPile) == Drawable(old(game.deck), old(game.discardPile)) - PickupSize(old(game.deck), old(game.discardPile), old(tnt))
      ensures old(game.deck) != [] ==>
                game.discardPile == old(game.discardPile) && random.stream == old(random.stream)
                && game.gamePlayers[game.currentPlayerIndex] == PickedUp(old(game.CurrentGamePlayer()), old(game.deck), old(tnt)).0
                && game.deck == PickedUp(old(game.CurrentGamePlayer()), old(game.deck), old(tnt)).1
    {
      if |game.deck| == 0 {
        success := RefillAndPickup();
      } else {
        PickupFromDeck();
        success := true;
      }
    }

    /** A pick-up from an empty deck: the deck is refilled from the
        discard pile first, and when that is refused nothing happens. */
    method RefillAndPickup() returns (success: bool)
      requires Valid() && game.deck == []
      modifies this`tnt, game`gamePlayers, game`deck, game`discardPile, random
      ensures Valid()
      ensures game.AllCards() == old(game.AllCards())
      ensures KeepsTop(old(game.discardPile), game.discardPile)
      ensures success <==> |old(game.discardPile)| >= 2
      ensures !success ==> unchanged(game, random) && tnt == old(tnt)
      ensures success ==>
                !tnt
                && Drew(old(game.gamePlayers), game.gamePlayers, game.currentPlayerIndex,
                        PickupSize([], old(game.discardPile), old(tnt)))
                && Drawable(game.deck, game.discardPile) == Drawable([], old(game.discardPile)) - PickupSize([], old(game.discardPile), old(tnt))
    {
      success := RefillDeck();
      if !success {
        return;
      }
      ghost var d := game.deck;
      PickupFromDeck();
      assert PickupSize([], old(game.discardPile), old(tnt)) == |d| - |game.deck|;
    }

    /** `DiscardPileToDeck` on an empty deck, as a pick-up sees it: refused
        while the pile holds only the card in play, and otherwise all of
        the pile but that card is now the deck. */
    method RefillDeck() returns (success: bool)
      requires Valid() && game.deck == []
      modifies game`deck, game`discardPile, random
      ensures Valid()
      ensures game.AllCards() == old(game.AllCards())
      ensures KeepsTop(old(game.discardPile), game.discardPile)
      ensures success <==> |old(game.discardPile)| >= 2
      ensures !success ==> unchanged(game, random)
      ensures success ==>
                game.discardPile == [old(game.discardPile)[|old(game.discardPile)| - 1]]
                && |game.deck| == |old(game.discardPile)| - 1 > 0
    {
      success := DiscardPileToDeck();
      if success {
        ShuffledPermutes(old(game.deck) + old(game.discardPile)[..|old(game.discardPile)| - 1],
                         ShufflePicks(old(random.stream), |old(game.deck)| + |old(game.discardPile)| - 1));
      }
    }

    // -------------------------------------------------------------------
    // Moving the turn on
    // -------------------------------------------------------------------

    /** Move the turn on. After a SkipAll the same player goes again;
        otherwise play moves one seat in the game's direction, on past
        seats that have finished. The new current player then suffers the
        pending actions and gets a turn. Nothing happens once the round is
        over. */
    method NextPlayer() returns (ghost drawn: seq<GamePlayer>)
      requires Valid()
      modifies this`cardsToDraw, this`skip, this`skipAll, this`tnt, game`gamePlayers, game`deck,
               game`discardPile, game`currentPlayerIndex, random
      decreases (if skip then 1 else 0), (if skipAll then 1 else 0), (if cardsToDraw > 0 then 1 else 0), TurnDistance(), 3
      ensures Keeps(old(game.AllCards()), old(game.discardPile), old(game.gamePlayers))
      ensures !skipAll && (skip ==> old(skip)) && cardsToDraw <= old(cardsToDraw) && (tnt ==> old(tnt))
      ensures game.Finished() || !game.CurrentGamePlayer().Finished()
      ensures old(game.Finished()) ==> Now() == old(Now())
      ensures old(!skipAll && !game.Finished()) ==>
                Reached(Now(), MovesUp(game.reverse, false),
                        NextPlaying(old(game.gamePlayers), old(game.currentPlayerIndex), MovesUp(game.reverse, false)), old(Now()), drawn)
      ensures old(skipAll && !game.Finished()) ==>
                Reached(Now(), MovesUp(game.reverse, false),
                        Landing(old(game.gamePlayers), old(game.currentPlayerIndex), MovesUp(game.reverse, false)), old(Now()), drawn)
      ensures MovedOn(Now(), game.options, MovesUp(game.reverse, false), old(Now()), old(skipAll), drawn)
    {
      drawn := game.gamePlayers;
      if skipAll {
        skipAll := false;
        if game.Finished() {
          return;
        }
        drawn := ArriveAtSeat();
      } else {
        drawn := AdvanceTurn();
      }
    }

    /** Move the turn to the next seat that still plays, unless the round
        is over, and give that player their turn. */
    method AdvanceTurn() returns (ghost drawn: seq<GamePlayer>)
      requires Valid() && !skipAll
      modifies this`cardsToDraw, this`skip, this`skipAll, this`tnt, game`gamePlayers, game`deck,
               game`discardPile, game`currentPlayerIndex, random
      decreases (if skip then 1 else 0), 0, (if cardsToDraw > 0 then 1 else 0), TurnDistance(), 2
      ensures Keeps(old(game.AllCards()), old(game.discardPile), old(game.gamePlayers))
      ensures !skipAll && (skip ==> old(skip)) && cardsToDraw <= old(cardsToDraw) && (tnt ==> old(tnt))
      ensures game.Finished() || !game.CurrentGamePlayer().Finished()
      ensures old(game.Finished()) ==> Now() == old(Now())
      ensures old(!game.Finished()) ==>
                Reached(Now(), MovesUp(game.reverse, false),
                        NextPlaying(old(game.gamePlayers), old(game.currentPlayerIndex), MovesUp(game.reverse, false)), old(Now()), drawn)
    {
      drawn := game.gamePlayers;
      if game.Finished() {
        return;
      }
      var i := game.currentPlayerIndex;
      var up := MovesUp(game.reverse, false);
      game.currentPlayerIndex := NextSeat(game.currentPlayerIndex, game.NumberOfPlayers(), up);
      assert Valid() && game.AllCards() == old(game.AllCards()) && !game.Finished();
      LandingAfterStep(game.gamePlayers, i, up);
      ghost var t1 := Now();
      assert t1 == old(Now()).(idx := t1.idx);
      assert Landing(t1.gps, t1.idx, up) == NextPlaying(old(game.gamePlayers), i, up);
      drawn := ArriveAtSeat();
      assert MovesUp(game.reverse, false) == up;
      ReachedFromAnySeat(Now(), up, NextPlaying(old(game.gamePlayers), i, up), old(Now()), drawn, t1.idx);
    }

    /** The turn has reached the current seat: if that player has finished
        it moves on, otherwise the player suffers the pending actions and
        gets a turn. */
    method ArriveAtSeat() returns (ghost drawn: seq<GamePlayer>)
      requires Valid() && !skipAll && !game.Finished()
      modifies this`cardsToDraw, this`skip, this`skipAll, this`tnt, game`gamePlayers, game`deck,
               game`discardPile, game`currentPlayerIndex, random
      decreases (if skip then 1 else 0), 0, (if cardsToDraw > 0 then 1 else 0),
                (if game.CurrentGamePlayer().Finished() then TurnDistance() else 0), 4
      ensures Keeps(old(game.AllCards()), old(game.discardPile), old(game.gamePlayers))
      ensures !skipAll && (skip ==> old(skip)) && cardsToDraw <= old(cardsToDraw) && (tnt ==> old(tnt))
      ensures game.Finished() || !game.CurrentGamePlayer().Finished()
      ensures Reached(Now(), MovesUp(game.reverse, false),
                      Landing(old(game.gamePlayers), old(game.currentPlayerIndex), MovesUp(game.reverse, false)), old(Now()), drawn)
    {
      if game.CurrentGamePlayer().Finished() {
        drawn := NextPlayer();
        return;
      }
      drawn := TakeTurn();
    }

    /** The current player, who is still playing, suffers the pending
        actions and then gets a turn. */
    method TakeTurn() returns (ghost drawn: seq<GamePlayer>)
      requires Valid() && !skipAll && !game.Finished() && !game.CurrentGamePlayer().Finished()
      modifies this`cardsToDraw, this`skip, this`skipAll, this`tnt, game`gamePlayers, game`deck,
               game`discardPile, game`currentPlayerIndex, random
      decreases (if skip then 1 else 0), 0, (if cardsToDraw > 0 then 1 else 0), 0, 1
      ensures Keeps(old(game.AllCards()), old(game.discardPile), old(game.gamePlayers))
      ensures !skip && !skipAll && cardsToDraw <= old(cardsToDraw) && (tnt ==> old(tnt))
      ensures game.Finished() || !game.CurrentGamePlayer().Finished()
      ensures Reached(Now(), MovesUp(game.reverse, false), old(game.currentPlayerIndex), old(Now()), drawn)
    {
      ghost var t0 := Now();
      drawn := HandleActions();
      ghost var t1 := Now();
      SetupCurrentPlayer();
      HandledThenSetUp(game.options, MovesUp(game.reverse, false), t0, t1, Now(), drawn);
    }

    /** Carry out the pending actions on the current player: a Skip passes
        the turn on, a pending SkipAll is cleared, and pending cards (four
        more under TNT) are drawn, after which the turn passes on. Cards are
        only drawn while more than one player is left. */
    method HandleActions() returns (ghost drawn: seq<GamePlayer>)
      requires Valid()
      modifies this`cardsToDraw, this`skip, this`skipAll, this`tnt, game`gamePlayers, game`deck,
               game`discardPile, game`currentPlayerIndex, random
      decreases (if skip then 1 else 0), (if skipAll then 1 else 0), (if cardsToDraw > 0 then 1 else 0), 0, 0
      ensures Valid()
      ensures game.AllCards() == old(game.AllCards())
      ensures KeepsTop(old(game.discardPile), game.discardPile)
      ensures !skip && !skipAll && cardsToDraw <= old(cardsToDraw) && (tnt ==> old(tnt))
      ensures !old(game.CurrentGamePlayer().Finished()) ==>
                SameStatuses(old(game.gamePlayers), game.gamePlayers)
                && (game.Finished() || !game.CurrentGamePlayer().Finished())
      ensures old(!skip && (skipAll || cardsToDraw == 0 || game.NumberOfPlayingPlayers() <= 1)) ==>
                Now() == old(Now()) && random.stream == old(random.stream)
      ensures old(!skipAll) ==> Handled(Now(), game.options, MovesUp(game.reverse, false), old(Now()), drawn)
    {
      drawn := game.gamePlayers;
      if skip {
        skip := false;
        var _ := NextPlayer();
        return;
      }
      if skipAll {
        skipAll := false;
        return;
      }
      if cardsToDraw > 0 && game.NumberOfPlayingPlayers() > 1 {
        ghost var gps0, i0 := game.gamePlayers, game.currentPlayerIndex;
        DrawPending();
        drawn := game.gamePlayers;
        var _ := NextPlayer();
        if !gps0[i0].Finished() {
          SameStatusesTransitive(gps0, drawn, game.gamePlayers);
        }
      }
    }

    /** The current player draws the cards they owe, the pending draw and
        four more under TNT, as many of them as can still be drawn;
        afterwards nothing is pending. Only their hand and pick-up counter
        change, and no card is lost. */
    method DrawPending()
      requires Valid()
      modifies this`cardsToDraw, this`tnt, game`gamePlayers, game`deck, game`discardPile, random
      ensures Valid() && cardsToDraw == 0 && !tnt
      ensures game.AllCards() == old(game.AllCards())
      ensures KeepsTop(old(game.discardPile), game.discardPile)
      ensures Drew(old(game.gamePlayers), game.gamePlayers, game.currentPlayerIndex, Min(Owed(old(cardsToDraw), old(tnt)), Drawable(old(game.deck), old(game.discardPile))))
      ensures Drawable(game.deck, game.discardPile) == Drawable(old(game.deck), old(game.discardPile)) - Min(Owed(old(cardsToDraw), old(tnt)), Drawable(old(game.deck), old(game.discardPile)))
      ensures !old(game.CurrentGamePlayer().Finished()) ==>
                SameStatuses(old(game.gamePlayers), game.gamePlayers) && !game.CurrentGamePlayer().Finished()
    {
      if tnt {
        cardsToDraw := cardsToDraw + 4;
        tnt := false;
      }
      DrawCards(cardsToDraw);
      if !old(game.CurrentGamePlayer().Finished()) {
        DrewStillPlaying(old(game.gamePlayers), game.gamePlayers, game.currentPlayerIndex, Min(Owed(old(cardsToDraw), old(tnt)), Drawable(old(game.deck), old(game.discardPile))));
      }
      cardsToDraw := 0;
    }

    /** The current player tries to pick up n cards, one at a time, and
        draws n of them, or every card left to draw when there are fewer:
        only their hand and pick-up counter change, and no card is lost. */
    method DrawCards(n: nat)
      requires Valid() && !tnt
      modifies this`tnt, game`gamePlayers, game`deck, game`discardPile, random
      ensures Valid() && !tnt
      ensures game.AllCards() == old(game.AllCards())
      ensures KeepsTop(old(game.discardPile), game.discardPile)
      ensures Drew(old(game.gamePlayers), game.gamePlayers, game.currentPlayerIndex, Min(n, Drawable(old(game.deck), old(game.discardPile))))
      ensures Drawable(game.deck, game.discardPile) == Drawable(old(game.deck), old(game.discardPile)) - Min(n, Drawable(old(game.deck), old(game.discardPile)))
    {
      ghost var gps0 := game.gamePlayers;
      ghost var left0 := Drawable(game.deck, game.discardPile);
      for i := 0 to n
        invariant Valid() && !tnt
        invariant game.AllCards() == old(game.AllCards())
        invariant KeepsTop(old(game.discardPile), game.discardPile)
        invariant Drew(gps0, game.gamePlayers, game.currentPlayerIndex, Min(i, left0))
        invariant Drawable(game.deck, game.discardPile) == left0 - Min(i, left0)
      {
        ghost var before := game.gamePlayers;
        ghost var d0 := Drawable(game.deck, game.discardPile);
        var success := CurrentPlayerPickupCard();
        DrawCardsStep(gps0, before, game.gamePlayers, game.currentPlayerIndex, i, left0, success,
                      d0, Drawable(game.deck, game.discardPile));
      }
    }

    // -------------------------------------------------------------------
    // Swapping hands
    // -------------------------------------------------------------------

    /** Pass the hands round the table when a zero is played: starting at
        seat 0 and visiting the playing seats against the direction of
        play, each visited seat takes the hand of the next seat to visit,
        and the last one visited takes seat 0's hand. The number of seats
        to visit is counted afresh after every step. */
    method SwapAllPlayerHands()
      requires Valid()
      modifies game`gamePlayers
      ensures Valid()
      ensures game.AllCards() == old(game.AllCards())
      ensures forall s :: 0 <= s < |game.gamePlayers| ==>
                game.gamePlayers[s] == old(game.gamePlayers)[s].(cards := game.gamePlayers[s].cards)
    {
      ghost var gps0 := game.gamePlayers;
      var temp := game.gamePlayers[0].cards;
      var index := 0;
      var i := 0;
      ghost var done := false;
      while i < game.NumberOfPlayingPlayers()
        invariant Valid() && Passing(gps0, game.gamePlayers, temp, index, i, done)
        decreases |gps0| - i
      {
        var gps := game.gamePlayers;
        ghost var up := MovesUp(game.reverse, true);
        if i < game.NumberOfPlayingPlayers() - 1 {
          var from := GetNextPlayingPlayerIndex(index, true);
          PassingStep(gps0, gps, temp, index, i, up);
          game.gamePlayers := gps[index := gps[index].(cards := gps[from].cards)];
        } else {
          PassingLast(gps0, gps, temp, index, i);
          game.gamePlayers := gps[index := gps[index].(cards := temp)];
          done := true;
        }
        index := GetNextPlayingPlayerIndex(index, true);
        i := i + 1;
      }
    }

    /** The current player exchanges hands with seat `target`, and the turn
        moves on from there. */
    method PlayerSwapHands(target: int) returns (ghost drawn: seq<GamePlayer>)
      requires Valid() && 0 <= target < game.NumberOfPlayers()
      modifies this`cardsToDraw, this`skip, this`skipAll, this`tnt, game`gamePlayers, game`deck,
               game`discardPile, game`currentPlayerIndex, random
      ensures Valid()
      ensures game.AllCards() == old(game.AllCards())
      ensures KeepsTop(old(game.discardPile), game.discardPile)
      ensures MovedOn(Now(), game.options, MovesUp(game.reverse, false),
                      old(Now()).(gps := Swapped(old(game.gamePlayers), old(game.currentPlayerIndex), target)),
                      old(skipAll), drawn)
    {
      SwapHands(target);
      drawn := NextPlayer();
    }

    /** Seat `target` takes the current player's hand and the current
        player takes theirs; nothing else changes. */
    method SwapHands(target: int)
      requires Valid() && 0 <= target < game.NumberOfPlayers()
      modifies game`gamePlayers
      ensures Valid()
      ensures game.gamePlayers == Swapped(old(game.gamePlayers), game.currentPlayerIndex, target)
      ensures game.AllCards() == old(game.AllCards())
    {
      var gps := game.gamePlayers;
      var cur := game.currentPlayerIndex;
      game.gamePlayers := gps[target := gps[target].(cards := gps[cur].cards)][cur := gps[cur].(cards := gps[target].cards)];
      assert game.gamePlayers == Swapped(gps, cur, target);
    }

    /** The seat a computer player swaps hands with on a seven: the first
        seat, other than those with the current player's name, holding the
        fewest cards; -1 when every seat has that name. */
    method SevenSwapTarget() returns (handOwner: int)
      requires Valid()
      ensures handOwner == -1 <==>
                forall j :: 0 <= j < game.NumberOfPlayers() ==> game.players[j].name == game.CurrentPlayer().name
      ensures handOwner != -1 ==> IsSevenTarget(game.players, game.gamePlayers, game.CurrentPlayer().name, handOwner)
    {
      var name := game.CurrentPlayer().name;
      var smallestHand := 0;
      handOwner := -1;
      for i := 0 to game.NumberOfPlayers()
        invariant handOwner == -1 <==> forall j :: 0 <= j < i ==> game.players[j].name == name
        invariant handOwner != -1 ==>
                    0 <= handOwner < i && game.players[handOwner].name != name
                    && smallestHand == |game.gamePlayers[handOwner].cards|
                    && (forall j :: 0 <= j < i && game.players[j].name != name ==>
                          smallestHand <= |game.gamePlayers[j].cards|)
                    && (forall j :: 0 <= j < handOwner && game.players[j].name != name ==>
                          smallestHand < |game.gamePlayers[j].cards|)
      {
        if game.players[i].name == name {
          continue;
        }
        if handOwner == -1 || smallestHand > |game.gamePlayers[i].cards| {
          handOwner := i;
          smallestHand := |game.gamePlayers[i].cards|;
        }
      }
    }

    /** On a seven (when the option is on) the current player swaps hands:
        a computer with the seat SevenSwapTarget finds, if any; a human
        with the seat picked in the dialog, or with nobody if the dialog
        is cancelled. */
    method SwapHandsOnSeven(swapTarget: Option<int>) returns (ghost target: Option<int>, ghost drawn: seq<GamePlayer>)
      requires Valid()
      requires swapTarget.Some? ==> 0 <= swapTarget.value < game.NumberOfPlayers()
      modifies this`cardsToDraw, this`skip, this`skipAll, this`tnt, game`gamePlayers, game`deck,
               game`discardPile, game`currentPlayerIndex, random
      ensures Valid()
      ensures game.AllCards() == old(game.AllCards())
      ensures KeepsTop(old(game.discardPile), game.discardPile)
      ensures old(game.CurrentPlayer().kind) == Human ==> target == swapTarget
      ensures old(game.CurrentPlayer().kind) != Human ==>
                (target.None? <==> forall j :: 0 <= j < old(game.NumberOfPlayers()) ==>
                                                  old(game.players[j].name == game.CurrentPlayer().name))
                && (target.Some? ==> old(IsSevenTarget(game.players, game.gamePlayers, game.CurrentPlayer().name,
                                                       target.value)))
      ensures target.None? ==> unchanged(this, game, random)
      ensures target.Some? ==>
                0 <= target.value < |old(game.gamePlayers)|
                && MovedOn(Now(), game.options, MovesUp(game.reverse, false),
                           old(Now()).(gps := Swapped(old(game.gamePlayers), old(game.currentPlayerIndex), target.value)),
                           old(skipAll), drawn)
    {
      target, drawn := None, game.gamePlayers;
      if game.CurrentPlayer().kind != Human {
        var handOwner := SevenSwapTarget();
        if handOwner != -1 {
          target := Some(handOwner);
          drawn := PlayerSwapHands(handOwner);
        }
      } else if swapTarget.Some? {
        target := swapTarget;
        drawn := PlayerSwapHands(swapTarget.value);
      }
    }

    // -------------------------------------------------------------------
    // Card actions
    // -------------------------------------------------------------------

    /** A RandomDraw: going round the table once, each player still in the
        round in turn is given one to five cards to draw (on top of any
        pending), and the pending actions are carried out on them. */
    method DrawRandomCards()
      requires Valid()
      modifies this`cardsToDraw, this`skip, this`skipAll, this`tnt, game`gamePlayers, game`deck,
               game`discardPile, game`currentPlayerIndex, random
      ensures Valid()
      ensures game.AllCards() == old(game.AllCards())
      ensures KeepsTop(old(game.discardPile), game.discardPile)
      ensures tnt ==> old(tnt)
    {
      for i := 0 to game.NumberOfPlayers()
        invariant Valid()
        invariant game.AllCards() == old(game.AllCards())
        invariant KeepsTop(old(game.discardPile), game.discardPile)
        invariant tnt ==> old(tnt)
      {
        if !game.CurrentGamePlayer().Finished() {
          var extra := random.Next(1, 6);
          cardsToDraw := cardsToDraw + extra;
          var _ := HandleActions();
        }
      }
    }

    /** Carry out what the face of a card just played demands: pending
        draws for Draw2 and Draw4, a RandomDraw round, the Skip, SkipAll
        and TNT flags, a change of direction for Reverse, and the optional
        hand swaps on a zero or a seven. `swapTarget` is the human's answer
        to the seven dialog. */
    method PerformAction(card: Card, swapTarget: Option<int>)
      requires Valid()
      requires swapTarget.Some? ==> 0 <= swapTarget.value < game.NumberOfPlayers()
      modifies this`cardsToDraw, this`skip, this`skipAll, this`tnt, game`gamePlayers, game`deck,
               game`discardPile, game`currentPlayerIndex, game`reverse, random
      ensures Valid()
      ensures game.AllCards() == old(game.AllCards())
      ensures KeepsTop(old(game.discardPile), game.discardPile)
      ensures game.reverse == (old(game.reverse) != card.face.Reverse?)
      ensures QuietFace(card.face, game.options) ==>
                game.gamePlayers == old(game.gamePlayers) && game.deck == old(game.deck)
                && game.discardPile == old(game.discardPile) && game.currentPlayerIndex == old(game.currentPlayerIndex)
                && cardsToDraw == old(cardsToDraw) + DrawOf(card.face) && skip == (old(skip) || card.face.Skip?)
                && skipAll == (old(skipAll) || card.face.SkipAll?) && tnt == (old(tnt) || card.face.TNT?)
                && random.stream == old(random.stream)
      ensures card.face == Number(0) && game.options.swapHandsWith0 ==>
                unchanged(this, random) && game.reverse == old(game.reverse)
                && game.deck == old(game.deck) && game.discardPile == old(game.discardPile)
                && game.currentPlayerIndex == old(game.currentPlayerIndex)
                && forall s :: 0 <= s < |game.gamePlayers| ==>
                     game.gamePlayers[s] == old(game.gamePlayers)[s].(cards := game.gamePlayers[s].cards)
    {
      match card.face {
        case Draw2 =>
          cardsToDraw := cardsToDraw + 2;
        case Draw4 =>
          cardsToDraw := cardsToDraw + 4;
        case RandomDraw =>
          DrawRandomCards();
        case Skip =>
          skip := true;
        case SkipAll =>
          skipAll := true;
        case TNT =>
          tnt := true;
        case Reverse =>
          Reverse();
        case Number(d) =>
          if d == 0 && game.options.swapHandsWith0 {
            SwapAllPlayerHands();
          } else if d == 7 && game.options.swapHandsWith7 {
            ghost var target, drawn := SwapHandsOnSeven(swapTarget);
          }
        case NoFace =>
      }
    }

    // -------------------------------------------------------------------
    // Checking a card
    // -------------------------------------------------------------------

    /** Whether the current player may play `card`, and if not why: the
        colour check, then the Draw4 check, then whether the card is in
        the player's hand, each later failure overriding an earlier one. */
    method CanPlayCardStatus(card: Card) returns (status: CardPlayStatus)
      requires Valid()
      ensures status == StatusAt(TableOf(game), card)
    {
      status := Success;
      var color := game.CurrentColor();
      if card.color != Wild && card.color != color && card.face != game.CurrentFace() {
        status := WrongColor;
      }
      var hand := game.CurrentGamePlayer().cards;
      if !game.options.allowDraw4Always && card.face == Draw4 {
        var checkForCurrentColor := false;
        for i := 0 to |hand|
          invariant !checkForCurrentColor ==> forall j :: 0 <= j < i ==> hand[j].color != color
          invariant checkForCurrentColor ==> HoldsColor(hand, color)
        {
          if hand[i].color == color {
            checkForCurrentColor := true;
            break;
          }
        }
        if checkForCurrentColor {
          status := Draw4NotAllowed;
        }
      }
      if IndexOf(hand, card) < 0 {
        if IndexOf(game.discardPile, card) > -1 {
          status := DiscardPile;
        } else {
          status := IncorrectPlayer;
        }
      }
    }

    /** Whether the current player may play `card`. */
    method CanPlayCard(card: Card) returns (b: bool)
      requires Valid()
      ensures b <==> StatusAt(TableOf(game), card) == Success
    {
      var status := CanPlayCardStatus(card);
      b := status == Success;
    }

    // -------------------------------------------------------------------
    // Playing and picking up
    // -------------------------------------------------------------------

    /** Count the card just played in the current player's statistics and,
        if that player is now out, rank them after everyone who finished
        before them (ranks count from 0). */
    method RecordPlay()
      requires Valid()
      modifies game`gamePlayers
      ensures Valid()
      ensures game.gamePlayers == PlayRecorded(old(game.gamePlayers), game.currentPlayerIndex)
      ensures SameStatuses(old(game.gamePlayers), game.gamePlayers)
      ensures game.AllCards() == old(game.AllCards())
    {
      var i := game.currentPlayerIndex;
      var gps := game.gamePlayers;
      var played := gps[i].(cardsPlayed := gps[i].cardsPlayed + 1);
      StatusesKept(gps, i, played);
      var recorded := played;
      if played.Finished() {
        recorded := played.(finishRank := CountFinished(gps[i := played]) - 1);
      }
      assert recorded == SeatRecorded(gps[i], CountFinished(gps));
      PlayRecordedKeeps(gps, i);
      game.gamePlayers := gps[i := recorded];
    }

    /** Move `card` from the current player's hand onto the pile. */
    method DiscardFromHand(card: Card)
      requires Valid() && card in game.CurrentGamePlayer().cards
      modifies game`gamePlayers, game`discardPile
      ensures Valid()
      ensures game.discardPile == old(game.discardPile) + [card]
      ensures game.gamePlayers == Discarded(old(game.gamePlayers), game.currentPlayerIndex, card)
      ensures game.AllCards() == old(game.AllCards())
    {
      var i, gps, pile := game.currentPlayerIndex, game.gamePlayers, game.discardPile;
      HandsMoveToPile(gps, i, card, game.deck, pile);
      game.discardPile := pile + [card];
      game.gamePlayers := gps[i := gps[i].(cards := RemoveFirst(gps[i].cards, card))];
    }

    /** The card goes from the current hand onto the pile, its action is
        carried out and the play is recorded against the current seat; the
        turn has not moved yet. For a quiet face the seat that played has
        lost the card and gained the play, and the face's pending effects
        are set. */
    method DiscardAndAct(card: Card, swapTarget: Option<int>)
      requires Valid() && card in game.CurrentGamePlayer().cards
      requires swapTarget.Some? ==> 0 <= swapTarget.value < game.NumberOfPlayers()
      modifies this`cardsToDraw, this`skip, this`skipAll, this`tnt, game`gamePlayers, game`deck,
               game`discardPile, game`currentPlayerIndex, game`reverse, random
      ensures Valid()
      ensures game.AllCards() == old(game.AllCards())
      ensures game.CurrentCard() == card
      ensures game.reverse == (old(game.reverse) != card.face.Reverse?)
      ensures QuietFace(card.face, game.options) ==>
                game.gamePlayers == PlayRecorded(Discarded(old(game.gamePlayers), old(game.currentPlayerIndex), card),
                                                 old(game.currentPlayerIndex))
                && game.currentPlayerIndex == old(game.currentPlayerIndex)
                && game.deck == old(game.deck) && game.discardPile == old(game.discardPile) + [card]
                && cardsToDraw == old(cardsToDraw) + DrawOf(card.face)
                && skip == (old(skip) || card.face.Skip?) && skipAll == (old(skipAll) || card.face.SkipAll?)
                && tnt == (old(tnt) || card.face.TNT?) && random.stream == old(random.stream)
    {
      DiscardFromHand(card);
      ActAndRecord(card, swapTarget);
    }

    /** Carry out the action of the card just put on the pile and record
        the play against the seat that is current afterwards. */
    method ActAndRecord(card: Card, swapTarget: Option<int>)
      requires Valid()
      requires swapTarget.Some? ==> 0 <= swapTarget.value < game.NumberOfPlayers()
      modifies this`cardsToDraw, this`skip, this`skipAll, this`tnt, game`gamePlayers, game`deck,
               game`discardPile, game`currentPlayerIndex, game`reverse, random
      ensures Valid()
      ensures game.AllCards() == old(game.AllCards())
      ensures KeepsTop(old(game.discardPile), game.discardPile)
      ensures game.reverse == (old(game.reverse) != card.face.Reverse?)
      ensures QuietFace(card.face, game.options) ==>
                game.gamePlayers == PlayRecorded(old(game.gamePlayers), old(game.currentPlayerIndex))
                && game.currentPlayerIndex == old(game.currentPlayerIndex)
                && game.deck == old(game.deck) && game.discardPile == old(game.discardPile)
                && cardsToDraw == old(cardsToDraw) + DrawOf(card.face)
                && skip == (old(skip) || card.face.Skip?) && skipAll == (old(skipAll) || card.face.SkipAll?)
                && tnt == (old(tnt) || card.face.TNT?) && random.stream == old(random.stream)
    {
      PerformAction(card, swapTarget);
      RecordPlay();
    }

    /** The current player plays `card` from their hand: it goes on the
        pile, its action is carried out, the play is recorded, and unless
        the round is now over the turn moves on. Reports whether the round
        is over. `played` is the state just before the turn moves on,
        `skippedAll` the SkipAll flag then. */
    method PlayCard(card: Card, swapTarget: Option<int>)
      returns (roundEnded: bool, ghost played: Turn, ghost skippedAll: bool, ghost drawn: seq<GamePlayer>)
      requires Valid() && card in game.CurrentGamePlayer().cards
      requires swapTarget.Some? ==> 0 <= swapTarget.value < game.NumberOfPlayers()
      modifies this`cardsToDraw, this`skip, this`skipAll, this`tnt, game`gamePlayers, game`deck,
               game`discardPile, game`currentPlayerIndex, game`reverse, random
      ensures Valid()
      ensures game.AllCards() == old(game.AllCards())
      ensures game.CurrentCard() == card
      ensures game.reverse == (old(game.reverse) != card.face.Reverse?)
      ensures QuietFace(card.face, game.options) ==>
                played == Played(old(Now()), card) && skippedAll == (old(skipAll) || card.face.SkipAll?)
      ensures 0 <= played.idx < |played.gps| && (roundEnded <==> RoundOver(game))
      ensures roundEnded ==> Now() == played
      ensures !roundEnded ==> MovedOn(Now(), game.options, MovesUp(game.reverse, false), played, skippedAll, drawn)
    {
      ghost var t0 := Now();
      DiscardAndAct(card, swapTarget);
      played, skippedAll := Now(), skipAll;
      if QuietFace(card.face, game.options) {
        PlayedIs(t0, card, played);
      }
      roundEnded, drawn := EndOrMoveOn();
    }

    /** After a play: either the round is now over and nothing moves, or
        the turn moves on. Reports whether the round is over. */
    method EndOrMoveOn() returns (roundEnded: bool, ghost drawn: seq<GamePlayer>)
      requires Valid()
      modifies this`cardsToDraw, this`skip, this`skipAll, this`tnt, game`gamePlayers, game`deck,
               game`discardPile, game`currentPlayerIndex, random
      ensures Valid()
      ensures game.AllCards() == old(game.AllCards())
      ensures KeepsTop(old(game.discardPile), game.discardPile)
      ensures roundEnded <==> RoundOver(game)
      ensures roundEnded ==> Now() == old(Now())
      ensures !roundEnded ==>
                MovedOn(Now(), game.options, MovesUp(game.reverse, false), old(Now()), old(skipAll), drawn)
    {
      drawn := game.gamePlayers;
      if RoundOver(game) {
        return true, drawn;
      }
      ghost var before := game.gamePlayers;
      drawn := NextPlayer();
      SameStatusesCounts(before, game.gamePlayers);
      roundEnded := false;
    }

    /** Play `card` for the current player if the rules allow it. For a
        Wild a human is first asked for a colour (refusals are reported
        before asking, and cancelling the dialog cancels the play); a
        computer's Wild gets a random colour among red, yellow and green,
        which replaces any colour chosen before and is set even when the
        play is refused. Returns the verdict and whether the round ended;
        on success `played`, `skippedAll` and `drawn` are as `PlayCard`
        reports them. */
    method PlaySelectedCard(card: Card, answers: HumanChoices)
      returns (status: CardPlayStatus, roundEnded: bool, ghost played: Turn, ghost skippedAll: bool,
               ghost drawn: seq<GamePlayer>)
      requires Valid()
      requires answers.swapTarget.Some? ==> 0 <= answers.swapTarget.value < game.NumberOfPlayers()
      modifies this`cardsToDraw, this`skip, this`skipAll, this`tnt, game`gamePlayers, game`deck,
               game`discardPile, game`currentPlayerIndex, game`reverse, game`wildColor, random
      ensures Valid()
      ensures game.AllCards() == old(game.AllCards())
      ensures status == if card.color == Wild && old(game.CurrentPlayer().kind) == Human
                           && old(StatusAt(TableOf(game), card)) == Success && answers.wildColor.None?
                        then Cancelled
                        else old(StatusAt(TableOf(game), card))
      ensures status == Success ==> game.CurrentCard() == card
      ensures status != Success ==>
                unchanged(this) && game.gamePlayers == old(game.gamePlayers) && game.deck == old(game.deck)
                && game.discardPile == old(game.discardPile) && game.currentPlayerIndex == old(game.currentPlayerIndex)
                && game.reverse == old(game.reverse)
      ensures card.color == Wild && old(game.CurrentPlayer().kind) != Human ==> game.wildColor in {Red, Yellow, Green}
      ensures card.color == Wild && old(game.CurrentPlayer().kind) == Human && status == Success ==>
                answers.wildColor.Some? && game.wildColor == answers.wildColor.value
      ensures card.color != Wild ==> game.wildColor == old(game.wildColor)
      ensures roundEnded <==> status == Success && RoundOver(game)
      ensures status == Success && QuietFace(card.face, game.options) ==>
                played == Played(old(Now()), card) && skippedAll == (old(skipAll) || card.face.SkipAll?)
      ensures status == Success ==>
                0 <= played.idx < |played.gps| && (roundEnded ==> Now() == played)
                && (!roundEnded ==> MovedOn(Now(), game.options, MovesUp(game.reverse, false), played, skippedAll, drawn))
    {
      status := VerdictAndWildColor(card, answers);
      roundEnded := false;
      played, skippedAll, drawn := Now(), skipAll, game.gamePlayers;
      if status == Success {
        roundEnded, played, skippedAll, drawn := PlayCard(card, answers.swapTarget);
      }
    }

    /** The first half of `PlaySelectedCard`: the verdict on `card` and,
        for a Wild, the colour chosen for it (by the human's answer, or at
        random among red, yellow and green for a computer). */
    method VerdictAndWildColor(card: Card, answers: HumanChoices) returns (status: CardPlayStatus)
      requires Valid()
      modifies game`wildColor, random
      ensures Valid()
      ensures status == if card.color == Wild && old(game.CurrentPlayer().kind) == Human
                           && old(StatusAt(TableOf(game), card)) == Success && answers.wildColor.None?
                        then Cancelled
                        else old(StatusAt(TableOf(game), card))
      ensures card.color == Wild && old(game.CurrentPlayer().kind) != Human ==> game.wildColor in {Red, Yellow, Green}
      ensures card.color == Wild && old(game.CurrentPlayer().kind) == Human && status == Success ==>
                answers.wildColor.Some? && game.wildColor == answers.wildColor.value
      ensures card.color != Wild ==> game.wildColor == old(game.wildColor)
    {
      status := CanPlayCardStatus(card);
      if card.color == Wild {
        if game.CurrentPlayer().kind == Human {
          var wildCheckStatus := CanPlayCardStatus(card);
          if wildCheckStatus != Success {
            return wildCheckStatus;
          }
          match answers.wildColor {
            case Some(c) =>
              game.wildColor := c;
            case None =>
              return Cancelled;
          }
        } else {
          var r := random.Next(0, 3);
          game.wildColor := ColorOfOrdinal(r);
        }
      }
    }

    /** Play a card on behalf of a computer player; refused for a human. */
    method SelectCard(card: Card) returns (status: CardPlayStatus, roundEnded: bool)
      requires Valid()
      modifies this`cardsToDraw, this`skip, this`skipAll, this`tnt, game`gamePlayers, game`deck,
               game`discardPile, game`currentPlayerIndex, game`reverse, game`wildColor, random
      ensures Valid()
      ensures game.AllCards() == old(game.AllCards())
      ensures old(game.CurrentPlayer().kind) == Human ==>
                status == ComputerPlayer && !roundEnded && unchanged(this, game, random)
      ensures old(game.CurrentPlayer().kind) != Human ==> status == old(StatusAt(TableOf(game), card))
      ensures status == Success ==> game.CurrentCard() == card
      ensures roundEnded <==> status == Success && RoundOver(game)
    {
      if game.CurrentPlayer().kind == Human {
        return ComputerPlayer, false;
      }
      ghost var played, skippedAll, drawn;
      status, roundEnded, played, skippedAll, drawn := PlaySelectedCard(card, HumanChoices(None, None));
    }

    /** Pick up a card instead of playing, and move the turn on. Nothing
        happens once the round is over, nor when a computer's card is asked
        for on the player's behalf (`computer` false). Otherwise the current
        player picks up (four cards under TNT, none if no card is left to
        draw), and `picked` is the state just after. */
    method PickupCard(computer: bool) returns (ghost picked: Turn, ghost drawn: seq<GamePlayer>)
      requires Valid()
      modifies this`cardsToDraw, this`skip, this`skipAll, this`tnt, game`gamePlayers, game`deck,
               game`discardPile, game`currentPlayerIndex, random
      ensures Valid()
      ensures game.AllCards() == old(game.AllCards())
      ensures KeepsTop(old(game.discardPile), game.discardPile)
      ensures old(game.Finished()) || (old(game.CurrentPlayer().kind) != Human && !computer) ==>
                unchanged(this, game, random)
      ensures !old(game.Finished()) && (old(game.CurrentPlayer().kind) == Human || computer) ==>
                0 <= picked.idx < |picked.gps| && PickedUpFrom(picked, old(Now()))
                && MovedOn(Now(), game.options, MovesUp(game.reverse, false), picked, old(skipAll), drawn)
    {
      picked, drawn := Now(), game.gamePlayers;
      if game.Finished() {
        return;
      }
      if game.CurrentPlayer().kind != Human && !computer {
        return;
      }
      picked, drawn := PickUpAndPass();
    }

    /** The current player picks up and the turn moves on. */
    method PickUpAndPass() returns (ghost picked: Turn, ghost drawn: seq<GamePlayer>)
      requires Valid()
      modifies this`cardsToDraw, this`skip, this`skipAll, this`tnt, game`gamePlayers, game`deck,
               game`discardPile, game`currentPlayerIndex, random
      ensures Valid()
      ensures game.AllCards() == old(game.AllCards())
      ensures KeepsTop(old(game.discardPile), game.discardPile)
      ensures 0 <= picked.idx < |picked.gps| && PickedUpFrom(picked, old(Now()))
      ensures MovedOn(Now(), game.options, MovesUp(game.reverse, false), picked, old(skipAll), drawn)
    {
      picked := PickUpForTurn();
      drawn := NextPlayer();
    }

    /** `CurrentPlayerPickupCard` as a turn sees it: the state afterwards
        is the one `PickedUpFrom` describes. */
    method PickUpForTurn() returns (ghost picked: Turn)
      requires Valid()
      modifies this`tnt, game`gamePlayers, game`deck, game`discardPile, random
      ensures Valid()
      ensures game.AllCards() == old(game.AllCards())
      ensures KeepsTop(old(game.discardPile), game.discardPile)
      ensures picked == Now() && PickedUpFrom(picked, old(Now()))
    {
      var success := CurrentPlayerPickupCard();
      picked := Now();
      if success {
        assert Drew(old(Now()).gps, picked.gps, picked.idx,
                    PickupSize(old(Now()).deck, old(Now()).pile, old(Now()).tnt));
      }
    }

    /** Score the round: under basic scoring each seat scores its rank, or
        the number of players if it never finished; under official scoring
        the points left in its hand. Each player's running total grows by
        that score. */
    method EndGame()
      requires Valid()
      modifies game`gamePlayers, game`players
      ensures Valid()
      ensures |game.players| == |old(game.players)|
      ensures forall i :: 0 <= i < |game.gamePlayers| ==>
                game.gamePlayers[i] == old(game.gamePlayers[i]).(score :=
                  RoundScore(old(game.gamePlayers[i]), |game.players|, game.options.scoringSystem))
      ensures forall i :: 0 <= i < |game.players| ==>
                game.players[i] == old(game.players[i]).(score :=
                  old(game.players[i].score) + RoundScore(old(game.gamePlayers[i]), |game.players|, game.options.scoringSystem))
    {
      var n := game.NumberOfPlayers();
      for i := 0 to n
        invariant Valid() && |game.players| == n
        invariant forall j :: 0 <= j < i ==>
                    game.gamePlayers[j] == old(game.gamePlayers[j]).(score :=
                      RoundScore(old(game.gamePlayers[j]), n, game.options.scoringSystem))
        invariant forall j :: i <= j < n ==> game.gamePlayers[j] == old(game.gamePlayers[j])
        invariant forall j :: 0 <= j < i ==>
                    game.players[j] == old(game.players[j]).(score :=
                      old(game.players[j].score) + RoundScore(old(game.gamePlayers[j]), n, game.options.scoringSystem))
        invariant forall j :: i <= j < n ==> game.players[j] == old(game.players[j])
      {
        var g := game.gamePlayers[i];
        var score;
        if game.options.scoringSystem == Basic {
          score := if g.finishRank < 0 then n else g.finishRank;
        } else {
          score := CalculateUnoScoreForHand(g.cards);
        }
        game.gamePlayers := game.gamePlayers[i := g.(score := score)];
        game.players := game.players[i := game.players[i].(score := game.players[i].score + score)];
      }
    }

    // -------------------------------------------------------------------
    // Computer players
    // -------------------------------------------------------------------

    /** The cards of `cards`, in order, that the current player may play and
        that fit the preference. */
    method CollectPlayable(cards: seq<Card>, pref: Preference) returns (playable: seq<Card>)
      requires Valid()
      ensures playable == Candidates(TableOf(game), cards, pref)
    {
      ghost var t := TableOf(game);
      playable := [];
      for i := 0 to |cards|
        invariant playable == Candidates(t, cards[..i], pref)
      {
        var c := cards[i];
        var ok := CanPlayCard(c);
        var fits := match pref
                    case AnyPlayable => true
                    case SameColor => game.CurrentColor() == c.color
                    case SameFace => game.CurrentFace() == c.face
                    case AnyWild => c.color == Wild;
        CandidatesStep(t, cards, i, pref, ok, fits);
        if ok && fits {
          playable := playable + [c];
        }
      }
      assert cards[..|cards|] == cards;
    }

    /** The cards the current computer player may choose from: a smart
        player looks for the colour to match, then the same face, then
        Wilds; a basic one takes every playable card. */
    method FindPlayable(smart: bool) returns (playable: seq<Card>)
      requires Valid()
      ensures playable == if smart then SmartCandidates(TableOf(game), game.CurrentGamePlayer().cards)
                          else Candidates(TableOf(game), game.CurrentGamePlayer().cards, AnyPlayable)
    {
      var cards := game.CurrentGamePlayer().cards;
      if smart {
        playable := CollectPlayable(cards, SameColor);
        if |playable| <= 0 {
          playable := CollectPlayable(cards, SameFace);
        }
        if |playable| <= 0 {
          playable := CollectPlayable(cards, AnyWild);
        }
      } else {
        playable := CollectPlayable(cards, AnyPlayable);
      }
    }

    /** The card a computer player plays: a smart one sorts the candidates
        and takes the last, one with the greatest sorting value; a basic one
        takes a random candidate. */
    method ChooseCard(playable: seq<Card>, smart: bool) returns (selected: Card)
      requires playable != []
      modifies random
      ensures selected in playable
      ensures smart ==> |InsertionSort(playable)| == |playable| && selected == InsertionSort(playable)[|playable| - 1]
      ensures smart ==> forall c :: c in playable ==> c.sortingValue <= selected.sortingValue
      ensures smart ==> random.stream == old(random.stream)
      ensures !smart ==> selected == playable[NextIn(old(random.stream), 0, |playable|)]
      ensures !smart ==> random.stream == Rest(old(random.stream))
      ensures selected == ComputerPick(playable, smart, old(random.stream))
    {
      if smart {
        selected := LastAfterSorting(playable);
      } else {
        var r := random.Next(0, |playable|);
        selected := playable[r];
      }
    }

    /** The colour a smart computer names for its Wild: one of the colours
        it holds most cards of, chosen at random among those tied. */
    method SmartWildColor(hand: seq<Card>) returns (color: Color)
      modifies random
      ensures color != Wild
      ensures forall c :: c != Wild ==> ColorCount(hand, c) <= ColorCount(hand, color)
    {
      var colorCounts := [0, 0, 0, 0];
      for k := 0 to |hand|
        invariant |colorCounts| == NumberOfColors - 1
        invariant forall j :: 0 <= j < NumberOfColors - 1 ==> colorCounts[j] == ColorCount(hand[..k], ColorOfOrdinal(j))
      {
        assert hand[..k + 1][..k] == hand[..k];
        if hand[k].color != Wild {
          var o := ColorOrdinal(hand[k].color);
          colorCounts := colorCounts[o := colorCounts[o] + 1];
        }
      }
      assert hand[..|hand|] == hand;
      var greatest := 0;
      for i := 1 to NumberOfColors - 1
        invariant 0 <= greatest < i
        invariant forall j :: 0 <= j < i ==> colorCounts[j] <= colorCounts[greatest]
      {
        if colorCounts[greatest] < colorCounts[i] {
          greatest := i;
        }
      }
      var colorsToChoose: seq<Color> := [];
      for i := 0 to NumberOfColors - 1
        invariant forall c :: c in colorsToChoose ==> c != Wild && ColorCount(hand, c) == colorCounts[greatest]
        invariant greatest < i ==> colorsToChoose != []
      {
        if colorCounts[i] == colorCounts[greatest] {
          colorsToChoose := colorsToChoose + [ColorOfOrdinal(i)];
        }
      }
      var r := random.Next(0, |colorsToChoose|);
      color := colorsToChoose[r];
      forall c | c != Wild ensures ColorCount(hand, c) <= ColorCount(hand, color) {
        ColorOrdinalRoundTrip(c);
        assert ColorCount(hand, c) == colorCounts[ColorOrdinal(c)];
      }
    }

    /** A computer player's move: nothing while only one player is left,
        nor for a human unless `computerOnlyOverride` is set. Otherwise the
        player plays a chosen card, naming a colour for a Wild first, or
        picks up when no card may be played. */
    method MakeComputerMove(computerOnlyOverride: bool) returns (ghost selected: Option<Card>)
      requires Valid()
      modifies this`cardsToDraw, this`skip, this`skipAll, this`tnt, game`gamePlayers, game`deck,
               game`discardPile, game`currentPlayerIndex, game`reverse, game`wildColor, random
      ensures Valid()
      ensures game.AllCards() == old(game.AllCards())
      ensures old(game.NumberOfPlayingPlayers()) == 1 || (old(game.CurrentPlayer().kind) == Human && !computerOnlyOverride) ==>
                unchanged(this, game, random)
      ensures old(game.NumberOfPlayingPlayers() != 1 && game.CurrentPlayer().kind != Human
                  && game.CurrentCard().color != Wild
                  && exists c :: c in game.CurrentGamePlayer().cards && StatusAt(TableOf(game), c) == Success) ==>
                game.CurrentCard() in old(game.CurrentGamePlayer().cards)
      ensures selected.Some? <==>
                old(game.NumberOfPlayingPlayers() != 1 && (game.CurrentPlayer().kind != Human || computerOnlyOverride)
                    && ComputerCandidates(TableOf(game), game.CurrentGamePlayer().cards,
                                          game.CurrentPlayer().kind == SmartComputer) != [])
      ensures selected.Some? ==>
                selected.value == old(ComputerPick(ComputerCandidates(TableOf(game), game.CurrentGamePlayer().cards,
                                                                      game.CurrentPlayer().kind == SmartComputer),
                                                   game.CurrentPlayer().kind == SmartComputer, random.stream))
      ensures old(game.CurrentPlayer().kind != Human && game.CurrentCard().color != Wild) && selected.Some? ==>
                game.CurrentCard() == selected.value
    {
      selected := None;
      if game.NumberOfPlayingPlayers() == 1 {
        return;
      }
      if game.CurrentPlayer().kind == Human && !computerOnlyOverride {
        return;
      }
      selected := ComputerTurn();
    }

    /** A computer player plays one of `playable`, naming a colour first
        when it is a Wild: a smart player its strongest colour, a basic one
        a random colour. */
    method PlayFrom(playable: seq<Card>, smart: bool) returns (ghost selected: Card)
      requires Valid() && playable != []
      requires forall c :: c in playable ==> c in game.CurrentGamePlayer().cards && StatusAt(TableOf(game), c) == Success
      modifies this`cardsToDraw, this`skip, this`skipAll, this`tnt, game`gamePlayers, game`deck,
               game`discardPile, game`currentPlayerIndex, game`reverse, game`wildColor, random
      ensures Valid()
      ensures game.AllCards() == old(game.AllCards())
      ensures old(game.CurrentPlayer().kind != Human && game.CurrentCard().color != Wild) ==> game.CurrentCard() in playable
      ensures selected == ComputerPick(playable, smart, old(random.stream))
      ensures old(game.CurrentPlayer().kind != Human && game.CurrentCard().color != Wild) ==> game.CurrentCard() == selected
    {
      var card := ChooseCardAndColor(playable, smart);
      selected := card;
      var status, roundEnded := SelectCard(card);
    }

    /** The computer's choice among `playable`; for a Wild it also names
        the colour, the most common colour of its hand for a smart player
        and a random one otherwise. Only the named colour changes, and
        while the card in play is not a Wild that leaves the table as it
        was. */
    method ChooseCardAndColor(playable: seq<Card>, smart: bool) returns (selected: Card)
      requires Valid() && playable != []
      modifies game`wildColor, random
      ensures Valid() && game.AllCards() == old(game.AllCards())
      ensures selected in playable
      ensures selected == ComputerPick(playable, smart, old(random.stream))
      ensures selected.color != Wild ==> game.wildColor == old(game.wildColor)
      ensures selected.color == Wild && smart ==>
                game.wildColor != Wild
                && forall c :: c != Wild ==> ColorCount(old(game.CurrentGamePlayer().cards), c)
                                             <= ColorCount(old(game.CurrentGamePlayer().cards), game.wildColor)
      ensures selected.color == Wild && !smart ==>
                game.wildColor == ColorOfOrdinal(NextIn(Rest(old(random.stream)), 0, 4))
      ensures game.CurrentPlayer() == old(game.CurrentPlayer()) && game.CurrentCard() == old(game.CurrentCard())
      ensures game.CurrentCard().color != Wild ==> TableOf(game) == old(TableOf(game))
    {
      var cards := game.CurrentGamePlayer().cards;
      selected := ChooseCard(playable, smart);
      if selected.color == Wild {
        var color;
        if smart {
          color := SmartWildColor(cards);
        } else {
          var r := random.Next(0, 4);
          color := ColorOfOrdinal(r);
        }
        game.wildColor := color;
      }
    }

    /** The current player's move as a computer makes it. When the card in
        play is not a Wild, naming a colour cannot change what may be
        played, and a computer holding a playable card plays one. */
    method ComputerTurn() returns (ghost selected: Option<Card>)
      requires Valid()
      modifies this`cardsToDraw, this`skip, this`skipAll, this`tnt, game`gamePlayers, game`deck,
               game`discardPile, game`currentPlayerIndex, game`reverse, game`wildColor, random
      ensures Valid()
      ensures game.AllCards() == old(game.AllCards())
      ensures old(game.CurrentPlayer().kind != Human && game.CurrentCard().color != Wild
                  && exists c :: c in game.CurrentGamePlayer().cards && StatusAt(TableOf(game), c) == Success) ==>
                game.CurrentCard() in old(game.CurrentGamePlayer().cards)
      ensures selected.Some? <==>
                old(ComputerCandidates(TableOf(game), game.CurrentGamePlayer().cards,
                                       game.CurrentPlayer().kind == SmartComputer)) != []
      ensures selected.Some? ==>
                selected.value == old(ComputerPick(ComputerCandidates(TableOf(game), game.CurrentGamePlayer().cards,
                                                                      game.CurrentPlayer().kind == SmartComputer),
                                                   game.CurrentPlayer().kind == SmartComputer, random.stream))
      ensures old(game.CurrentPlayer().kind != Human && game.CurrentCard().color != Wild) && selected.Some? ==>
                game.CurrentCard() == selected.value
    {
      var smart := game.CurrentPlayer().kind == SmartComputer;
      var cards := game.CurrentGamePlayer().cards;
      ghost var t := TableOf(game);
      ghost var topIsWild := game.CurrentCard().color == Wild;
      ghost var computer := game.CurrentPlayer().kind != Human;
      ghost var canPlay := exists c :: c in cards && StatusAt(t, c) == Success;
      var playable := FindPlayable(smart);
      if canPlay {
        ghost var w :| w in cards && StatusAt(t, w) == Success;
        if smart {
          SmartFindsPlayable(t, cards, w);
        } else {
          assert w in playable;
        }
      }
      if |playable| > 0 {
        ghost var card := PlayFrom(playable, smart);
        selected := Some(card);
      } else {
        assert !canPlay;
        ghost var picked, drawn := PickupCard(true);
        selected := None;
      }
    }

    // -------------------------------------------------------------------
    // Setting up a round
    // -------------------------------------------------------------------

    /** Deal from the head of the deck, one card to each seat in turn,
        until the last seat holds the number of cards each player starts
        with: seat s's j-th card is the deck's card j * n + s. */
    method DealRounds()
      requires game.Valid()
      requires forall s :: 0 <= s < |game.gamePlayers| ==> game.gamePlayers[s].cards == []
      requires CardsDealt(game.NumberOfPlayers(), game.options.cardsForEachPlayer) <= |game.deck|
      modifies game`gamePlayers, game`deck
      ensures game.Valid()
      ensures game.deck == old(game.deck)[CardsDealt(game.NumberOfPlayers(), game.options.cardsForEachPlayer)..]
      ensures DealtSoFar(old(game.gamePlayers), game.gamePlayers, old(game.deck), HandSize(game.options.cardsForEachPlayer), 0)
      ensures game.AllCards() == old(game.AllCards())
    {
      ghost var pile := game.discardPile;
      var gps, deck := Deal(game.gamePlayers, game.deck, game.options.cardsForEachPlayer);
      game.gamePlayers, game.deck := gps, deck;
      assert game.AllCards() == multiset(pile) + (Hands(gps) + multiset(deck));
    }

    /** Turn up cards from the head of the deck onto the pile until the
        one turned up is not a Wild. */
    method TurnUpFirstCard()
      requires game.Valid() && NonWildCount(game.deck) > 0
      modifies game`deck, game`discardPile
      ensures game.discardPile != [] && game.CurrentCard().color != Wild
      ensures |old(game.discardPile)| < |game.discardPile| <= |old(game.discardPile)| + |old(game.deck)|
      ensures game.discardPile == old(game.discardPile) + old(game.deck)[..|game.discardPile| - |old(game.discardPile)|]
      ensures game.deck == old(game.deck)[|game.discardPile| - |old(game.discardPile)|..]
      ensures forall i :: |old(game.discardPile)| <= i < |game.discardPile| - 1 ==> game.discardPile[i].color == Wild
      ensures game.AllCards() == old(game.AllCards())
    {
      var deck, pile := TurnUp(game.deck, game.discardPile);
      game.deck, game.discardPile := deck, pile;
    }

    /** A new deck, shuffled. */
    method PrepareDeck(sortingOf: ValueTable, scoringOf: ValueTable)
      modifies game`deck, random
      ensures multiset(game.deck) == multiset(UnoDeck(sortingOf, scoringOf))
      ensures |game.deck| == 132 && NonWildCount(game.deck) == 124
    {
      var deck := GenerateUnoDeck(sortingOf, scoringOf);
      game.deck := deck;
      ShuffleDeck();
      FullDeckNonWild(game.deck, sortingOf, scoringOf);
    }

    /** Deal the hands, then turn up the first card of the pile. */
    method DealCards()
      requires game.Valid()
      requires forall s :: 0 <= s < |game.gamePlayers| ==> game.gamePlayers[s].cards == []
      requires CardsDealt(game.NumberOfPlayers(), game.options.cardsForEachPlayer) < |game.deck|
      requires NonWildCount(game.deck[CardsDealt(game.NumberOfPlayers(), game.options.cardsForEachPlayer)..]) > 0
      modifies game`gamePlayers, game`deck, game`discardPile
      ensures game.Valid() && game.discardPile != [] && game.CurrentCard().color != Wild
      ensures DealtSoFar(old(game.gamePlayers), game.gamePlayers, old(game.deck), HandSize(game.options.cardsForEachPlayer), 0)
      ensures game.AllCards() == old(game.AllCards())
    {
      DealRounds();
      TurnUpFirstCard();
    }

    /** Sort every hand by sorting value. */
    method SortHands()
      requires game.Valid()
      modifies game`gamePlayers
      ensures game.Valid()
      ensures forall s :: 0 <= s < |game.gamePlayers| ==>
                game.gamePlayers[s] == old(game.gamePlayers)[s].(cards := game.gamePlayers[s].cards)
                && Sorted(game.gamePlayers[s].cards)
                && multiset(game.gamePlayers[s].cards) == multiset(old(game.gamePlayers)[s].cards)
      ensures game.AllCards() == old(game.AllCards())
    {
      var n := game.NumberOfPlayers();
      for s := 0 to n
        invariant game.Valid()
        invariant forall t :: 0 <= t < n ==>
                    game.gamePlayers[t] == old(game.gamePlayers)[t].(cards := game.gamePlayers[t].cards)
                    && multiset(game.gamePlayers[t].cards) == multiset(old(game.gamePlayers)[t].cards)
        invariant forall t :: 0 <= t < s ==> Sorted(game.gamePlayers[t].cards)
        invariant forall t :: s <= t < n ==> game.gamePlayers[t] == old(game.gamePlayers)[t]
        invariant game.AllCards() == old(game.AllCards())
      {
        var sorted := SortedHand(game.gamePlayers[s].cards);
        HandsPermuteSeat(game.gamePlayers, s, sorted);
        game.gamePlayers := game.gamePlayers[s := game.gamePlayers[s].(cards := sorted)];
      }
    }
  }
}