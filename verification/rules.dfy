/** The rules a move is judged by: whether a card may be played, how a
    hand changes when a card leaves or joins it, what a hand is worth, and
    the filters the computer players choose their card with. */
module Rules {
  import opened Cards
  import opened Sorting
  import opened GameState

  datatype Option<T> = None | Some(value: T)

  /** Outcome of an attempt to play a card. */
  datatype CardPlayStatus =
    | Success
    | WrongColor
    | IncorrectPlayer
    | DiscardPile
    | Cancelled
    | Draw4NotAllowed
    | ComputerPlayer
    | UnkownError

  /** A card follows the card in play when it is a Wild, has the colour
      to match, or shows the same face. */
  predicate Follows(card: Card, currentColor: Color, currentFace: Face)
  {
    card.color == Wild || card.color == currentColor || card.face == currentFace
  }

  predicate HoldsColor(hand: seq<Card>, color: Color)
  {
    exists i :: 0 <= i < |hand| && hand[i].color == color
  }

  /** Unless the options allow it, a Draw4 may not be played while the
      hand holds a card of the colour to match. */
  predicate Draw4Refused(card: Card, hand: seq<Card>, currentColor: Color, allowDraw4Always: bool)
  {
    !allowDraw4Always && card.face == Draw4 && HoldsColor(hand, currentColor)
  }

  /** The verdict on playing `card` from `hand`. The checks run in turn and
      a later failing check overwrites an earlier verdict: colour, then
      Draw4, then whose card it is. */
  function PlayStatus(card: Card, hand: seq<Card>, discardPile: seq<Card>,
                      currentColor: Color, currentFace: Face, allowDraw4Always: bool): (s: CardPlayStatus)
    ensures s == Success <==>
            card in hand && Follows(card, currentColor, currentFace)
            && !Draw4Refused(card, hand, currentColor, allowDraw4Always)
    ensures s == WrongColor <==>
            card in hand && !Follows(card, currentColor, currentFace)
            && !Draw4Refused(card, hand, currentColor, allowDraw4Always)
    ensures s == Draw4NotAllowed <==> card in hand && Draw4Refused(card, hand, currentColor, allowDraw4Always)
    ensures s == DiscardPile <==> card !in hand && card in discardPile
    ensures s == IncorrectPlayer <==> card !in hand && card !in discardPile
  {
    var byColor := if Follows(card, currentColor, currentFace) then Success else WrongColor;
    var byDraw4 := if Draw4Refused(card, hand, currentColor, allowDraw4Always) then Draw4NotAllowed else byColor;
    if card !in hand then (if card in discardPile then DiscardPile else IncorrectPlayer)
    else byDraw4
  }

  /** A plain Wild in the player's own hand can always be played. */
  lemma PlainWildAlwaysPlays(card: Card, hand: seq<Card>, discardPile: seq<Card>,
                             currentColor: Color, currentFace: Face, allowDraw4Always: bool)
    requires card in hand && card.color == Wild && card.face == NoFace
    ensures PlayStatus(card, hand, discardPile, currentColor, currentFace, allowDraw4Always) == Success
  {
  }

  /** Position of the first occurrence of x in s, or -1. */
  function IndexOf(s: seq<Card>, x: Card): (k: int)
    ensures -1 <= k < |s|
    ensures k == -1 <==> x !in s
    ensures k >= 0 ==> s[k] == x && x !in s[..k]
  {
    if s == [] then -1
    else if s[0] == x then 0
    else
      var k := IndexOf(s[1..], x);
      if k < 0 then -1 else k + 1
  }

  /** The list with the first occurrence of x taken out, if there is one. */
  function RemoveFirst(s: seq<Card>, x: Card): (r: seq<Card>)
    ensures x in s ==> |r| == |s| - 1 && multiset(r) == multiset(s) - multiset{x}
    ensures x !in s ==> r == s
  {
    var k := IndexOf(s, x);
    if k < 0 then s
    else
      assert s == s[..k] + [x] + s[k + 1..];
      s[..k] + s[k + 1..]
  }

  /** Taking a card out of a sorted hand leaves it sorted. */
  lemma RemoveFirstKeepsSorted(s: seq<Card>, x: Card)
    requires Sorted(s)
    ensures Sorted(RemoveFirst(s, x))
  {
    var k := IndexOf(s, x);
    if k >= 0 {
      var r := RemoveFirst(s, x);
      forall i, j | 0 <= i < j < |r| ensures r[i].sortingValue <= r[j].sortingValue {
        var i' := if i < k then i else i + 1;
        var j' := if j < k then j else j + 1;
        assert r[i] == s[i'] && r[j] == s[j'];
      }
    }
  }

  /** Where a picked-up card goes: before the first card whose sorting
      value is not smaller than v. */
  function InsertionPoint(hand: seq<Card>, v: int): (k: nat)
    ensures k <= |hand|
    ensures forall j :: 0 <= j < k ==> hand[j].sortingValue < v
    ensures k < |hand| ==> hand[k].sortingValue >= v
  {
    if hand == [] || hand[0].sortingValue >= v then 0
    else 1 + InsertionPoint(hand[1..], v)
  }

  /** The insertion point is the only position with smaller sorting values
      before it and none after it: what a left-to-right scan stops at. */
  lemma {:induction false} InsertionPointCharacterised(hand: seq<Card>, v: int, k: nat)
    requires k <= |hand|
    requires forall j :: 0 <= j < k ==> hand[j].sortingValue < v
    requires k < |hand| ==> hand[k].sortingValue >= v
    ensures InsertionPoint(hand, v) == k
  {
    if k > 0 {
      assert hand[0].sortingValue < v;
      InsertionPointCharacterised(hand[1..], v, k - 1);
    }
  }

  /** A card inserted at its insertion point keeps a sorted hand sorted. */
  lemma InsertAtPointKeepsSorted(hand: seq<Card>, x: Card)
    requires Sorted(hand)
    ensures Sorted(hand[..InsertionPoint(hand, x.sortingValue)] + [x] + hand[InsertionPoint(hand, x.sortingValue)..])
  {
    var k := InsertionPoint(hand, x.sortingValue);
    var r := hand[..k] + [x] + hand[k..];
    forall i, j | 0 <= i < j < |r| ensures r[i].sortingValue <= r[j].sortingValue {
      if j < k {
        assert r[i] == hand[i] && r[j] == hand[j];
      } else if j == k {
        assert r[j] == x && r[i] == hand[i];
      } else if i == k {
        assert r[j] == hand[j - 1] && hand[k].sortingValue <= hand[j - 1].sortingValue;
      } else if i < k {
        assert r[i] == hand[i] && r[j] == hand[j - 1];
      } else {
        assert r[i] == hand[i - 1] && r[j] == hand[j - 1];
      }
    }
  }

  /** A hand and the deck it draws from. */
  datatype Zones = Zones(hand: seq<Card>, deck: seq<Card>)

  /** The deck's head inserted into the hand at `index` and removed from
      the deck. */
  function DrawHeadAt(z: Zones, index: nat): Zones
    requires z.deck != [] && index <= |z.hand|
  {
    Zones(z.hand[..index] + [z.deck[0]] + z.hand[index..], z.deck[1..])
  }

  /** The TNT pickup as written: four draws in a row at the same index,
      each one `Insert(index, Deck[0])` then `RemoveAt(0)`. The deck is
      only refilled before the pickup, when it is empty, so a draw may
      find it empty, which the engine does not survive (None). */
  function TntPickupAsWritten(z: Zones, index: nat): Option<Zones>
    requires index <= |z.hand|
  {
    DrawsAsWritten(z, index, 4)
  }

  /** `count` draws as written, one after the other: each takes the deck's
      head, and the first one to meet an empty deck fails. */
  function DrawsAsWritten(z: Zones, index: nat, count: nat): Option<Zones>
    requires index <= |z.hand|
    decreases count
  {
    if count == 0 then Some(z)
    else if z.deck == [] then None
    else DrawsAsWritten(DrawHeadAt(z, index), index, count - 1)
  }

  /** Draws as written fail exactly when the deck holds fewer cards than
      there are draws. */
  lemma {:induction false} DrawsAsWrittenFail(z: Zones, index: nat, count: nat)
    requires index <= |z.hand|
    ensures DrawsAsWritten(z, index, count).None? <==> |z.deck| < count
    decreases count
  {
    if count > 0 && z.deck != [] {
      DrawsAsWrittenFail(DrawHeadAt(z, index), index, count - 1);
    }
  }

  /** Whatever the hand, a TNT pickup from a deck of one to three cards
      fails although the deck was not empty. */
  lemma TntPickupRunsOutOfDeck(z: Zones, index: nat)
    requires index <= |z.hand| && 1 <= |z.deck| < 4
    ensures TntPickupAsWritten(z, index) == None
  {
    DrawsAsWrittenFail(z, index, 4);
  }

  /** The cards of s, last first. */
  function Reversed(s: seq<Card>): (r: seq<Card>)
    ensures |r| == |s|
  {
    if s == [] then [] else Reversed(s[1..]) + [s[0]]
  }

  lemma {:induction false} ReversedPermutes(s: seq<Card>)
    ensures multiset(Reversed(s)) == multiset(s)
  {
    if s != [] {
      ReversedPermutes(s[1..]);
      assert s == [s[0]] + s[1..];
    }
  }

  function Min(a: int, b: int): int
  {
    if a < b then a else b
  }

  /** The TNT pickup as intended: up to `count` draws at the same index,
      each one only while the deck still has a card. The drawn cards end
      up in the hand last-drawn first. */
  function TntPickup(z: Zones, index: nat, count: nat): Zones
    requires index <= |z.hand|
    decreases count
  {
    if count == 0 || z.deck == [] then z
    else TntPickup(DrawHeadAt(z, index), index, count - 1)
  }

  /** What the intended pickup leaves: the deck minus its first
      min(count, |deck|) cards, and those cards in the hand at `index`,
      last-drawn first. */
  lemma {:induction false} TntPickupShape(z: Zones, index: nat, count: nat)
    requires index <= |z.hand|
    decreases count
    ensures TntPickup(z, index, count).deck == z.deck[Min(count, |z.deck|)..]
    ensures TntPickup(z, index, count).hand
            == z.hand[..index] + Reversed(z.deck[..Min(count, |z.deck|)]) + z.hand[index..]
  {
    if count == 0 || z.deck == [] {
      assert Reversed(z.deck[..0]) == [];
      assert z.hand[..index] + [] + z.hand[index..] == z.hand;
    } else {
      var z1 := DrawHeadAt(z, index);
      var m := Min(count, |z.deck|);
      assert Min(count - 1, |z1.deck|) == m - 1;
      TntPickupShape(z1, index, count - 1);
      assert z1.deck[m - 1..] == z.deck[m..];
      ReversedStep(z.deck, m);
      InsertShift(z.hand, index, Reversed(z.deck[1..m]), z.deck[0]);
    }
  }

  lemma ReversedStep(s: seq<Card>, m: nat)
    requires 1 <= m <= |s|
    ensures Reversed(s[..m]) == Reversed(s[1..][..m - 1]) + [s[0]]
  {
    assert s[..m][1..] == s[1..][..m - 1];
  }

  lemma InsertShift(h: seq<Card>, index: nat, drawn: seq<Card>, x: Card)
    requires index <= |h|
    ensures (h[..index] + [x] + h[index..])[..index] + drawn + (h[..index] + [x] + h[index..])[index..]
            == h[..index] + (drawn + [x]) + h[index..]
  {
    var h1 := h[..index] + [x] + h[index..];
    assert h1[..index] == h[..index];
    assert h1[index..] == [x] + h[index..];
  }

  /** The intended TNT pickup only moves cards from the deck to the hand. */
  lemma TntPickupKeepsCards(z: Zones, index: nat, count: nat)
    requires index <= |z.hand|
    ensures multiset(TntPickup(z, index, count).hand) + multiset(TntPickup(z, index, count).deck)
            == multiset(z.hand) + multiset(z.deck)
  {
    TntPickupShape(z, index, count);
    var m := Min(count, |z.deck|);
    ReversedPermutes(z.deck[..m]);
    assert z.hand == z.hand[..index] + z.hand[index..];
    assert z.deck == z.deck[..m] + z.deck[m..];
  }

  /** With a deck of at least four cards the intended pickup is exactly
      what the code does. */
  lemma TntPickupAgreesOnFullDeck(z: Zones, index: nat)
    requires index <= |z.hand| && |z.deck| >= 4
    ensures TntPickupAsWritten(z, index) == Some(TntPickup(z, index, 4))
  {
    DrawsAgree(z, index, 4);
  }

  /** Draws as written and the corrected draws agree while the deck has a
      card for every draw. */
  lemma {:induction false} DrawsAgree(z: Zones, index: nat, count: nat)
    requires index <= |z.hand| && |z.deck| >= count
    ensures DrawsAsWritten(z, index, count) == Some(TntPickup(z, index, count))
    decreases count
  {
    if count > 0 {
      DrawsAgree(DrawHeadAt(z, index), index, count - 1);
    }
  }

  /** Sum of `value` over the cards of s. */
  function SumOf(s: seq<Card>, value: Card -> int): int
  {
    if s == [] then 0 else SumOf(s[..|s| - 1], value) + value(s[|s| - 1])
  }

  lemma {:induction false} SumOfAppend(a: seq<Card>, b: seq<Card>, value: Card -> int)
    ensures SumOf(a + b, value) == SumOf(a, value) + SumOf(b, value)
    decreases |b|
  {
    if b == [] {
      assert a + b == a;
    } else {
      SumOfAppend(a, b[..|b| - 1], value);
      assert (a + b)[..|a + b| - 1] == a + b[..|b| - 1];
    }
  }

  /** A sum over the cards does not depend on their order. */
  lemma {:induction false} SumOfPermutation(a: seq<Card>, b: seq<Card>, value: Card -> int)
    requires multiset(a) == multiset(b)
    ensures SumOf(a, value) == SumOf(b, value)
    decreases |a|
  {
    if a == [] {
      assert |b| == |multiset(b)| == 0;
    } else {
      var init, x := a[..|a| - 1], a[|a| - 1];
      assert a == init + [x];
      assert multiset(init) == multiset(a) - multiset{x};
      assert x in multiset(b);
      var k :| 0 <= k < |b| && b[k] == x;
      MultisetRemoveAt(b, k);
      SumOfPermutation(init, b[..k] + b[k + 1..], value);
      SumOfRemoveAt(b, k, value);
    }
  }

  /** Taking out position k takes one copy of its card out of the multiset. */
  lemma MultisetRemoveAt(b: seq<Card>, k: nat)
    requires k < |b|
    ensures multiset(b[..k] + b[k + 1..]) == multiset(b) - multiset{b[k]}
  {
    assert b == b[..k] + [b[k]] + b[k + 1..];
  }

  /** Taking out position k takes its value out of the sum. */
  lemma SumOfRemoveAt(b: seq<Card>, k: nat, value: Card -> int)
    requires k < |b|
    ensures SumOf(b, value) == SumOf(b[..k] + b[k + 1..], value) + value(b[k])
  {
    var x := b[k];
    assert b == b[..k] + [x] + b[k + 1..];
    SumOfAppend(b[..k], [x], value);
    SumOfAppend(b[..k] + [x], b[k + 1..], value);
    SumOfAppend(b[..k], b[k + 1..], value);
    assert SumOf([x], value) == value(x) by {
      assert [x][..0] == [];
    }
  }

  function ScoreOf(c: Card): int
  {
    c.scoringValue
  }

  /** Official Uno score of a hand: the sum of its cards' scoring values. */
  function HandScore(hand: seq<Card>): int
  {
    SumOf(hand, ScoreOf)
  }

  /** The official score of a hand does not depend on how it is sorted. */
  lemma HandScoreIgnoresOrder(a: seq<Card>, b: seq<Card>)
    requires multiset(a) == multiset(b)
    ensures HandScore(a) == HandScore(b)
  {
    SumOfPermutation(a, b, ScoreOf);
  }

  /** The official score of a hand is the sum of the scores of its parts,
      and an empty hand scores nothing. */
  lemma HandScoreOfSplit(a: seq<Card>, b: seq<Card>)
    ensures HandScore([]) == 0
    ensures HandScore(a + b) == HandScore(a) + HandScore(b)
  {
    SumOfAppend(a, b, ScoreOf);
  }

  function NonWildWeight(c: Card): int
  {
    if c.color != Wild then 1 else 0
  }

  /** Number of cards of a playable colour in s. */
  function NonWildCount(s: seq<Card>): int
  {
    SumOf(s, NonWildWeight)
  }

  lemma NonWildCountOfCons(x: Card, s: seq<Card>)
    ensures NonWildCount([x] + s) == NonWildWeight(x) + NonWildCount(s)
  {
    SumOfAppend([x], s, NonWildWeight);
    assert [x][..0] == [];
  }

  lemma {:induction false} NonWildCountBounds(s: seq<Card>)
    ensures 0 <= NonWildCount(s) <= |s|
    decreases |s|
  {
    if s != [] {
      NonWildCountBounds(s[..|s| - 1]);
    }
  }

  /** Round score of a seat: under basic scoring its finishing rank, or the
      number of players if it never finished; under official scoring the
      points left in its hand. */
  function RoundScore(g: GamePlayer, numberOfPlayers: int, system: ScoringSystem): int
  {
    if system == Basic then (if g.finishRank < 0 then numberOfPlayers else g.finishRank)
    else HandScore(g.cards)
  }

  /** Under basic scoring an earlier finisher scores less, and a seat that
      never finished scores more than every ranked seat of the game. */
  lemma BasicScoresFollowRank(g: GamePlayer, h: GamePlayer, numberOfPlayers: int)
    requires 0 <= g.finishRank < numberOfPlayers
    ensures h.finishRank < 0 ==> RoundScore(g, numberOfPlayers, Basic) < RoundScore(h, numberOfPlayers, Basic)
    ensures g.finishRank < h.finishRank ==> RoundScore(g, numberOfPlayers, Basic) < RoundScore(h, numberOfPlayers, Basic)
  {
  }

  /** What the computer looks for when choosing a card. */
  datatype Preference = AnyPlayable | SameColor | SameFace | AnyWild

  /** The table as the legality check sees it for the current seat. */
  datatype Table = Table(hand: seq<Card>, discardPile: seq<Card>, color: Color, face: Face, allowDraw4Always: bool)

  function StatusAt(t: Table, c: Card): CardPlayStatus
  {
    PlayStatus(c, t.hand, t.discardPile, t.color, t.face, t.allowDraw4Always)
  }

  /** Does card c have what the preference looks for? */
  predicate Fits(t: Table, pref: Preference, c: Card)
  {
    match pref
    case AnyPlayable => true
    case SameColor => c.color == t.color
    case SameFace => c.face == t.face
    case AnyWild => c.color == Wild
  }

  predicate Wanted(t: Table, pref: Preference, c: Card)
  {
    StatusAt(t, c) == Success && Fits(t, pref, c)
  }

  /** The cards of `cards`, in order, that may be played and fit the
      preference. */
  function Candidates(t: Table, cards: seq<Card>, pref: Preference): (r: seq<Card>)
    ensures |r| <= |cards|
    ensures forall c :: c in r <==> c in cards && Wanted(t, pref, c)
  {
    if cards == [] then []
    else
      var last := cards[|cards| - 1];
      assert cards == cards[..|cards| - 1] + [last];
      Candidates(t, cards[..|cards| - 1], pref) + (if Wanted(t, pref, last) then [last] else [])
  }

  /** Scanning one more card adds it to the candidates exactly when it is
      playable and fits the preference. */
  lemma CandidatesStep(t: Table, cards: seq<Card>, i: nat, pref: Preference, ok: bool, fits: bool)
    requires i < |cards|
    requires ok <==> StatusAt(t, cards[i]) == Success
    requires fits <==> Fits(t, pref, cards[i])
    ensures Candidates(t, cards[..i + 1], pref) == Candidates(t, cards[..i], pref) + (if ok && fits then [cards[i]] else [])
  {
    assert cards[..i + 1][..i] == cards[..i];
  }

  /** The smart computer's candidates: cards of the colour to match if it
      may play any, else cards of the same face, else Wilds. */
  function SmartCandidates(t: Table, cards: seq<Card>): (r: seq<Card>)
    ensures forall c :: c in r ==> c in cards && StatusAt(t, c) == Success
    ensures r == [] ==> forall c :: c in cards && StatusAt(t, c) == Success
                          ==> c.color != t.color && c.face != t.face && c.color != Wild
  {
    var byColor := Candidates(t, cards, SameColor);
    var byFace := Candidates(t, cards, SameFace);
    if byColor != [] then byColor
    else if byFace != [] then byFace
    else Candidates(t, cards, AnyWild)
  }

  /** A playable card always falls under one of the smart preferences, so
      the smart computer finds a card whenever any card may be played. */
  lemma SmartFindsPlayable(t: Table, cards: seq<Card>, c: Card)
    requires c in cards && StatusAt(t, c) == Success
    ensures SmartCandidates(t, cards) != []
  {
    assert Follows(c, t.color, t.face);
  }

  /** Number of cards of colour c in the hand: the count a smart computer
      maximises when it names the colour for a Wild. */
  function ColorCount(hand: seq<Card>, c: Color): (n: nat)
    ensures n <= |hand|
  {
    if hand == [] then 0
    else ColorCount(hand[..|hand| - 1], c) + (if hand[|hand| - 1].color == c then 1 else 0)
  }
}
