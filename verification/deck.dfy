/** Building the deck.

    For each of the four playable colours the builder makes one card of
    face ordinal 0 and two cards of each face ordinal 1 to 15, 31 cards per
    colour; then four plain Wilds and four Wild Draw4s, interleaved. That
    is 132 cards, more than the nominal 108 of the game's capacity
    constant. Every card is a new object, so each gets the next identity
    number in the order it is made. The sorting and scoring values come
    from the card's own tables, which are parameters here. */
module Deck {
  import opened Cards

  /** Capacity hint used when allocating card lists; not the deck size. */
  const MaxUnoCards: int := 108

  /** Number of faces in the face enum. */
  const NumberOfFaces: int := 18

  /** A number for every (colour, face) pair, row by colour ordinal. */
  type ValueTable = t: seq<int> | |t| == NumberOfColors * NumberOfFaces witness seq(NumberOfColors * NumberOfFaces, _ => 0)

  function ValueOf(table: ValueTable, c: Color, f: Face): int
  {
    table[ColorOrdinal(c) * NumberOfFaces + FaceOrdinal(f)]
  }

  function NewCard(id: nat, c: Color, f: Face, sortingOf: ValueTable, scoringOf: ValueTable): Card
  {
    Card(id, c, f, ValueOf(sortingOf, c, f), ValueOf(scoringOf, c, f))
  }

  /** How many copies of face ordinal k a colour gets. */
  function Copies(k: int): nat
  {
    if k == 0 then 1 else 2
  }

  /** Number of cards made for face ordinals 0 .. k-1 of one colour. */
  function RunLength(k: nat): nat
  {
    if k == 0 then 0 else 2 * k - 1
  }

  /** The cards of colour c for face ordinals 0 .. k-1, numbered from `base`. */
  function ColorRun(c: Color, k: nat, base: nat, sortingOf: ValueTable, scoringOf: ValueTable): (r: seq<Card>)
    requires k <= 16
    ensures |r| == RunLength(k)
  {
    if k == 0 then []
    else ColorRun(c, k - 1, base, sortingOf, scoringOf) + FaceCards(c, k - 1, base + RunLength(k - 1), sortingOf, scoringOf)
  }

  /** The copies of face ordinal k in colour c, numbered from `start`. */
  function FaceCards(c: Color, k: nat, start: nat, sortingOf: ValueTable, scoringOf: ValueTable): (r: seq<Card>)
    requires k < 16
    ensures |r| == Copies(k)
  {
    var f := FaceOfOrdinal(k);
    [NewCard(start, c, f, sortingOf, scoringOf)] + (if k != 0 then [NewCard(start + 1, c, f, sortingOf, scoringOf)] else [])
  }

  /** The copies of face ordinal k in colour c are all the cards of that
      colour and face they hold. */
  lemma FaceCardsCount(c: Color, k: nat, start: nat, sortingOf: ValueTable, scoringOf: ValueTable, c': Color, f': Face)
    requires k < 16
    ensures CountOf(FaceCards(c, k, start, sortingOf, scoringOf), c', f')
            == if c' == c && FaceOrdinal(f') == k then Copies(k) else 0
  {
    var f := FaceOfOrdinal(k);
    var one := [NewCard(start, c, f, sortingOf, scoringOf)];
    var two := if k != 0 then [NewCard(start + 1, c, f, sortingOf, scoringOf)] else [];
    CountOfAppend(one, two, c', f');
    CountOfSingle(one[0], c', f');
    if two != [] {
      CountOfSingle(two[0], c', f');
    }
    FaceOfOrdinalMatches(k, f');
  }

  /** The first k pairs of Wild cards, numbered from `base`. */
  function WildRun(k: nat, base: nat, sortingOf: ValueTable, scoringOf: ValueTable): (r: seq<Card>)
    ensures |r| == 2 * k
  {
    if k == 0 then []
    else
      WildRun(k - 1, base, sortingOf, scoringOf)
        + [NewCard(base + 2 * (k - 1), Wild, NoFace, sortingOf, scoringOf),
           NewCard(base + 2 * (k - 1) + 1, Wild, Draw4, sortingOf, scoringOf)]
  }

  /** The cards made for colour ordinals 0 .. i-1. */
  function DeckPrefix(i: nat, sortingOf: ValueTable, scoringOf: ValueTable): (r: seq<Card>)
    requires i <= NumberOfColors
    ensures |r| == 31 * (if i == NumberOfColors then i - 1 else i) + (if i == NumberOfColors then 8 else 0)
  {
    if i == 0 then []
    else
      var prev := DeckPrefix(i - 1, sortingOf, scoringOf);
      prev + ColorCards(i - 1, |prev|, sortingOf, scoringOf)
  }

  /** Every card of a colour run gets the next identity number. */
  lemma {:induction false} ColorRunIds(c: Color, k: nat, base: nat, sortingOf: ValueTable, scoringOf: ValueTable)
    requires k <= 16
    ensures forall j :: 0 <= j < RunLength(k) ==> ColorRun(c, k, base, sortingOf, scoringOf)[j].id == base + j
  {
    if k > 0 {
      ColorRunIds(c, k - 1, base, sortingOf, scoringOf);
    }
  }

  /** Every card of the Wild run gets the next identity number. */
  lemma {:induction false} WildRunIds(k: nat, base: nat, sortingOf: ValueTable, scoringOf: ValueTable)
    ensures forall j :: 0 <= j < 2 * k ==> WildRun(k, base, sortingOf, scoringOf)[j].id == base + j
  {
    if k > 0 {
      WildRunIds(k - 1, base, sortingOf, scoringOf);
    }
  }

  /** The cards are numbered 0, 1, 2, ... in the order they are made. */
  lemma {:induction false} DeckPrefixIds(i: nat, sortingOf: ValueTable, scoringOf: ValueTable)
    requires i <= NumberOfColors
    ensures forall j :: 0 <= j < |DeckPrefix(i, sortingOf, scoringOf)| ==> DeckPrefix(i, sortingOf, scoringOf)[j].id == j
  {
    if i > 0 {
      var prev := DeckPrefix(i - 1, sortingOf, scoringOf);
      DeckPrefixIds(i - 1, sortingOf, scoringOf);
      var run := ColorCards(i - 1, |prev|, sortingOf, scoringOf);
      assert DeckPrefix(i, sortingOf, scoringOf) == prev + run;
      if ColorOfOrdinal(i - 1) != Wild {
        ColorRunIds(ColorOfOrdinal(i - 1), 16, |prev|, sortingOf, scoringOf);
      } else {
        WildRunIds(4, |prev|, sortingOf, scoringOf);
      }
      assert forall j :: 0 <= j < |run| ==> run[j].id == |prev| + j;
    }
  }

  function UnoDeck(sortingOf: ValueTable, scoringOf: ValueTable): seq<Card>
  {
    DeckPrefix(NumberOfColors, sortingOf, scoringOf)
  }

  /** Number of cards of colour c and face f in s. */
  function CountOf(s: seq<Card>, c: Color, f: Face): (n: nat)
    ensures n <= |s|
  {
    if s == [] then 0
    else CountOf(s[..|s| - 1], c, f) + (if s[|s| - 1].color == c && s[|s| - 1].face == f then 1 else 0)
  }

  lemma {:induction false} CountOfAppend(a: seq<Card>, b: seq<Card>, c: Color, f: Face)
    ensures CountOf(a + b, c, f) == CountOf(a, c, f) + CountOf(b, c, f)
    decreases |b|
  {
    if b != [] {
      CountOfAppend(a, b[..|b| - 1], c, f);
      assert (a + b)[..|a + b| - 1] == a + b[..|b| - 1];
    } else {
      assert a + b == a;
    }
  }

  lemma CountOfSingle(x: Card, c: Color, f: Face)
    ensures CountOf([x], c, f) == if x.color == c && x.face == f then 1 else 0
  {
    assert [x][..0] == [];
  }

  /** How many copies of (c, f) the builder makes. */
  function Expected(c: Color, f: Face): nat
  {
    if c == Wild then (if f == NoFace || f == Draw4 then 4 else 0)
    else if FaceOrdinal(f) < 16 then Copies(FaceOrdinal(f))
    else 0
  }

  lemma {:induction false} ColorRunCount(c: Color, k: nat, base: nat, sortingOf: ValueTable, scoringOf: ValueTable, c': Color, f': Face)
    requires k <= 16
    ensures CountOf(ColorRun(c, k, base, sortingOf, scoringOf), c', f')
            == if c' == c && FaceOrdinal(f') < k then Copies(FaceOrdinal(f')) else 0
  {
    if k > 0 {
      var prev := ColorRun(c, k - 1, base, sortingOf, scoringOf);
      var step := FaceCards(c, k - 1, base + RunLength(k - 1), sortingOf, scoringOf);
      ColorRunCount(c, k - 1, base, sortingOf, scoringOf, c', f');
      CountOfAppend(prev, step, c', f');
      FaceCardsCount(c, k - 1, base + RunLength(k - 1), sortingOf, scoringOf, c', f');
    }
  }

  lemma {:induction false} WildRunCount(k: nat, base: nat, sortingOf: ValueTable, scoringOf: ValueTable, c': Color, f': Face)
    ensures CountOf(WildRun(k, base, sortingOf, scoringOf), c', f')
            == if c' == Wild && (f' == NoFace || f' == Draw4) then k else 0
  {
    if k > 0 {
      var prev := WildRun(k - 1, base, sortingOf, scoringOf);
      var pair := [NewCard(base + 2 * (k - 1), Wild, NoFace, sortingOf, scoringOf),
                   NewCard(base + 2 * (k - 1) + 1, Wild, Draw4, sortingOf, scoringOf)];
      WildRunCount(k - 1, base, sortingOf, scoringOf, c', f');
      CountOfAppend(prev, pair, c', f');
      CountOfAppend([pair[0]], [pair[1]], c', f');
      assert [pair[0]] + [pair[1]] == pair;
      CountOfSingle(pair[0], c', f');
      CountOfSingle(pair[1], c', f');
    }
  }

  /** The run the builder adds for colour ordinal i. */
  function ColorCards(i: nat, base: nat, sortingOf: ValueTable, scoringOf: ValueTable): (r: seq<Card>)
    requires i < NumberOfColors
  {
    var c := ColorOfOrdinal(i);
    if c != Wild then ColorRun(c, 16, base, sortingOf, scoringOf) else WildRun(4, base, sortingOf, scoringOf)
  }

  lemma ColorCardsCount(i: nat, base: nat, sortingOf: ValueTable, scoringOf: ValueTable, c': Color, f': Face)
    requires i < NumberOfColors
    ensures CountOf(ColorCards(i, base, sortingOf, scoringOf), c', f')
            == if ColorOrdinal(c') == i then Expected(c', f') else 0
  {
    var c := ColorOfOrdinal(i);
    ColorOrdinalRoundTrip(c');
    assert ColorOrdinal(c') == i <==> c' == c;
    if c != Wild {
      ColorRunCount(c, 16, base, sortingOf, scoringOf, c', f');
    } else {
      WildRunCount(4, base, sortingOf, scoringOf, c', f');
    }
  }

  lemma {:induction false} DeckPrefixCount(i: nat, sortingOf: ValueTable, scoringOf: ValueTable, c': Color, f': Face)
    requires i <= NumberOfColors
    ensures CountOf(DeckPrefix(i, sortingOf, scoringOf), c', f')
            == if ColorOrdinal(c') < i then Expected(c', f') else 0
  {
    if i > 0 {
      var prev := DeckPrefix(i - 1, sortingOf, scoringOf);
      var run := ColorCards(i - 1, |prev|, sortingOf, scoringOf);
      assert DeckPrefix(i, sortingOf, scoringOf) == prev + run;
      DeckPrefixCount(i - 1, sortingOf, scoringOf, c', f');
      CountOfAppend(prev, run, c', f');
      ColorCardsCount(i - 1, |prev|, sortingOf, scoringOf, c', f');
    }
  }

  /** The generated deck: 132 distinct cards, one 0 and two of each other
      generated face per playable colour, four plain Wilds and four Wild
      Draw4s, and nothing else. */
  lemma UnoDeckContents(sortingOf: ValueTable, scoringOf: ValueTable, c: Color, f: Face)
    ensures |UnoDeck(sortingOf, scoringOf)| == 132
    ensures forall j :: 0 <= j < 132 ==> UnoDeck(sortingOf, scoringOf)[j].id == j
    ensures CountOf(UnoDeck(sortingOf, scoringOf), c, f) == Expected(c, f)
    ensures c != Wild ==> CountOf(UnoDeck(sortingOf, scoringOf), c, Number(0)) == 1
    ensures c != Wild && FaceOrdinal(f) in {1, 2, 3, 4, 5, 6, 7, 8, 9, 10, 11, 12, 13, 14, 15}
            ==> CountOf(UnoDeck(sortingOf, scoringOf), c, f) == 2
    ensures c != Wild ==> CountOf(UnoDeck(sortingOf, scoringOf), c, Draw4) == 0
    ensures CountOf(UnoDeck(sortingOf, scoringOf), Wild, NoFace) == 4
    ensures CountOf(UnoDeck(sortingOf, scoringOf), Wild, Draw4) == 4
  {
    DeckPrefixIds(NumberOfColors, sortingOf, scoringOf);
    DeckPrefixCount(NumberOfColors, sortingOf, scoringOf, c, f);
    DeckPrefixCount(NumberOfColors, sortingOf, scoringOf, c, Number(0));
    DeckPrefixCount(NumberOfColors, sortingOf, scoringOf, c, Draw4);
    DeckPrefixCount(NumberOfColors, sortingOf, scoringOf, Wild, NoFace);
    DeckPrefixCount(NumberOfColors, sortingOf, scoringOf, Wild, Draw4);
  }

  /** The inner loop for a playable colour: two cards per face ordinal,
      one for ordinal 0. */
  method AddColorCards(deck: seq<Card>, color: Color, sortingOf: ValueTable, scoringOf: ValueTable) returns (r: seq<Card>)
    ensures r == deck + ColorRun(color, 16, |deck|, sortingOf, scoringOf)
  {
    r := deck;
    for k := 0 to 16
      invariant r == deck + ColorRun(color, k, |deck|, sortingOf, scoringOf)
    {
      ghost var before := r;
      r := r + [NewCard(|r|, color, FaceOfOrdinal(k), sortingOf, scoringOf)];
      if k != 0 {
        r := r + [NewCard(|r|, color, FaceOfOrdinal(k), sortingOf, scoringOf)];
      }
      assert r == before + FaceCards(color, k, |before|, sortingOf, scoringOf);
    }
  }

  /** The inner loop for Wild: four plain Wilds and four Wild Draw4s. */
  method AddWildCards(deck: seq<Card>, sortingOf: ValueTable, scoringOf: ValueTable) returns (r: seq<Card>)
    ensures r == deck + WildRun(4, |deck|, sortingOf, scoringOf)
  {
    r := deck;
    for k := 0 to 4
      invariant r == deck + WildRun(k, |deck|, sortingOf, scoringOf)
    {
      r := r + [NewCard(|r|, Wild, NoFace, sortingOf, scoringOf)];
      r := r + [NewCard(|r|, Wild, Draw4, sortingOf, scoringOf)];
    }
  }

  /** Build the deck, colour by colour. */
  method GenerateUnoDeck(sortingOf: ValueTable, scoringOf: ValueTable) returns (deck: seq<Card>)
    ensures deck == UnoDeck(sortingOf, scoringOf)
    ensures |deck| == 132
    ensures forall j :: 0 <= j < |deck| ==> deck[j].id == j
  {
    deck := [];
    for i := 0 to NumberOfColors
      invariant deck == DeckPrefix(i, sortingOf, scoringOf)
    {
      var color := ColorOfOrdinal(i);
      if color != Wild {
        deck := AddColorCards(deck, color, sortingOf, scoringOf);
      } else {
        deck := AddWildCards(deck, sortingOf, scoringOf);
      }
    }
    DeckPrefixIds(NumberOfColors, sortingOf, scoringOf);
  }
}
