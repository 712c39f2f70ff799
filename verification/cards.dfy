/** Card values shared by every part of the rule engine.

    The card class itself is not part of this model: a card is an immutable
    value carrying its colour, its face and the two numbers the engine reads
    from it (the sorting key that keeps a hand ordered and the points it is
    worth under official scoring). The tables behind those two numbers are
    not modelled; they travel with the card. `id` stands for the identity of
    the card object: two cards with the same colour and face are still
    different cards. */
module Cards {

  /** The four playable colours, in enum order, and Wild last. */
  datatype Color = Red | Yellow | Green | Blue | Wild

  /** Number of colours in the enum, Wild included. */
  const NumberOfColors: int := 5

  type Digit = d: int | 0 <= d <= 9

  /** Card faces: the digits, the action faces, Draw4 and the face of a
      plain Wild. */
  datatype Face =
    | Number(digit: Digit)
    | Skip
    | Reverse
    | Draw2
    | RandomDraw
    | SkipAll
    | TNT
    | Draw4
    | NoFace

  datatype Card = Card(id: nat, color: Color, face: Face, sortingValue: int, scoringValue: int)

  /** Colour with the given enum ordinal. */
  function ColorOfOrdinal(i: int): (c: Color)
    requires 0 <= i < NumberOfColors
    ensures c == Wild <==> i == NumberOfColors - 1
    ensures ColorOrdinal(c) == i
  {
    if i == 0 then Red
    else if i == 1 then Yellow
    else if i == 2 then Green
    else if i == 3 then Blue
    else Wild
  }

  function ColorOrdinal(c: Color): (i: int)
    ensures 0 <= i < NumberOfColors
    ensures i == NumberOfColors - 1 <==> c == Wild
  {
    match c
    case Red => 0
    case Yellow => 1
    case Green => 2
    case Blue => 3
    case Wild => 4
  }

  /** Face with the given enum ordinal, for the sixteen ordinals the deck
      builder enumerates: the digits, then the six action faces. */
  function FaceOfOrdinal(k: int): (f: Face)
    requires 0 <= k < 16
    ensures k < 10 <==> f.Number?
    ensures k < 10 ==> f.digit == k
    ensures f != Draw4 && f != NoFace
  {
    if k < 10 then Number(k)
    else if k == 10 then Skip
    else if k == 11 then Reverse
    else if k == 12 then Draw2
    else if k == 13 then RandomDraw
    else if k == 14 then SkipAll
    else TNT
  }

  /** Enum ordinal of a face: the sixteen faces the deck builder
      enumerates come first, Draw4 and the plain-Wild face after them. */
  function FaceOrdinal(f: Face): (k: int)
    ensures 0 <= k < 18
    ensures k < 16 ==> FaceOfOrdinal(k) == f
    ensures k >= 16 <==> f == Draw4 || f == NoFace
  {
    match f
    case Number(d) => d
    case Skip => 10
    case Reverse => 11
    case Draw2 => 12
    case RandomDraw => 13
    case SkipAll => 14
    case TNT => 15
    case Draw4 => 16
    case NoFace => 17
  }

  lemma FaceOrdinalRoundTrip(k: int)
    requires 0 <= k < 16
    ensures FaceOrdinal(FaceOfOrdinal(k)) == k
  {
  }

  /** Face ordinal k names face f exactly when f has ordinal k. */
  lemma FaceOfOrdinalMatches(k: int, f: Face)
    requires 0 <= k < 16
    ensures FaceOfOrdinal(k) == f <==> FaceOrdinal(f) == k
  {
    FaceOrdinalRoundTrip(k);
  }

  lemma ColorOrdinalRoundTrip(c: Color)
    ensures ColorOfOrdinal(ColorOrdinal(c)) == c
  {
  }
}
