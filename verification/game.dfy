/** The state of one round: who plays, the deck, the discard pile, every
    player's hand and counters, the current seat, the direction and the
    colour chosen for the last Wild.

    The per-round record of a player is a value; the game holds one per
    seat, in seating order, and the rule engine replaces a seat's record
    when it changes a hand or a counter. */
module GameState {
  import opened Cards
  import opened Seats

  /** Most players a game can seat. */
  const MaxPlayers: int := 4

  datatype PlayerType = Human | Computer | SmartComputer

  /** A participant; `score` is the running total over rounds. */
  datatype Player = Player(name: string, kind: PlayerType, score: int)

  datatype ScoringSystem = Basic | Official

  datatype GameOptions = GameOptions(
    cardsForEachPlayer: int,
    allowDraw4Always: bool,
    swapHandsWith0: bool,
    swapHandsWith7: bool,
    enableTeams: bool,
    stopPlayingAfterFirst: bool,
    scoringSystem: ScoringSystem)

  /** Per-round record of a player: the hand, the round score, the
      statistics and the finishing rank (-1 while still playing). */
  datatype GamePlayer = GamePlayer(
    cards: seq<Card>,
    score: int,
    cardsPickedUp: int,
    cardsPlayed: int,
    turns: int,
    finishRank: int)
  {
    /** Out of the round: no cards left, or already ranked. */
    predicate Finished()
    {
      |cards| <= 0 || finishRank >= 0
    }
  }

  /** The record a player starts the round with. */
  function NewGamePlayer(): (g: GamePlayer)
    ensures g.cards == [] && g.score == 0 && g.finishRank == -1
    ensures g.cardsPickedUp == 0 && g.cardsPlayed == 0 && g.turns == 0
    ensures g.Finished()
  {
    GamePlayer([], 0, 0, 0, 0, -1)
  }

  function CountFinished(gps: seq<GamePlayer>): (n: nat)
    ensures n <= |gps|
  {
    if gps == [] then 0 else (if gps[0].Finished() then 1 else 0) + CountFinished(gps[1..])
  }

  function CountPlaying(gps: seq<GamePlayer>): (n: nat)
    ensures n <= |gps|
  {
    if gps == [] then 0 else (if gps[0].Finished() then 0 else 1) + CountPlaying(gps[1..])
  }

  /** Every seat is either finished or still playing. */
  lemma {:induction false} FinishedPlusPlaying(gps: seq<GamePlayer>)
    ensures CountFinished(gps) + CountPlaying(gps) == |gps|
  {
    if gps != [] {
      FinishedPlusPlaying(gps[1..]);
    }
  }

  predicate AllFinished(gps: seq<GamePlayer>)
  {
    forall i :: 0 <= i < |gps| ==> gps[i].Finished()
  }

  /** Nobody is playing exactly when everybody is finished. */
  lemma {:induction false} NonePlayingIffAllFinished(gps: seq<GamePlayer>)
    ensures CountPlaying(gps) == 0 <==> AllFinished(gps)
  {
    if gps != [] {
      NonePlayingIffAllFinished(gps[1..]);
      if AllFinished(gps[1..]) && gps[0].Finished() {
        forall i | 0 <= i < |gps| ensures gps[i].Finished() {
          if i > 0 { assert gps[i] == gps[1..][i - 1]; }
        }
      }
      if AllFinished(gps) {
        forall i | 0 <= i < |gps| - 1 ensures gps[1..][i].Finished() {
          assert gps[1..][i] == gps[i + 1];
        }
      }
    }
  }

  /** Replacing one seat's record changes the playing count by what that
      seat contributed before and after. */
  lemma {:induction false} CountPlayingUpdate(gps: seq<GamePlayer>, i: nat, g: GamePlayer)
    requires i < |gps|
    ensures CountPlaying(gps[i := g]) + (if gps[i].Finished() then 0 else 1)
            == CountPlaying(gps) + (if g.Finished() then 0 else 1)
  {
    if i > 0 {
      assert gps[i := g][1..] == gps[1..][i - 1 := g];
      CountPlayingUpdate(gps[1..], i - 1, g);
    } else {
      assert gps[i := g][1..] == gps[1..];
    }
  }

  /** Replacing a seat's record by one that is finished exactly when the
      old one was keeps all the counts. */
  lemma StatusesKept(gps: seq<GamePlayer>, i: nat, g: GamePlayer)
    requires i < |gps| && g.Finished() == gps[i].Finished()
    ensures CountPlaying(gps[i := g]) == CountPlaying(gps)
    ensures CountFinished(gps[i := g]) == CountFinished(gps)
    ensures AllFinished(gps[i := g]) == AllFinished(gps)
  {
    CountPlayingUpdate(gps, i, g);
    FinishedPlusPlaying(gps);
    FinishedPlusPlaying(gps[i := g]);
    NonePlayingIffAllFinished(gps);
    NonePlayingIffAllFinished(gps[i := g]);
  }

  /** A finished seat is counted among the finished ones. */
  lemma {:induction false} FinishedSeatCounted(gps: seq<GamePlayer>, i: nat)
    requires i < |gps| && gps[i].Finished()
    ensures CountFinished(gps) >= 1
  {
    if i > 0 {
      FinishedSeatCounted(gps[1..], i - 1);
    }
  }

  lemma PlayingSeatExists(gps: seq<GamePlayer>) returns (u: nat)
    requires CountPlaying(gps) > 0
    ensures u < |gps| && !gps[u].Finished()
  {
    NonePlayingIffAllFinished(gps);
    u :| 0 <= u < |gps| && !gps[u].Finished();
  }

  /** If more seats are playing than seat i accounts for, another seat is
      playing. */
  lemma OtherPlayingSeatExists(gps: seq<GamePlayer>, i: nat) returns (u: nat)
    requires i < |gps|
    requires CountPlaying(gps) > (if gps[i].Finished() then 0 else 1)
    ensures u < |gps| && u != i && !gps[u].Finished()
  {
    var out := gps[i].(cards := []);
    CountPlayingUpdate(gps, i, out);
    u := PlayingSeatExists(gps[i := out]);
  }

  /** All the cards held by the seats, as a multiset. */
  function Hands(gps: seq<GamePlayer>): multiset<Card>
  {
    if gps == [] then multiset{} else multiset(gps[0].cards) + Hands(gps[1..])
  }

  lemma {:induction false} HandsUpdate(gps: seq<GamePlayer>, i: nat, g: GamePlayer)
    requires i < |gps|
    ensures Hands(gps[i := g]) + multiset(gps[i].cards) == Hands(gps) + multiset(g.cards)
  {
    var gps' := gps[i := g];
    assert Hands(gps') == multiset(gps'[0].cards) + Hands(gps'[1..]);
    assert Hands(gps) == multiset(gps[0].cards) + Hands(gps[1..]);
    if i > 0 {
      assert gps'[1..] == gps[1..][i - 1 := g];
      assert gps'[0] == gps[0];
      assert gps[1..][i - 1] == gps[i];
      HandsUpdate(gps[1..], i - 1, g);
      calc {
        Hands(gps') + multiset(gps[i].cards);
        multiset(gps[0].cards) + (Hands(gps'[1..]) + multiset(gps[i].cards));
        multiset(gps[0].cards) + (Hands(gps[1..]) + multiset(g.cards));
        Hands(gps) + multiset(g.cards);
      }
    } else {
      assert gps'[1..] == gps[1..];
      assert gps'[0] == g;
    }
  }

  /** Changing a seat's record but not its cards keeps every card. */
  lemma HandsSameCards(gps: seq<GamePlayer>, i: nat, g: GamePlayer)
    requires i < |gps| && g.cards == gps[i].cards
    ensures Hands(gps[i := g]) == Hands(gps)
  {
    HandsUpdate(gps, i, g);
    forall c ensures Hands(gps[i := g])[c] == Hands(gps)[c] {
      assert (Hands(gps[i := g]) + multiset(g.cards))[c] == (Hands(gps) + multiset(g.cards))[c];
    }
  }

  /** Exchanging the hands of two seats keeps every card. */
  lemma HandsSwap(gps: seq<GamePlayer>, i: nat, j: nat)
    requires i < |gps| && j < |gps|
    ensures Hands(gps[i := gps[i].(cards := gps[j].cards)][j := gps[j].(cards := gps[i].cards)]) == Hands(gps)
  {
    var g1 := gps[i := gps[i].(cards := gps[j].cards)];
    HandsUpdate(gps, i, gps[i].(cards := gps[j].cards));
    HandsUpdate(g1, j, gps[j].(cards := gps[i].cards));
    var g2 := g1[j := gps[j].(cards := gps[i].cards)];
    assert g1[j].cards == gps[j].cards;
    assert Hands(g2) + multiset(gps[j].cards) == Hands(gps) + multiset(gps[j].cards);
    forall c ensures Hands(g2)[c] == Hands(gps)[c] {
      assert (Hands(g2) + multiset(gps[j].cards))[c] == (Hands(gps) + multiset(gps[j].cards))[c];
    }
  }

  /** Least number of steps from seat i to a playing seat (counting from
      d), or |gps| + 1 when no seat within the first turn round plays. */
  function FirstPlaying(gps: seq<GamePlayer>, i: int, up: bool, d: nat): (r: nat)
    requires 0 <= i < |gps| && 1 <= d
    ensures d <= r <= |gps| + 1 || r == d
    decreases |gps| + 1 - d
  {
    if d > |gps| then d
    else if !gps[SeatAfter(i, d, |gps|, up)].Finished() then d
    else FirstPlaying(gps, i, up, d + 1)
  }

  /** Steps from seat i to the next playing seat in the given direction. */
  function Distance(gps: seq<GamePlayer>, i: int, up: bool): nat
    requires 0 <= i < |gps|
  {
    FirstPlaying(gps, i, up, 1)
  }

  lemma {:induction false} FirstPlayingFound(gps: seq<GamePlayer>, i: int, up: bool, d: nat, d0: nat)
    requires 0 <= i < |gps| && 1 <= d <= d0 <= |gps|
    requires !gps[SeatAfter(i, d0, |gps|, up)].Finished()
    ensures FirstPlaying(gps, i, up, d) <= d0
    ensures !gps[SeatAfter(i, FirstPlaying(gps, i, up, d), |gps|, up)].Finished()
    decreases d0 - d
  {
    if gps[SeatAfter(i, d, |gps|, up)].Finished() {
      FirstPlayingFound(gps, i, up, d + 1, d0);
    }
  }

  /** While some seat plays, the search from any seat ends within one
      turn round the table, at a playing seat. */
  lemma DistanceFound(gps: seq<GamePlayer>, i: int, up: bool)
    requires 0 <= i < |gps| && CountPlaying(gps) > 0
    ensures 1 <= Distance(gps, i, up) <= |gps|
    ensures !gps[SeatAfter(i, Distance(gps, i, up), |gps|, up)].Finished()
  {
    var u := PlayingSeatExists(gps);
    var d0 := SeatReached(i, u, |gps|, up);
    FirstPlayingFound(gps, i, up, 1, d0);
  }

  /** The next playing seat after seat i. */
  function NextPlaying(gps: seq<GamePlayer>, i: int, up: bool): (r: int)
    requires 0 <= i < |gps| && CountPlaying(gps) > 0
    ensures 0 <= r < |gps| && !gps[r].Finished()
  {
    DistanceFound(gps, i, up);
    SeatAfter(i, Distance(gps, i, up), |gps|, up)
  }

  /** A playing seat k steps away bounds the distance to the next one. */
  lemma DistanceAtMost(gps: seq<GamePlayer>, i: int, up: bool, k: nat)
    requires 0 <= i < |gps| && 1 <= k <= |gps|
    requires !gps[SeatAfter(i, k, |gps|, up)].Finished()
    ensures Distance(gps, i, up) <= k
  {
    FirstPlayingFound(gps, i, up, 1, k);
  }

  /** Searching from seat i, one step further, is searching from the seat
      after i, as long as the search ends before a full turn round. */
  lemma {:induction false} FirstPlayingShift(gps: seq<GamePlayer>, i: int, up: bool, d: nat)
    requires 0 <= i < |gps| && 1 <= d
    requires FirstPlaying(gps, NextSeat(i, |gps|, up), up, d) < |gps|
    ensures FirstPlaying(gps, i, up, d + 1) == FirstPlaying(gps, NextSeat(i, |gps|, up), up, d) + 1
    decreases |gps| + 1 - d
  {
    var n := |gps|;
    var j := NextSeat(i, n, up);
    SeatAfterShift(i, d, n, up);
    if gps[SeatAfter(j, d, n, up)].Finished() {
      FirstPlayingShift(gps, i, up, d + 1);
    }
  }

  /** Stepping onto a finished seat puts the next playing seat one step
      closer. */
  lemma DistancePastFinished(gps: seq<GamePlayer>, i: int, up: bool)
    requires 0 <= i < |gps| && CountPlaying(gps) > 0
    requires gps[NextSeat(i, |gps|, up)].Finished()
    ensures Distance(gps, i, up) == Distance(gps, NextSeat(i, |gps|, up), up) + 1
  {
    var n := |gps|;
    var j := NextSeat(i, n, up);
    FinishedSeatIsPassed(gps, j, up);
    FirstPlayingShift(gps, i, up, 1);
    assert SeatAfter(i, 1, n, up) == j;
  }

  /** From a finished seat, the next playing seat is less than a full turn
      round away. */
  lemma FinishedSeatIsPassed(gps: seq<GamePlayer>, j: int, up: bool)
    requires 0 <= j < |gps| && CountPlaying(gps) > 0 && gps[j].Finished()
    ensures Distance(gps, j, up) < |gps|
  {
    DistanceFound(gps, j, up);
    SeatAfterClosedForm(j, |gps|, |gps|, up);
  }

  /** Stepping onto a finished seat does not change which seat plays next,
      and brings it one step closer: the measure that makes turn
      advancement end. */
  lemma NextPlayingPastFinished(gps: seq<GamePlayer>, i: int, up: bool)
    requires 0 <= i < |gps| && CountPlaying(gps) > 0
    requires gps[NextSeat(i, |gps|, up)].Finished()
    ensures NextPlaying(gps, NextSeat(i, |gps|, up), up) == NextPlaying(gps, i, up)
    ensures Distance(gps, NextSeat(i, |gps|, up), up) < Distance(gps, i, up)
  {
    var n := |gps|;
    var j := NextSeat(i, n, up);
    var d := Distance(gps, j, up);
    DistancePastFinished(gps, i, up);
    SeatAfterShift(i, d, n, up);
    assert NextPlaying(gps, j, up) == SeatAfter(j, d, n, up);
    assert NextPlaying(gps, i, up) == SeatAfter(i, d + 1, n, up);
  }

  /** While another seat plays, the next playing seat is not seat i
      itself, and is found before a full turn round. */
  lemma NextPlayingNotSelf(gps: seq<GamePlayer>, i: int, up: bool)
    requires 0 <= i < |gps|
    requires CountPlaying(gps) > (if gps[i].Finished() then 0 else 1)
    ensures Distance(gps, i, up) < |gps|
    ensures NextPlaying(gps, i, up) != i
  {
    var n := |gps|;
    var u := OtherPlayingSeatExists(gps, i);
    var d := SeatReached(i, u, n, up);
    SeatAfterClosedForm(i, d, n, up);
    DistanceAtMost(gps, i, up, d);
    DistanceFound(gps, i, up);
    SeatAfterClosedForm(i, Distance(gps, i, up), n, up);
  }

  /** The search from seat i never looks at seat i itself before the full
      turn round, so changing only seat i keeps the next playing seat,
      unless seat i was the only one playing. */
  lemma {:induction false} FirstPlayingIgnoresStart(gps: seq<GamePlayer>, gps': seq<GamePlayer>, i: int, up: bool, d: nat)
    requires 0 <= i < |gps| == |gps'| && 1 <= d
    requires forall k :: 0 <= k < |gps| && k != i ==> gps'[k] == gps[k]
    requires FirstPlaying(gps, i, up, d) < |gps| || gps'[i].Finished() == gps[i].Finished()
    ensures FirstPlaying(gps', i, up, d) == FirstPlaying(gps, i, up, d)
    decreases |gps| + 1 - d
  {
    var n := |gps|;
    if d <= n {
      var s := SeatAfter(i, d, n, up);
      if d < n {
        SeatAfterClosedForm(i, d, n, up);
        assert s != i;
      } else {
        SeatAfterClosedForm(i, d, n, up);
        assert s == i;
      }
      if gps[s].Finished() {
        FirstPlayingIgnoresStart(gps, gps', i, up, d + 1);
      }
    }
  }

  /** Whether a round with these seats is over under these options. */
  function RoundFinished(options: GameOptions, gps: seq<GamePlayer>): (b: bool)
    ensures b <==> (options.stopPlayingAfterFirst && CountFinished(gps) > 0) || CountPlaying(gps) == 0
  {
    NonePlayingIffAllFinished(gps);
    if options.stopPlayingAfterFirst && CountFinished(gps) > 0 then true
    else AllFinished(gps)
  }

  class Game {
    var players: seq<Player>
    const options: GameOptions
    var gamePlayers: seq<GamePlayer>
    /** Cards still to be drawn; the head is drawn next. */
    var deck: seq<Card>
    /** Played cards; the last one is the card in play. */
    var discardPile: seq<Card>
    var currentPlayerIndex: int
    var reverse: bool
    var wildColor: Color

    ghost predicate Valid()
      reads this`players, this`gamePlayers, this`currentPlayerIndex
    {
      1 <= |players| && |gamePlayers| == |players| && 0 <= currentPlayerIndex < |players|
    }

    /** Every card of the round, wherever it is. */
    ghost function AllCards(): multiset<Card>
      reads this`deck, this`discardPile, this`gamePlayers
    {
      multiset(deck) + multiset(discardPile) + Hands(gamePlayers)
    }

    /** One record per player, each starting empty, at zero and unranked. */
    constructor (gamePlayersIn: seq<Player>, gameOptions: GameOptions)
      ensures players == gamePlayersIn && options == gameOptions
      ensures |gamePlayers| == |players|
      ensures forall i :: 0 <= i < |gamePlayers| ==> gamePlayers[i] == NewGamePlayer()
      ensures deck == [] && discardPile == []
      ensures currentPlayerIndex == 0 && !reverse && wildColor == Wild
      ensures |players| >= 1 ==> Valid()
    {
      players := gamePlayersIn;
      options := gameOptions;
      gamePlayers := seq(|gamePlayersIn|, _ => NewGamePlayer());
      deck := [];
      discardPile := [];
      currentPlayerIndex := 0;
      reverse := false;
      wildColor := Wild;
    }

    function NumberOfPlayers(): nat
      reads this`players
    {
      |players|
    }

    function CurrentPlayer(): (p: Player)
      reads this`players, this`gamePlayers, this`currentPlayerIndex
      requires Valid()
      ensures p == players[currentPlayerIndex]
    {
      players[currentPlayerIndex]
    }

    function CurrentGamePlayer(): (g: GamePlayer)
      reads this`players, this`gamePlayers, this`currentPlayerIndex
      requires Valid()
      ensures g == gamePlayers[currentPlayerIndex]
    {
      gamePlayers[currentPlayerIndex]
    }

    function CurrentCard(): Card
      reads this`discardPile
      requires discardPile != []
    {
      discardPile[|discardPile| - 1]
    }

    /** The colour to match: the chosen colour while a Wild is in play,
        else the colour of the card in play. */
    function CurrentColor(): (c: Color)
      reads this`discardPile, this`wildColor
      requires discardPile != []
      ensures CurrentCard().color != Wild ==> c == CurrentCard().color
      ensures CurrentCard().color == Wild ==> c == wildColor
      ensures c == Wild ==> CurrentCard().color == Wild
    {
      if CurrentCard().color == Wild then wildColor else CurrentCard().color
    }

    /** The face to match: always the face of the card in play. */
    function CurrentFace(): Face
      reads this`discardPile
      requires discardPile != []
    {
      CurrentCard().face
    }

    function NumberOfFinishedPlayers(): nat
      reads this`gamePlayers
    {
      CountFinished(gamePlayers)
    }

    function NumberOfPlayingPlayers(): nat
      reads this`gamePlayers
    {
      CountPlaying(gamePlayers)
    }

    /** The round is over when stopping after the first finisher and
        someone has finished, or when nobody is left playing. */
    function Finished(): (b: bool)
      reads this`gamePlayers
      ensures b <==> (options.stopPlayingAfterFirst && NumberOfFinishedPlayers() > 0)
                     || NumberOfPlayingPlayers() == 0
      ensures !b ==> NumberOfPlayingPlayers() > 0
    {
      RoundFinished(options, gamePlayers)
    }
  }
}
