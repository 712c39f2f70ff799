# Uno rule engine in Dafny

This project models the rule engine of a desktop Uno game. It covers
the `GameController` that runs a game and the `Game` state it acts on.

The model follows the engine through a whole round:

- It builds the 132-card deck and shuffles it. It deals the hands,
  turns up a first card that is not a wild card, and then sorts the
  hands.
- It judges whether a card may be played (`CardPlayStatus`).
- It plays a card and carries out the card's action: draw two, draw
  four, skip, skip everyone, reverse, TNT, random draw, and the hand
  swaps on a 0 or a 7.
- It passes the turn to the next seat that is still playing. On the
  way it makes players draw the cards that are owed, and it refills the
  deck from the discard pile when the deck runs out.
- It plays a computer seat's move, with both the basic strategy and
  the smart one.
- It scores the round under the basic and the official systems.
- It gives each finishing place its word on the results view.

The model is in these modules:

- `Cards` holds colours, faces and cards, and the ordinals that convert
  between them.
- `Seats` holds seat arithmetic: which way play moves, and the next
  seat.
- `GameState` holds players, their per-round records (`GamePlayer`),
  and the `Game` class. That class holds the deck, the discard pile,
  the current seat, the direction and the wild colour.
- `Sorting` holds the in-place insertion sort of a hand. It is proved
  against a functional insertion sort.
- `Shuffle` holds the in-place shuffle of a list, driven by a given
  sequence of random picks.
- `Deck` holds the standard deck as the engine generates it.
- `Rules` holds the pure rules: play status, insertion point, the TNT
  pickup, scoring, and the computer's candidate cards.
- `Controller` holds the `GameController` class and the value-level
  steps it is built from.
- `SortedPlayerView` holds the ordinal words of the results view.

Several things the engine takes from outside are parameters of the
model:

- **Random numbers.** A `RandomSource` object hands out the next value
  of a given stream.
- **Dialog answers.** A human's wild colour and hand-swap target arrive
  as `HumanChoices`.
- **Card value tables.** The sorting and scoring values of each
  colour/face pair are `ValueTable`s.

Each `GameController` method states what it does to the game. The
methods that move cards between the deck, the pile and the hands also
state that they keep `Valid()` and the game's total multiset of cards
(`Game.AllCards`: deck, discard pile and all hands). These are the
methods that pick up, draw, play, swap hands, deal, turn up the first
card and move the turn on. The other methods state less:

- `RemoveFromDiscardPile` takes cards off the pile by design.
- `PrepareDeck` replaces the deck with a shuffled standard deck.
- `ShuffleDeck` states that the deck is a permutation of the old one.
- `DiscardPileToDeck` states that the deck and the pile together keep
  their cards.
- `Reverse` only flips the direction.
- `EndGame` and `VerdictAndWildColor` keep `Valid()`. They change only
  scores or the wild colour, and they state that change exactly.
- The queries, such as `CanPlayCardStatus`, `FindPlayable` and
  `SevenSwapTarget`, leave the game unchanged. `ChooseCard`,
  `SmartWildColor` and `PickUp` do too: the first two only draw random
  numbers, and `PickUp` works on values.

The deck, the pile and the hands are values in the `Game` object and
are reassigned in place.

## Model

| member | source | states |
|---|---|---|
| Cards.ColorOfOrdinal | Uno/GameController.cs:218-222 | the colour of an ordinal; only the last ordinal is Wild, and it inverts `ColorOrdinal` |
| Cards.ColorOrdinal | Uno/GameController.cs:1163-1167 | colour ordinals lie in 0..4, and Wild is the last |
| Cards.FaceOfOrdinal | Uno/GameController.cs:1171-1178 | ordinals 0-9 are the number faces with that digit; no ordinal below 16 gives Draw4 or None |
| Cards.FaceOrdinal | Uno/GameController.cs:1171-1178 | every face has an ordinal below 18; the 16 coloured faces round-trip; only Draw4 and None are at 16 or above |
| Cards.FaceOrdinalRoundTrip | Uno/GameController.cs:1171-1178 | ordinal → face → ordinal is the identity on the coloured faces |
| Cards.FaceOfOrdinalMatches | Uno/GameController.cs:1171-1178 | a coloured face ordinal names a face exactly when the face has that ordinal |
| Cards.ColorOrdinalRoundTrip | Uno/GameController.cs:1163-1167 | colour → ordinal → colour is the identity |
| Seats.MovesUp | Uno/GameController.cs:485-505 | whether play moves up the seats; its properties are `MovesUpCharacterised` |
| Seats.MovesUpCharacterised | Uno/GameController.cs:485-505 | play moves up exactly when the reverse argument equals the game's reverse flag; flipping either one flips the direction |
| Seats.NextSeat | Uno/GameController.cs:485-505 | the next seat is in range and wraps from the last seat to 0 going up, and from 0 to the last seat going down |
| Seats.NextSeatInverse | Uno/GameController.cs:485-505 | one step in one direction and one step back return to the same seat |
| Seats.SeatAfter | Uno/GameController.cs:507-515 | d steps from a seat stay in range |
| Seats.SeatAfterShift | Uno/GameController.cs:507-515 | one step and then d steps is d+1 steps |
| Seats.SeatAfterClosedForm | Uno/GameController.cs:507-515 | d steps (d ≤ the seat count) is i+d or i−d wrapped once |
| Seats.SeatReached | Uno/GameController.cs:507-515 | every seat is reached from every seat within one lap, in either direction |
| GameState.NewGamePlayer | Backup/Uno/Game.cs:461-464 | a new record has no cards, zero counters and no rank, and so counts as finished |
| GameState.CountFinished | Backup/Uno/Game.cs:270-285 | at most one finished seat per seat |
| GameState.CountPlaying | Backup/Uno/Game.cs:290-305 | at most one playing seat per seat |
| GameState.FinishedPlusPlaying | Backup/Uno/Game.cs:270-305 | each seat is counted exactly once, as finished or as playing |
| GameState.NonePlayingIffAllFinished | Backup/Uno/Game.cs:290-305 | no seat is playing if and only if every seat has finished |
| GameState.CountPlayingUpdate | Backup/Uno/Game.cs:290-305 | replacing one seat changes the playing count only by that seat's change of status |
| GameState.StatusesKept | Backup/Uno/Game.cs:270-305 | a seat replaced with the same status leaves both counts and "all finished" as they were |
| GameState.FinishedSeatCounted | Backup/Uno/Game.cs:270-285 | a finished seat makes the finished count at least one |
| GameState.PlayingSeatExists | Backup/Uno/Game.cs:290-305 | a positive playing count has a witness seat |
| GameState.OtherPlayingSeatExists | Backup/Uno/Game.cs:290-305 | if more seats play than the given one, some other seat is playing |
| GameState.HandsUpdate | Backup/Uno/Game.cs:339-351 | replacing a seat's hand changes the multiset of all hands by exactly the old and new hands |
| GameState.HandsSameCards | Backup/Uno/Game.cs:339-351 | a seat change that keeps the cards keeps all hands |
| GameState.HandsSwap | Uno/GameController.cs:1046-1057 | exchanging two seats' hands keeps the multiset of all hands |
| GameState.FirstPlaying | Uno/GameController.cs:507-515 | the search distance never falls below its start and stops by one past a full lap |
| GameState.FirstPlayingFound | Uno/GameController.cs:507-515 | if a playing seat lies d0 steps on, the search stops by d0 at a playing seat |
| GameState.DistanceFound | Uno/GameController.cs:507-515 | with someone playing, the next playing seat is 1 to n steps on and is playing |
| GameState.NextPlaying | Uno/GameController.cs:507-515 | the seat found is in range and still playing |
| GameState.DistanceAtMost | Uno/GameController.cs:507-515 | the distance is at most that of any playing seat |
| GameState.FirstPlayingShift | Uno/GameController.cs:507-515 | searching from the next seat finds the same seat, one step closer |
| GameState.DistancePastFinished | Uno/GameController.cs:507-515 | stepping onto a finished seat shortens the distance by one |
| GameState.FinishedSeatIsPassed | Uno/GameController.cs:507-515 | from a finished seat the next playing seat is less than a lap away |
| GameState.NextPlayingPastFinished | Uno/GameController.cs:507-515 | stepping over a finished seat leads to the same next playing seat, at a smaller distance |
| GameState.NextPlayingNotSelf | Uno/GameController.cs:507-515 | when another seat plays, the next playing seat is a different seat |
| GameState.FirstPlayingIgnoresStart | Uno/GameController.cs:527-579 | the search does not depend on the starting seat's record, except through its status at the end of a lap |
| GameState.Game.constructor | Backup/Uno/Game.cs:339-351 | one empty record per player, empty deck and pile, seat 0, forward, no wild colour; valid when there is a player |
| GameState.Game.CurrentPlayer | Backup/Uno/Game.cs:154-157 | the player at the current seat |
| GameState.Game.CurrentCard | Backup/Uno/Game.cs:179-182 | the last card of the discard pile |
| GameState.Game.CurrentFace | Backup/Uno/Game.cs:212-218 | the face of the last card of the discard pile |
| GameState.Game.NumberOfFinishedPlayers | Backup/Uno/Game.cs:270-285 | the number of seats that have finished (`CountFinished`) |
| GameState.Game.NumberOfPlayingPlayers | Backup/Uno/Game.cs:290-305 | the number of seats still playing (`CountPlaying`) |
| GameState.Game.CurrentGamePlayer | Backup/Uno/Game.cs:162-165 | the record at the current seat |
| GameState.Game.CurrentColor | Backup/Uno/Game.cs:193-207 | the top card's colour, or the chosen wild colour when the top card is wild; it is Wild only if the top card is |
| GameState.Game.Finished | Backup/Uno/Game.cs:233-256 | the game is over if and only if nobody is playing, or someone has finished under stop-after-first; while it runs someone is playing |
| GameState.RoundFinished | Backup/Uno/Game.cs:233-256 | the seats end the round exactly when someone has finished under stop-after-first, or nobody is playing |
| Sorting.WithValue | Uno/GameController.cs:1136-1149 | the cards of one sorting value, in their order, are drawn from the sequence |
| Sorting.Insert | Uno/GameController.cs:1142-1147 | one pass of the outer loop: the card goes in after every card of a value not above its own; its properties are `InsertPermutes`, `InsertKeepsSorted` and `InsertStable` |
| Sorting.InsertionSort | Uno/GameController.cs:1136-1149 | the insertion sort of a hand; its properties are `InsertionSortCorrect` and `InsertionSortStable` |
| Sorting.AppendCommutesPastEmpty | Uno/GameController.cs:1142-1147 | inserting into the empty prefix of a hand and appending the rest is inserting into the whole hand, when nothing in the rest is below the card |
| Sorting.InsertPermutes | Uno/GameController.cs:1142-1147 | inserting one card adds exactly that card |
| Sorting.InsertKeepsSorted | Uno/GameController.cs:1142-1147 | inserting into a sorted hand keeps it sorted, one card longer, with nothing new but the card |
| Sorting.InsertStable | Uno/GameController.cs:1142-1147 | insertion does not reorder cards of equal value, and puts the new card after them |
| Sorting.InsertionSortCorrect | Uno/GameController.cs:1136-1149 | the sorted hand is ordered and a permutation of the hand |
| Sorting.InsertionSortStable | Uno/GameController.cs:1136-1149 | sorting keeps cards of equal value in their original order |
| Sorting.InsertSplit | Uno/GameController.cs:1142-1147 | insertion only touches the part of the hand up to the last card not above the new one |
| Sorting.SortedLastIsGreatest | Uno/GameController.cs:933-943 | the last card of a sorted hand has the greatest value |
| Sorting.WithValueSnoc | Uno/GameController.cs:1136-1149 | appending a card adds it to the cards of its own sorting value only |
| Sorting.SinkStep | Uno/GameController.cs:1142-1147 | one swap of the inner loop moves the card being inserted one place to the left |
| Sorting.SinkDone | Uno/GameController.cs:1142-1147 | where the inner loop stops, the prefix is the card inserted into the sorted part and the rest is untouched |
| Sorting.SinkCard | Uno/GameController.cs:1142-1147 | the inner loop leaves the first i+1 cards as card i inserted into the first i, and the rest as they were |
| Sorting.SortCards | Uno/GameController.cs:1136-1149 | the array ends as the insertion sort of its old contents |
| Shuffle.Swap | Uno/GameController.cs:1119-1124 | the list keeps its length |
| Shuffle.SwapExchanges | Uno/GameController.cs:1119-1124 | the two positions exchange their cards and every other position keeps its card |
| Shuffle.SwapPermutes | Uno/GameController.cs:1119-1124 | a swap is a permutation |
| Shuffle.Shuffled | Uno/GameController.cs:1111-1127 | the list after the whole shuffle with the given picks; its properties are `ShuffledPermutes` and `ShuffleList` |
| Shuffle.ShuffleBelowPermutes | Uno/GameController.cs:1111-1127 | the first i shuffle steps permute the list and keep its length |
| Shuffle.ShuffledPermutes | Uno/GameController.cs:1111-1127 | a shuffle is a permutation |
| Shuffle.ShuffleList | Uno/GameController.cs:1111-1127 | the array ends as the shuffle its picks determine, a permutation of its old contents |
| Deck.ColorRun | Uno/GameController.cs:1171-1178 | one colour's run has one card for face 0 and two for every other face |
| Deck.UnoDeck | Uno/GameController.cs:1157-1197 | the deck the engine generates; its contents are `UnoDeckContents` |
| Deck.ColorRunIds | Uno/GameController.cs:1171-1178 | the ids of a colour's run count up from the base |
| Deck.FaceCards | Uno/GameController.cs:1172-1177 | one step of a colour's loop makes one card for face 0 and two for every other face |
| Deck.FaceCardsCount | Uno/GameController.cs:1172-1177 | one step makes the prescribed copies of its own colour and face, and nothing else |
| Deck.WildRun | Uno/GameController.cs:1185-1189 | the wild run has two cards per step |
| Deck.WildRunIds | Uno/GameController.cs:1185-1189 | the ids of the wild run count up from the base |
| Deck.DeckPrefix | Uno/GameController.cs:1157-1197 | after i colours the deck holds 31 cards per colour, plus the 8 wild cards at the end |
| Deck.DeckPrefixIds | Uno/GameController.cs:1157-1197 | the card at each position of the deck has that position as its id |
| Deck.CountOf | Uno/GameController.cs:1157-1197 | a count never exceeds the length |
| Deck.CountOfAppend | Uno/GameController.cs:1157-1197 | counts add over concatenation |
| Deck.CountOfSingle | Uno/GameController.cs:1157-1197 | a single card counts once for its own colour and face |
| Deck.ColorRunCount | Uno/GameController.cs:1171-1178 | a colour run holds the number of copies of each face below k that the rules prescribe, and nothing else |
| Deck.WildRunCount | Uno/GameController.cs:1185-1189 | the wild run holds k wild cards and k wild draw-fours, and nothing else |
| Deck.ColorCardsCount | Uno/GameController.cs:1163-1191 | a colour's turn adds its prescribed cards and nothing of any other colour |
| Deck.DeckPrefixCount | Uno/GameController.cs:1157-1197 | after i colours, every card of those colours appears as often as prescribed |
| Deck.UnoDeckContents | Uno/GameController.cs:1157-1197 | 132 cards with ids 0..131; per colour one 0 and two of every other coloured face; no coloured draw-four; four wild cards and four wild draw-fours |
| Deck.AddColorCards | Uno/GameController.cs:1171-1178 | the loop appends exactly one colour's run |
| Deck.AddWildCards | Uno/GameController.cs:1185-1189 | the loop appends exactly the wild run |
| Deck.GenerateUnoDeck | Uno/GameController.cs:1157-1197 | returns the standard deck: 132 cards with ids 0..131 |
| Rules.PlayStatus | Uno/GameController.cs:367-414 | each status holds exactly when its condition holds: Success for a held card that follows the top card and is not a refused draw-four; WrongColor, Draw4NotAllowed, DiscardPile and IncorrectPlayer likewise |
| Rules.PlainWildAlwaysPlays | Uno/GameController.cs:367-414 | a plain wild card in the hand can always be played |
| Rules.StatusAt | Uno/GameController.cs:367-414 | the play status of a card on a given table; its meaning is `PlayStatus` |
| Rules.IndexOf | Uno/GameController.cs:231 | the first position of a card, or −1 exactly when it is absent |
| Rules.RemoveFirst | Uno/GameController.cs:231 | removing a held card takes out one copy of it; removing an absent card changes nothing |
| Rules.RemoveFirstKeepsSorted | Uno/GameController.cs:231 | removing a card from a sorted hand keeps it sorted |
| Rules.InsertionPoint | Uno/GameController.cs:620-624 | the index is the first card whose value is not smaller, or the end |
| Rules.InsertionPointCharacterised | Uno/GameController.cs:620-624 | that index is the only one with this property |
| Rules.InsertAtPointKeepsSorted | Uno/GameController.cs:620-658 | inserting a card at that index keeps a sorted hand sorted |
| Rules.TntPickupRunsOutOfDeck | Uno/GameController.cs:627-646 | as written, a TNT pickup from a deck of one to three cards fails |
| Rules.TntPickupAsWritten | Uno/GameController.cs:627-646 | the TNT pickup as written: four draws at the same index, each of which fails on an empty deck |
| Rules.DrawsAsWrittenFail | Uno/GameController.cs:631-638 | draws as written fail exactly when the deck holds fewer cards than there are draws |
| Rules.DrawsAgree | Uno/GameController.cs:631-638 | while the deck has a card for every draw, the draws as written and the corrected pickup give the same hand and deck |
| Rules.TntPickup | Uno/GameController.cs:627-646 | the corrected TNT pickup: up to four draws at the same index, each only while the deck has a card; its properties are `TntPickupShape` and `TntPickupKeepsCards` |
| Rules.Reversed | Uno/GameController.cs:627-646 | reversing keeps the length |
| Rules.ReversedStep | Uno/GameController.cs:631-638 | reversing one more card of a deck puts it in front of the cards reversed so far |
| Rules.InsertShift | Uno/GameController.cs:631-638 | inserting a card at an index moves the cards from that index one place to the right |
| Rules.ReversedPermutes | Uno/GameController.cs:627-646 | reversing is a permutation |
| Rules.TntPickupShape | Uno/GameController.cs:627-646 | the corrected TNT pickup takes min(4, deck) cards off the deck and puts them at the index, last-drawn first |
| Rules.TntPickupKeepsCards | Uno/GameController.cs:627-646 | the corrected TNT pickup only moves cards from the deck to the hand |
| Rules.TntPickupAgreesOnFullDeck | Uno/GameController.cs:627-646 | with four or more cards in the deck, the corrected pickup is exactly the code as written |
| Rules.SumOfAppend | Uno/GameController.cs:1205-1216 | a sum over cards adds over concatenation |
| Rules.SumOfPermutation | Uno/GameController.cs:1205-1216 | a sum over cards does not depend on their order |
| Rules.MultisetRemoveAt | Uno/GameController.cs:1205-1216 | taking out one position removes one copy of its card |
| Rules.SumOfRemoveAt | Uno/GameController.cs:1205-1216 | taking out one position removes its value from the sum |
| Rules.HandScoreIgnoresOrder | Uno/GameController.cs:1205-1216 | a hand's score does not depend on card order |
| Rules.HandScoreOfSplit | Uno/GameController.cs:1205-1216 | the empty hand scores 0, and scores add over concatenation |
| Rules.HandScore | Uno/GameController.cs:1205-1216 | the official score of a hand, the sum of its scoring values; its properties are `HandScoreIgnoresOrder` and `HandScoreOfSplit` |
| Rules.RoundScore | Uno/GameController.cs:335-342 | the basic score is the finishing place, or the number of players for a seat that never finished; the official score is the hand's score; its properties are `BasicScoresFollowRank` |
| Rules.NonWildCountOfCons | Uno/GameController.cs:450-476 | the non-wild count of a card followed by a sequence is the card's weight plus the rest |
| Rules.NonWildCountBounds | Uno/GameController.cs:450-476 | the number of non-wild cards is between 0 and the length |
| Rules.BasicScoresFollowRank | Uno/GameController.cs:335-344 | under basic scoring, a better finishing place scores strictly lower, and any finisher scores less than a non-finisher |
| Rules.Candidates | Uno/GameController.cs:886-922 | a card is a candidate exactly when it is among the cards and the preference wants it |
| Rules.CandidatesStep | Uno/GameController.cs:886-922 | scanning one more card adds it to the candidates exactly when it is playable and fits the preference |
| Rules.SmartCandidates | Uno/GameController.cs:886-913 | smart candidates are playable held cards; if none is found, no playable card matches colour or face or is wild |
| Rules.SmartFindsPlayable | Uno/GameController.cs:886-913 | whenever some card is playable, the smart search finds a candidate |
| Rules.ColorCount | Uno/GameController.cs:949-989 | a colour count never exceeds the hand size |
| Controller.NextIn | Uno/GameController.cs:750-761 | a drawn random number lies in [lo, hi) |
| Controller.Rest | Uno/GameController.cs:750-761 | drawing consumes exactly one value of the stream |
| Controller.ShufflePicks | Uno/GameController.cs:1111-1127 | the picks drawn for a shuffle are valid indices for each step |
| Controller.RandomSource.constructor | Uno/GameController.cs:750-761 | the source starts at the given stream |
| Controller.RandomSource.Next | Uno/GameController.cs:750-761 | returns a value in [lo, hi) and advances the stream by one |
| Controller.RandomSource.ShufflePicksFor | Uno/GameController.cs:1111-1127 | returns valid picks for a list of n cards and consumes them |
| Controller.NonWildCountOfColorRun | Uno/GameController.cs:1171-1178 | every card of a colour run is non-wild |
| Controller.NonWildCountOfFaceCards | Uno/GameController.cs:1171-1178 | the copies of a face in a playable colour are all non-wild |
| Controller.NonWildCountOfColorCards | Uno/GameController.cs:1163-1191 | a playable colour contributes 31 non-wild cards and Wild contributes none |
| Controller.NonWildCountOfWildRun | Uno/GameController.cs:1185-1189 | no card of the wild run is non-wild |
| Controller.NonWildCountOfDeckPrefix | Uno/GameController.cs:1157-1197 | the four colours contribute 31 non-wild cards each |
| Controller.NonWildCountOfUnoDeck | Uno/GameController.cs:1157-1197 | the standard deck has 124 non-wild cards |
| Controller.PickedUpMovesCards | Uno/GameController.cs:602-662 | a pickup moves cards only from the deck to the current hand; the hand and the pick-up counter grow by the cards taken; nothing else of the seat changes |
| Controller.PickedUpIs | Uno/GameController.cs:620-658 | a TNT pickup takes up to four cards at the insertion point; a plain pickup takes one card there |
| Controller.PickedUpKeepsSorted | Uno/GameController.cs:647-658 | a single pickup keeps a sorted hand sorted |
| Controller.PickedUpStillPlaying | Uno/GameController.cs:602-662 | a seat that picks up is still playing |
| Controller.PickedUp | Uno/GameController.cs:620-658 | the seat and the deck after a pickup from a deck with a card; its properties are `PickedUpMovesCards` and `PickedUpIs` |
| Controller.Drew | Uno/GameController.cs:602-662 | one seat drew k cards: its hand keeps every card and has k more, its pickup counter is up by k, and nothing else of any seat changed |
| Controller.PickedUpDraws | Uno/GameController.cs:620-658 | a pickup is the seat drawing as many cards as left the deck |
| Controller.DrewStillPlaying | Uno/GameController.cs:602-662 | a seat that draws keeps playing, and every seat keeps its status |
| Controller.DrewTransitive | Uno/GameController.cs:798-806 | two draws by the same seat are one draw of both counts |
| Controller.PickupSize | Uno/GameController.cs:602-662 | one pickup takes one card, or under TNT up to four, never more than the deck holds or, when the deck is empty, more than the refilled deck will hold |
| Controller.HandsMoveFromDeck | Uno/GameController.cs:602-662 | cards moved from the deck to a hand keep the game's cards |
| Controller.PassHandStep | Uno/GameController.cs:1025-1044 | passing one hand along the table keeps the cards, counting the held hand |
| Controller.PassHandLast | Uno/GameController.cs:1025-1044 | handing the held hand to the last seat restores the multiset of all hands |
| Controller.PassingStep | Uno/GameController.cs:1025-1044 | each step of the pass takes the next playing seat's hand and keeps the loop invariant |
| Controller.PassingLast | Uno/GameController.cs:1025-1044 | the last step closes the circle |
| Controller.HandsMoveToPile | Uno/GameController.cs:229-231 | moving a held card to the discard pile keeps the game's cards |
| Controller.HandsPermuteSeat | Uno/GameController.cs:1136-1149 | reordering one hand keeps the multiset of all hands |
| Controller.HandSize | Uno/GameController.cs:450-476 | the deal gives each seat its configured number of cards, or none if that is not positive |
| Controller.NonWildLeftAfterDeal | Uno/GameController.cs:450-476 | after dealing at most 123 cards from the full deck, a non-wild card is left to turn up |
| Controller.FullDeckNonWild | Uno/GameController.cs:1157-1197 | any shuffle of the standard deck has 132 cards, 124 of them non-wild |
| Controller.EmptyHands | Uno/GameController.cs:106-156 | seats without cards hold no cards in all |
| Controller.PlayRecordedKeeps | Uno/GameController.cs:236-241 | recording a play keeps every hand and every seat's status, and a finisher's place is exactly the number of finished seats less one, which is one of the places handed out so far |
| Controller.Discarded | Uno/GameController.cs:231 | the seats once the card left the current hand: one copy fewer there when held, every other seat and field as it was |
| Controller.DrawOf | Uno/GameController.cs:706-714 | a face adds cards to draw exactly when it is Draw2 or Draw4, and never more than four |
| Controller.QuietFace | Uno/GameController.cs:702-745 | the faces whose action touches no seat, deck, pile or current seat: all but RandomDraw and the enabled swaps on 0 and 7 |
| Controller.TurnTaken | Uno/GameController.cs:588-596 | one seat's turn counter goes up by one |
| Controller.PlayRecorded | Uno/GameController.cs:236-241 | the seats once the current seat played: its play counter up by one, and a finisher given the last place handed out; its properties are `PlayRecordedKeeps` |
| Controller.SeatRecorded | Uno/GameController.cs:236-241 | one seat's record once it played, with a finisher ranked one below the number finished |
| Controller.SameStatusesTransitive | Backup/Uno/Game.cs:270-305 | two steps that each keep the seat statuses keep them together |
| Controller.SameStatusesCounts | Backup/Uno/Game.cs:270-305 | seats with unchanged statuses give the same counts |
| Controller.FirstPlayingSameStatuses | Uno/GameController.cs:507-515 | the search for the next playing seat looks at nothing but the seats' statuses |
| Controller.NextPlayingSameStatuses | Uno/GameController.cs:507-515 | seats with the same statuses have the same next playing seat |
| Controller.Landing | Uno/GameController.cs:562-567 | where the turn settles from a seat: that seat while it plays, else the next playing seat; always a playing seat |
| Controller.LandingAfterStep | Uno/GameController.cs:559-567 | one step and then settling is the next playing seat, and a finished seat stepped onto is nearer to it |
| Controller.Passed | Uno/GameController.cs:527-579 | play passing on quietly: the next playing seat gets the turn and only its turn counter moves, unless the round is over |
| Controller.DrewThenPassed | Uno/GameController.cs:789-813 | after a playing seat draws, play passing on from it reaches the seat that was next before the draw |
| Controller.Owed | Uno/GameController.cs:791-795 | the cards owed: the pending count, and four more under TNT |
| Controller.Drawable | Uno/GameController.cs:602-615 | the cards still to be drawn: the deck and all of the pile but its top card |
| Controller.GivenTo | Uno/GameController.cs:559-576 | the turn went quietly to a seat: only its turn counter moved, with the given deck, pile and TNT flag |
| Controller.SkippedOver | Uno/GameController.cs:770-775 | a seat lost its turn to the next playing seat, whose turn counter went up twice |
| Controller.Handled | Uno/GameController.cs:766-818 | what the pending actions do to the current seat: a Skip passes play on; owed cards are drawn, exactly min(owed, drawable), while others play, and play passes on; nothing is pending after |
| Controller.Reached | Uno/GameController.cs:527-579 | the turn reached a seat that then suffered what was pending: with nothing pending it has the turn; a Skip, or a draw of exactly min(owed, drawable) cards while others play, passes the turn to the next playing seat |
| Controller.HandledThenSetUp | Uno/GameController.cs:571-576 | handling the pending actions at a playing seat and setting up the next turn is reaching that seat |
| Controller.ReachedFromAnySeat | Uno/GameController.cs:527-579 | where the turn set out from plays no part once it has reached a seat |
| Controller.PlayedRank | Uno/GameController.cs:238-241 | a seat that was still playing and goes out with the card is ranked with the number of seats that finished before it, the next free place |
| Controller.Played | Uno/GameController.cs:229-241 | the state after a quiet play: one copy of the card out of the hand and on top of the pile, one more card played, a finisher ranked exactly one below the number now finished, other seats and the deck untouched, and the face's draw, Skip or TNT added to what is pending |
| Controller.PlayedIs | Uno/GameController.cs:229-241 | discarding, a quiet action and recording the play, one after the other, are `Played` |
| Controller.PickedUpFrom | Uno/GameController.cs:602-662 | a pickup: with nothing to draw nothing changes; otherwise the current seat draws exactly `PickupSize` cards, TNT is spent and nothing else pending changes |
| Controller.MovedOn | Uno/GameController.cs:527-579 | how the turn moves on: nothing once the round is over; after a SkipAll it reaches the seat where the turn settles; otherwise the next playing seat |
| Controller.Swapped | Uno/GameController.cs:1046-1056 | two seats exchange hands; nothing else of any seat changes and the multiset of all hands is kept |
| Controller.IsSevenTarget | Uno/GameController.cs:1063-1083 | the seat a computer swaps with on a seven: another name, the fewest cards among such seats, and the first of them |
| Controller.SevenTargetUnique | Uno/GameController.cs:1063-1083 | at most one seat is the seven target |
| Controller.CalculateUnoScoreForHand | Uno/GameController.cs:1205-1216 | the loop returns the sum of the hand's scoring values |
| Controller.SortedHand | Uno/GameController.cs:1136-1149 | the sorted copy of a hand is its insertion sort: sorted and holding the same cards |
| Controller.FindInsertionIndex | Uno/GameController.cs:620-624 | the loop finds the insertion point of the card's sorting value |
| Controller.InsertFour | Uno/GameController.cs:627-646 | the corrected TNT loop yields the corrected TNT pickup and counts min(4, deck) cards taken |
| Controller.ComputerPick | Uno/GameController.cs:927-943 | the card a computer plays is one of its candidates: the last of their insertion sort for a smart player, the candidate at the next random index for a basic one |
| Controller.LastAfterSorting | Uno/GameController.cs:933-943 | the smart choice is the last card of the candidates' insertion sort, which is stable: a candidate of the greatest sorting value, the last such in hand order |
| Controller.DealSlot | Uno/GameController.cs:450-476 | a card's place in the deal is never before its seat |
| Controller.DealSlotIsLinear | Uno/GameController.cs:450-476 | card j of seat t is deck card j·n+t |
| Controller.DealSlotShift | Uno/GameController.cs:450-476 | a seat's cards are offset by its seat number |
| Controller.DealSlotMonotonic | Uno/GameController.cs:450-476 | later rounds deal later cards |
| Controller.CardsDealtIsProduct | Uno/GameController.cs:450-476 | the deal takes seats × hand size cards |
| Controller.DealTurnKeeps | Uno/GameController.cs:457-464 | giving the next seat the deck's head keeps the round-robin invariant |
| Controller.DealRoundDone | Uno/GameController.cs:457-464 | a round completed round-robin starts the next round |
| Controller.HandTakesHead | Uno/GameController.cs:457-464 | giving a seat the deck's head keeps the cards |
| Controller.DealRound | Uno/GameController.cs:457-464 | one round deals one card to every seat in seat order, from the deck's head, and keeps the cards |
| Controller.Deal | Uno/GameController.cs:450-465 | each seat's card j is deck card j·n+t, the deck loses exactly the dealt cards, and the cards are kept |
| Controller.TurnUpStep | Uno/GameController.cs:468-474 | turning up the next card extends the turned-up prefix by it and counts it among the non-wild cards left |
| Controller.TurnedUpKeepsCards | Uno/GameController.cs:468-474 | moving a prefix of the deck onto the pile keeps the cards |
| Controller.TurnUp | Uno/GameController.cs:468-474 | cards are turned up until the top one is not wild; the turned-up cards come in deck order and only the last is non-wild |
| Controller.RoundOver | Uno/GameController.cs:243-281 | without teams the round ends when all but one seat have finished; with teams it ends as soon as any seat has |
| Controller.GameController.constructor | Uno/GameController.cs:106-156 | a valid game holding exactly the standard deck (plus any old pile), with a non-wild first card and no pending skips |
| Controller.GameController.StartRound | Uno/GameController.cs:119-133 | deals, turns up and sets up the first turn, keeping the cards and leaving a non-wild top card |
| Controller.GameController.DealSortedHands | Uno/GameController.cs:119-124 | every hand is sorted and of the configured size; the top card is not wild; the cards are kept |
| Controller.GameController.FirstTurn | Uno/GameController.cs:128-133 | the first card's action is carried out, its top card and the cards are kept, and no skip is left pending |
| Controller.GameController.GetNextPlayingPlayerIndex | Uno/GameController.cs:507-515 | the loop returns the next playing seat in the direction of play |
| Controller.GameController.Reverse | Uno/GameController.cs:824-828 | the direction flips |
| Controller.GameController.SetupCurrentPlayer | Uno/GameController.cs:588-596 | the current seat's turn counter goes up by one and nothing else changes |
| Controller.GameController.ShuffleDeck | Uno/GameController.cs:440-443 | the deck becomes its shuffle by the next picks, a permutation |
| Controller.GameController.DiscardPileToDeck | Uno/GameController.cs:668-695 | succeeds exactly when the pile has two or more cards; then all but the top card are shuffled into the deck, the top card stays, and the cards are kept |
| Controller.GameController.RefillDeck | Uno/GameController.cs:604-612 | an empty deck is refilled exactly when the pile has two or more cards: the pile keeps only its top card and the rest is the deck; otherwise nothing changes |
| Controller.GameController.RemoveFromDiscardPile | Uno/GameController.cs:684-685 | the pile loses exactly the given prefix |
| Controller.GameController.PickupFromDeck | Uno/GameController.cs:620-658 | the current seat picks up as `PickedUp` says, the TNT flag is cleared, and the cards are kept |
| Controller.GameController.PickUp | Uno/GameController.cs:620-658 | the record and deck after the pick-up are `PickedUp`, and cards only move from the deck to the hand |
| Controller.GameController.RefillAndPickup | Uno/GameController.cs:602-662 | a pick-up from an empty deck succeeds exactly when the pile has two or more cards; then the seat draws exactly `PickupSize` cards, that many fewer are left to draw, TNT is spent and the top card stays; otherwise nothing changes |
| Controller.GameController.CurrentPlayerPickupCard | Uno/GameController.cs:602-662 | succeeds exactly when the deck or the refillable pile has a card; on success the seat draws exactly `PickupSize` cards (one, or up to four under TNT, which is then spent), that many fewer are left to draw, and the top card stays; from a non-empty deck the seat and deck become `PickedUp` and the pile is untouched; on failure nothing changes |
| Controller.GameController.ArriveAtSeat | Uno/GameController.cs:562-576 | from a seat the turn settles where `Landing` says and then reaches that seat (`Reached`) |
| Controller.GameController.NextPlayer | Uno/GameController.cs:527-579 | once the round is over nothing moves; otherwise `MovedOn`: after a SkipAll the turn settles on the seat that played it (`Landing`), else it reaches the next playing seat, which then suffers what is pending (`Reached`); the cards, the top card and the seat statuses are kept |
| Controller.GameController.AdvanceTurn | Uno/GameController.cs:552-577 | without a SkipAll, once the round is over nothing moves; otherwise the turn reaches the next playing seat, which suffers what is pending (`Reached`) |
| Controller.GameController.TakeTurn | Uno/GameController.cs:569-576 | the current seat suffers the pending actions and the next turn is set up: `Reached` at that seat, so with nothing pending it simply has the turn |
| Controller.GameController.HandleActions | Uno/GameController.cs:766-818 | `Handled`: a Skip passes the turn on with nothing drawn; owed cards, four more under TNT, are drawn by the current seat, exactly as many as can still be drawn, while others are playing, and then the turn passes on; a SkipAll or nothing pending changes nothing; nothing is pending afterwards |
| Controller.GameController.DrawPending | Uno/GameController.cs:789-810 | the current seat alone draws exactly min(owed, drawable) cards, owed being the pending count plus four under TNT; that many fewer are left to draw, nothing is owed afterwards, and the cards and statuses are kept |
| Controller.DrawCardsStep | Uno/GameController.cs:798-806 | one more single pick-up in the loop: a seat that has drawn as many of its first i owed cards as could be drawn has drawn as many of its first i + 1 once more is tried |
| Controller.GameController.DrawCards | Uno/GameController.cs:798-806 | n pick-up attempts make the current seat draw exactly min(n, drawable) cards, one per attempt that finds a card, and keep the cards and the top card |
| Controller.GameController.SwapAllPlayerHands | Uno/GameController.cs:1025-1044 | hands are passed around the table; nothing but the hands changes, and the cards are kept |
| Controller.GameController.PlayerSwapHands | Uno/GameController.cs:1046-1057 | the hands become `Swapped` and the turn then moves on from there as `MovedOn` says; the cards and the top card are kept |
| Controller.GameController.SwapHands | Uno/GameController.cs:1046-1056 | the seats become `Swapped`: the current seat and the target exchange hands and nothing else about any seat changes; the cards are kept |
| Controller.GameController.SevenSwapTarget | Uno/GameController.cs:1063-1083 | −1 exactly when every player has the current name; otherwise the seat `IsSevenTarget` names: another name, the fewest cards, the first such seat |
| Controller.GameController.SwapHandsOnSeven | Uno/GameController.cs:1061-1097 | a human's target is the one named; a computer's is none exactly when every player has its name, and otherwise the `IsSevenTarget` seat; with no target nothing changes, with one the hands become `Swapped` and the turn moves on as `MovedOn` says |
| Controller.GameController.DrawRandomCards | Uno/GameController.cs:750-761 | a random draw keeps the cards and the top card |
| Controller.GameController.PerformAction | Uno/GameController.cs:702-745 | Reverse flips the direction and nothing else does; every quiet face leaves the seats, deck, pile and current seat alone and adds exactly its draw count, Skip, SkipAll or TNT to what is pending; a 0 with swapping on changes only hands; the cards and the top card are kept |
| Controller.GameController.CanPlayCardStatus | Uno/GameController.cs:367-414 | the status is the rules' status for the card on this table |
| Controller.GameController.CanPlayCard | Uno/GameController.cs:360-363 | true exactly when the status is Success |
| Controller.GameController.RecordPlay | Uno/GameController.cs:236-241 | the seats become `PlayRecorded`: the play counter goes up, and a player who has just finished gets the last place handed out; statuses and cards are kept |
| Controller.GameController.DiscardAndAct | Uno/GameController.cs:229-241 | the card ends on top of the pile and the cards are kept; for a quiet face the seats become `PlayRecorded` of `Discarded` (one copy out of the hand, one more card played, a finisher ranked), the deck and current seat stay, and the face's effect is added to what is pending |
| Controller.GameController.ActAndRecord | Uno/GameController.cs:234-241 | the card's action and the play recorded: for a quiet face the seats become `PlayRecorded` and the face's effect is added to what is pending; Reverse flips the direction; the cards and the top card are kept |
| Controller.GameController.EndOrMoveOn | Uno/GameController.cs:243-281 | the round ends exactly when `RoundOver` holds and nothing moves; otherwise the turn moves on as `MovedOn` says |
| Controller.GameController.DiscardFromHand | Uno/GameController.cs:229-231 | the card moves from the current hand to the top of the pile |
| Controller.GameController.PlayCard | Uno/GameController.cs:227-281 | the card ends on top and the cards are kept; for a quiet face the state after the play is `Played`; the round ends exactly when `RoundOver` holds, and then nothing moves, otherwise the turn moves on from the played state as `MovedOn` says |
| Controller.GameController.PlaySelectedCard | Uno/GameController.cs:187-287 | the status is the rules' status, or Cancelled for a human wild card with no colour chosen; a refused card leaves the table as it was; a computer's wild colour is Red, Yellow or Green; on success the play is `Played` for a quiet face and the round ends or the turn moves on as in `PlayCard` |
| Controller.GameController.VerdictAndWildColor | Uno/GameController.cs:189-224 | the rules' status, or Cancelled for a human wild with no colour; the wild colour is the human's choice, a computer's random Red, Yellow or Green, and unchanged for a coloured card |
| Controller.GameController.SelectCard | Uno/GameController.cs:170-181 | a human's click is refused as ComputerPlayer and changes nothing; otherwise as `PlaySelectedCard` |
| Controller.GameController.PickupCard | Uno/GameController.cs:301-320 | nothing happens once the game is over or when a computer's turn is not forced; otherwise the current seat picks up as `PickedUpFrom` says and the turn then moves on as `MovedOn` says; the cards are kept |
| Controller.GameController.PickUpForTurn | Uno/GameController.cs:313 | the pickup of a turn: the state after is the one `PickedUpFrom` describes |
| Controller.GameController.PickUpAndPass | Uno/GameController.cs:313-316 | the current seat picks up as `PickedUpFrom` says and the turn moves on as `MovedOn` says |
| Controller.GameController.EndGame | Uno/GameController.cs:326-353 | each seat's round score is recorded and added to its player's total |
| Controller.GameController.CollectPlayable | Uno/GameController.cs:886-922 | the loop collects exactly the candidates for the preference |
| Controller.GameController.FindPlayable | Uno/GameController.cs:886-922 | the smart or the basic candidates from the current hand |
| Controller.GameController.ChooseCard | Uno/GameController.cs:933-943 | the smart choice is the last card of the candidates' stable insertion sort, of the greatest value, and draws no random number; the basic choice is the candidate at the next random index, which uses up one random number; either way the card is `ComputerPick` |
| Controller.GameController.SmartWildColor | Uno/GameController.cs:949-989 | a non-wild colour held at least as often as any other |
| Controller.GameController.MakeComputerMove | Uno/GameController.cs:862-1006 | does nothing for a human or when one seat is left; otherwise a card is chosen exactly when the candidates are not empty, and it is `ComputerPick` of them; when the top card is not wild the chosen card ends on top, so a computer with a playable card plays one of its own cards |
| Controller.GameController.PlayFrom | Uno/GameController.cs:930-998 | the card chosen is `ComputerPick` of the candidates, and when the top card is not wild it is the card that ends on top |
| Controller.GameController.ChooseCardAndColor | Uno/GameController.cs:926-991 | the chosen card is `ComputerPick` of the candidates; for a wild card a smart player names a colour of which it holds the most cards, drawn at random among the tied colours, and a basic player the colour of the next random number below 4; for any other card the wild colour is kept; only the wild colour changes, so the table is as it was while the top card is not wild |
| Controller.GameController.ComputerTurn | Uno/GameController.cs:862-1006 | a card is chosen exactly when the candidates are not empty, and it is `ComputerPick` of them; when the top card is not wild the chosen card ends on top, so a computer with a playable card plays one of its own cards; the cards are kept |
| Controller.GameController.DealRounds | Uno/GameController.cs:450-465 | the round-robin deal from the deck's head, keeping the cards |
| Controller.GameController.TurnUpFirstCard | Uno/GameController.cs:468-474 | cards go from the deck to the pile until the top one is not wild; the cards are kept |
| Controller.GameController.PrepareDeck | Uno/GameController.cs:111-113 | the deck is a shuffle of the standard deck: 132 cards, 124 of them non-wild |
| Controller.GameController.DealCards | Uno/GameController.cs:450-476 | hands dealt round-robin and a non-wild card turned up, keeping the cards |
| Controller.GameController.SortHands | Uno/GameController.cs:122-124 | every hand is sorted and is a permutation of its old cards; nothing else changes |
| SortedPlayerView.GetOrdinalStringForInt | Uno/SortedPlayerView.cs:116-141 | a word exactly for places 1 to 4, and the empty string otherwise |
| SortedPlayerView.OrdinalsDistinct | Uno/SortedPlayerView.cs:116-141 | every place a game can give out has its own non-empty word |

## Left out

- The game window, its redraws, message boxes and the results view are
  left out. The results view keeps only its ordinal words.
- The timer that starts a computer's move (`startComputerMove` in
  `setupCurrentPlayer`) is left out. A computer move is the explicit call
  `MakeComputerMove`, which models `makeComputerMove` and hands the move
  itself to `ComputerTurn`.
- Dialogs are inputs. The wild-colour chooser and the hand-swap picker
  become `HumanChoices`. `HandSwapSelect` is not part of this model.
- `Card.cs` and its value tables are not part of this model. The sorting
  and scoring values come in as `ValueTable` parameters. The colour
  ordinals follow the order in which the deck is generated. The face
  ordinals 0 to 9 are the digits. The order of faces 10 to 15 (Skip,
  Reverse, Draw Two, Random Draw, Skip All, TNT) is defined in `Card.cs`,
  and this model assumes that order.
- `System.Random` becomes the `RandomSource` stream. The engine creates
  a fresh generator at each use, and its seeding is not modelled.
- With teams enabled, the round still ends as `RoundOver` says, as
  soon as any seat has finished. Recording `WinningPlayer` there
  (`Uno/GameController.cs:257-266`) is left out, because only the
  results view reads it.
- The players' hashtable is modelled in seat order. The source
  enumerates a `Hashtable`, whose order .NET does not define.
- Controller.GameController.SevenSwapTarget: the `int.MaxValue` sentinel
  for "no smallest hand yet" is modelled as −1, meaning no target.
- Controller.GameController.GetNextPlayingPlayerIndex: it requires a
  playing seat. With none, the source loops forever.
- Controller.GameController.constructor: it requires at most 123 cards
  to be dealt. That bound is sufficient, not the point where the source
  fails. With 124 to 131 cards dealt, turning up the first card fails
  only when every card left is wild, which depends on the shuffle. With
  exactly 132 cards dealt, the deal succeeds but the turn-up then reads
  from an empty deck (`Uno/GameController.cs:471`). With more than 132
  cards dealt, the deal itself fails when it reads from an empty deck
  (`Uno/GameController.cs:460`).
- Controller.GameController.PlaySelectedCard: a computer's wild colour
  is drawn from {Red, Yellow, Green}, as `Next(0, 3)` gives. This
  overrides the colour `makeComputerMove` chose. The colour is set even
  when the play is refused.
- Controller.GameController.PlayerSwapHands: it moves the turn on, and
  `PlaySelectedCard` moves it on again after a seven-swap, as in the
  source.
- Controller.GameController.PlayCard: the state right after the play
  (`Played`) is stated only for a quiet face. After a RandomDraw or an
  enabled hand swap on a 0 or a 7, only the kept cards, the top card,
  the direction and the end of the round are stated.
- Controller.GameController.PlaySelectedCard: the same gap as `PlayCard`
  for the faces that are not quiet.
- Controller.GameController.DiscardAndAct: the seats, the deck and the
  pending effects are stated only for a quiet face.
- Controller.GameController.ActAndRecord: the same gap as
  `DiscardAndAct`.
- Controller.GameController.PerformAction: a RandomDraw and a seven-swap
  are stated only to keep the game valid, the cards and the top card.
  The seven-swap itself is stated exactly by `SwapHandsOnSeven`.
- Controller.GameController.MakeComputerMove: that the chosen card ends
  on top, so that a computer with a playable card plays one, is stated
  only when the top card is not wild.
  With a wild on top the source can refuse the computer's choice. An
  example: a plain Wild on top with Blue named, and the computer holding
  a red 5 and a Wild Draw Four, with Draw Four not always allowed. The
  smart search offers only the Draw Four and sets the wild colour to
  red before playing it. The hand then holds a card of the colour in
  play, so the play is refused as `Draw4NotAllowed`, and the source has
  no second try.
- Controller.GameController.PlayFrom: the same condition as
  `MakeComputerMove`, for the same reason.
- Controller.GameController.ComputerTurn: the same condition as
  `MakeComputerMove`, for the same reason.
- Controller.GameController.SwapAllPlayerHands: the held hand starts
  from seat 0 even when that seat has finished, as in the source. The
  contract states card conservation, not which seat ends with which
  hand.
- Controller.GameController.DrawRandomCards: the number of cards drawn
  and who draws them are not stated, only that the cards are kept.
- Controller.GameController.MakeComputerMove: the cards the computer
  picks up when it has no playable card are not stated, only that the
  cards are kept.
- The face spelled "Forth" keeps the source's spelling.

## Findings

| source | as written | input that shows it | evidently intended | confidence | as-written member | corrected member |
|---|---|---|---|---|---|---|
| Uno/GameController.cs:627-646 | a TNT pickup inserts `Deck[0]` four times, and the deck is refilled only when it is empty before the pickup | a TNT pickup with 1 to 3 cards left in the deck: a later one of the four draws reads `Deck[0]` of an empty deck | draw at most as many cards as the deck holds, up to four; this is a guess, and refilling the deck from the pile between draws, as a single pickup does at lines 602-615, would be another reading | not executed | Rules.TntPickupRunsOutOfDeck | Rules.TntPickupShape |
