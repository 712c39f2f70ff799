/** The word the results table shows for a finishing place. */
module SortedPlayerView {
  import opened GameState

  /** "First" to "Forth" (spelled as the game spells it) for places 1 to
      4, and the empty string for any other number: the game seats at
      most four players. */
  function GetOrdinalStringForInt(rank: int): (output: string)
    ensures output != [] <==> 1 <= rank <= 4
  {
    match rank
    case 1 => "First"
    case 2 => "Second"
    case 3 => "Third"
    case 4 => "Forth"
    case _ => ""
  }

  /** Every place a game can hand out has a word of its own. */
  lemma OrdinalsDistinct(r1: int, r2: int)
    requires 1 <= r1 <= MaxPlayers && 1 <= r2 <= MaxPlayers && r1 != r2
    ensures GetOrdinalStringForInt(r1) != GetOrdinalStringForInt(r2)
    ensures GetOrdinalStringForInt(r1) != []
  {
  }
}
