/** Seat arithmetic: who plays after whom.

    Seats are numbered 0 .. count-1 in seating order. Play moves one seat
    up (wrapping to 0) or one seat down (wrapping to count-1). */
module Seats {

  /** Does play move up the seat numbers? The engine asks for the next seat
      with an extra `reverse` request on top of the game's own direction:
      the two cancel out when they agree. */
  function MovesUp(gameReverse: bool, reverse: bool): bool
  {
    if !reverse then !gameReverse else gameReverse
  }

  lemma MovesUpCharacterised(gameReverse: bool, reverse: bool)
    ensures MovesUp(gameReverse, reverse) <==> reverse == gameReverse
    ensures MovesUp(gameReverse, !reverse) == !MovesUp(gameReverse, reverse)
    ensures MovesUp(!gameReverse, reverse) == !MovesUp(gameReverse, reverse)
  {
  }

  /** One step of play from seat `initial` among `count` seats. */
  function NextSeat(initial: int, count: int, up: bool): (r: int)
    requires 0 <= initial < count
    ensures 0 <= r < count
    ensures up ==> r == if initial + 1 == count then 0 else initial + 1
    ensures !up ==> r == if initial == 0 then count - 1 else initial - 1
  {
    if up then
      (if initial + 1 >= count then 0 else initial + 1)
    else
      (if initial - 1 < 0 then count - 1 else initial - 1)
  }

  /** A step up undoes a step down and vice versa. */
  lemma NextSeatInverse(i: int, count: int, up: bool)
    requires 0 <= i < count
    ensures NextSeat(NextSeat(i, count, up), count, !up) == i
  {
  }

  /** The seat reached after `d` steps. */
  function SeatAfter(i: int, d: nat, count: int, up: bool): (r: int)
    requires 0 <= i < count
    ensures 0 <= r < count
  {
    if d == 0 then i else NextSeat(SeatAfter(i, d - 1, count, up), count, up)
  }

  /** Taking one step first and then `d` more is `d + 1` steps. */
  lemma {:induction false} SeatAfterShift(i: int, d: nat, count: int, up: bool)
    requires 0 <= i < count
    ensures SeatAfter(NextSeat(i, count, up), d, count, up) == SeatAfter(i, d + 1, count, up)
  {
    if d > 0 {
      SeatAfterShift(i, d - 1, count, up);
    }
  }

  /** Closed form of `d` steps, for at most one full turn round the table. */
  lemma {:induction false} SeatAfterClosedForm(i: int, d: nat, count: int, up: bool)
    requires 0 <= i < count && d <= count
    ensures up ==> SeatAfter(i, d, count, up) == if i + d < count then i + d else i + d - count
    ensures !up ==> SeatAfter(i, d, count, up) == if i - d >= 0 then i - d else i - d + count
  {
    if d > 0 {
      SeatAfterClosedForm(i, d - 1, count, up);
    }
  }

  /** Every seat is reached within one full turn round the table, so a walk
      of at most `count` steps meets any given seat. */
  lemma SeatReached(i: int, j: int, count: int, up: bool) returns (d: nat)
    requires 0 <= i < count && 0 <= j < count
    ensures 1 <= d <= count && SeatAfter(i, d, count, up) == j
  {
    if up {
      d := if j > i then j - i else j - i + count;
    } else {
      d := if j < i then i - j else i - j + count;
    }
    SeatAfterClosedForm(i, d, count, up);
  }
}
