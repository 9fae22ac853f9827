/** The (year, month) cursor of the calendar views and its previous/next
    navigation with year rollover. */
module MonthCursor {

  datatype Cursor = Cursor(year: int, month: int)

  /** The month of a cursor is always 1..12. */
  predicate Valid(c: Cursor)
  {
    1 <= c.month <= 12
  }

  /** Months elapsed since January of year 0: consecutive months differ by one. */
  function MonthIndex(c: Cursor): int
  {
    12 * c.year + (c.month - 1)
  }

  /** `goToPreviousMonth`: January rolls back to December of the previous year. */
  function Previous(c: Cursor): (r: Cursor)
    ensures Valid(c) ==> Valid(r) && MonthIndex(r) == MonthIndex(c) - 1
  {
    if c.month == 1 then Cursor(c.year - 1, 12) else Cursor(c.year, c.month - 1)
  }

  /** `goToNextMonth`: December rolls over to January of the next year. */
  function Next(c: Cursor): (r: Cursor)
    ensures Valid(c) ==> Valid(r) && MonthIndex(r) == MonthIndex(c) + 1
  {
    if c.month == 12 then Cursor(c.year + 1, 1) else Cursor(c.year, c.month + 1)
  }

  /** The two rollover rules, as the navigation buttons apply them. */
  lemma RolloverRules(y: int, m: int)
    ensures Previous(Cursor(y, 1)) == Cursor(y - 1, 12)
    ensures 1 < m <= 12 ==> Previous(Cursor(y, m)) == Cursor(y, m - 1)
    ensures Next(Cursor(y, 12)) == Cursor(y + 1, 1)
    ensures 1 <= m < 12 ==> Next(Cursor(y, m)) == Cursor(y, m + 1)
  {
  }

  /** Next undoes Previous and Previous undoes Next on every valid cursor. */
  lemma NextPreviousInverse(c: Cursor)
    requires Valid(c)
    ensures Next(Previous(c)) == c
    ensures Previous(Next(c)) == c
  {
  }

  /** Two valid cursors with the same index are the same cursor. */
  lemma MonthIndexInjective(a: Cursor, b: Cursor)
    requires Valid(a) && Valid(b) && MonthIndex(a) == MonthIndex(b)
    ensures a == b
  {
  }

  datatype Move = GoPrevious | GoNext

  /** The cursor after a sequence of button presses. */
  function Navigate(c: Cursor, moves: seq<Move>): Cursor
    decreases |moves|
  {
    if moves == [] then c
    else Navigate(if moves[0] == GoPrevious then Previous(c) else Next(c), moves[1..])
  }

  /** Net number of months a sequence of presses moves forward. */
  function NetMoves(moves: seq<Move>): int
    decreases |moves|
  {
    if moves == [] then 0 else (if moves[0] == GoNext then 1 else -1) + NetMoves(moves[1..])
  }

  /** After any sequence of presses the month is still in 1..12, and the cursor
      has moved by exactly the net number of months pressed. */
  lemma {:induction false} NavigateKeepsValid(c: Cursor, moves: seq<Move>)
    requires Valid(c)
    ensures Valid(Navigate(c, moves))
    ensures MonthIndex(Navigate(c, moves)) == MonthIndex(c) + NetMoves(moves)
    decreases |moves|
  {
    if moves != [] {
      NavigateKeepsValid(if moves[0] == GoPrevious then Previous(c) else Next(c), moves[1..]);
    }
  }

  /** Presses that cancel out return to the starting cursor. */
  lemma BalancedNavigationReturns(c: Cursor, moves: seq<Move>)
    requires Valid(c) && NetMoves(moves) == 0
    ensures Navigate(c, moves) == c
  {
    NavigateKeepsValid(c, moves);
    MonthIndexInjective(Navigate(c, moves), c);
  }
}
