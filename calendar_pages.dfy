/** The stateful month calendar. The calendar component and the activity page
    declare the same state (year, month, activity map, loading flag, message)
    and the same handlers; the component additionally shows the monthly
    totals. One class models both. */
module CalendarPages {
  import opened Wrappers
  import opened Gregorian
  import opened DateKeys
  import opened MonthCursor
  import opened ActivityCalendar

  /** What `getUserActivity` resolves to: the response's optional
      `daily_counts` object, or the message of the error it threw. */
  type ActivityOutcome = Result<Option<ActivityMap>, string>

  class CalendarController {
    var currentYear: int
    var currentMonth: int
    var activityData: ActivityMap
    var isLoading: bool
    var message: string

    ghost predicate Valid()
      reads this
    {
      1 <= currentMonth <= 12
    }

    function CursorOf(): Cursor
      reads this
    {
      Cursor(currentYear, currentMonth)
    }

    /** The initial state: today's year and month, an empty map, no message. */
    constructor (today: Date)
      requires 1 <= today.month <= 12
      ensures Valid() && CursorOf() == Cursor(today.year, today.month)
      ensures activityData == map[] && !isLoading && message == ""
    {
      currentYear, currentMonth := today.year, today.month;
      activityData, isLoading, message := map[], false, "";
    }

    /** `goToPreviousMonth`: only the cursor changes. */
    method GoToPreviousMonth()
      requires Valid()
      modifies this
      ensures Valid() && CursorOf() == Previous(old(CursorOf()))
      ensures MonthIndex(CursorOf()) == MonthIndex(old(CursorOf())) - 1
      ensures activityData == old(activityData) && isLoading == old(isLoading) && message == old(message)
    {
      if currentMonth == 1 {
        currentMonth := 12;
        currentYear := currentYear - 1;
      } else {
        currentMonth := currentMonth - 1;
      }
    }

    /** `goToNextMonth`: only the cursor changes. */
    method GoToNextMonth()
      requires Valid()
      modifies this
      ensures Valid() && CursorOf() == Next(old(CursorOf()))
      ensures MonthIndex(CursorOf()) == MonthIndex(old(CursorOf())) + 1
      ensures activityData == old(activityData) && isLoading == old(isLoading) && message == old(message)
    {
      if currentMonth == 12 {
        currentMonth := 1;
        currentYear := currentYear + 1;
      } else {
        currentMonth := currentMonth + 1;
      }
    }

    /** The effect run on every cursor or token change: without a token nothing
        happens; otherwise `loadActivity` applies whatever the request yields
        (there is no check that the response belongs to the current cursor). */
    method LoadActivity(hasToken: bool, outcome: ActivityOutcome)
      modifies this
      ensures CursorOf() == old(CursorOf())
      ensures !hasToken ==> activityData == old(activityData) && isLoading == old(isLoading)
                            && message == old(message)
      ensures hasToken ==> !isLoading
      ensures hasToken && outcome.Ok? ==> activityData == CountsOf(outcome.value) && message == ""
      ensures hasToken && outcome.Err? ==> activityData == old(activityData) && message == "❌ " + outcome.error
    {
      if !hasToken {
        return;
      }
      isLoading := true;
      message := "";
      match outcome {
        case Ok(dailyCounts) =>
          activityData := CountsOf(dailyCounts);
        case Err(e) =>
          message := "❌ " + e;
      }
      isLoading := false;
    }

    /** `handleDateClick`: the route to open, if any; the state is not touched. */
    method HandleDateClick(day: Option<nat>) returns (route: Option<string>)
      ensures route == DrillDown(CursorOf(), activityData, day)
      ensures route.Some? ==> day.Some? && CountAt(activityData, DateKey(currentYear, currentMonth, day.value)) != 0
    {
      route := DrillDown(CursorOf(), activityData, day);
    }

    /** The cells as rendered for the displayed month: one per grid entry, and
        a day is marked as today exactly when the displayed year and month are
        today's and the day number is today's. */
    function Cells(today: Date): (cells: seq<Cell>)
      reads this
      requires Valid()
      ensures |cells| == FirstWeekday(currentYear, currentMonth) + DaysInMonth(currentYear, currentMonth)
      ensures forall i :: 0 <= i < |cells| && cells[i].DayCell? ==>
                (cells[i].isToday <==> Date(currentYear, currentMonth, cells[i].day) == today)
    {
      RenderCells(CursorOf(), activityData, today,
                  MonthGrid(FirstWeekday(currentYear, currentMonth), DaysInMonth(currentYear, currentMonth)))
    }
  }

  /** A sequence of button presses keeps the month valid and moves the cursor by
      the net number of months; the handlers modify nothing else. */
  method PressButtons(cal: CalendarController, moves: seq<Move>)
    requires cal.Valid()
    modifies cal
    ensures cal.Valid() && cal.CursorOf() == Navigate(old(cal.CursorOf()), moves)
    ensures cal.activityData == old(cal.activityData) && cal.message == old(cal.message)
  {
    var i := 0;
    while i < |moves|
      invariant 0 <= i <= |moves| && cal.Valid()
      invariant Navigate(cal.CursorOf(), moves[i..]) == Navigate(old(cal.CursorOf()), moves)
      invariant cal.activityData == old(cal.activityData) && cal.message == old(cal.message)
    {
      assert moves[i..][1..] == moves[i + 1..];
      if moves[i] == GoPrevious {
        cal.GoToPreviousMonth();
      } else {
        cal.GoToNextMonth();
      }
      i := i + 1;
    }
  }
}
