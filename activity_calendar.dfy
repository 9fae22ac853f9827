/** The calendar logic shared by the three activity calendars (the calendar
    component, the activity page and the home-page section): the month grid,
    the activity tiers, the per-day count lookup, the drill-down guard and the
    monthly totals. */
module ActivityCalendar {
  import opened Wrappers
  import opened Gregorian
  import opened DateKeys
  import opened MonthCursor

  /** The `daily_counts` object of the activity response: date key to count. */
  type ActivityMap = map<string, int>

  // ---------------------------------------------------------------------------
  // Activity tiers
  // ---------------------------------------------------------------------------

  /** `getActivityLevel`: 0 for no answers, then 1-2, 3-5 and 6 or more. A count
      is only "no answers" when it is 0, so a negative count is tier 1. */
  function ActivityLevel(count: int): (level: nat)
    ensures level < 4
    ensures level == 0 <==> count == 0
  {
    if count == 0 then 0
    else if count <= 2 then 1
    else if count <= 5 then 2
    else 3
  }

  /** Background and text classes of the calendar component, indexed by tier. */
  const CellColors: seq<string> := ["bg-white border-gray-200", "bg-emerald-100 border-emerald-200",
                                    "bg-emerald-300 border-emerald-400", "bg-emerald-500 border-emerald-600"]
  const TextColors: seq<string> := ["text-gray-400", "text-emerald-700", "text-emerald-800", "text-white"]
  /** Background colours of the activity page, indexed by tier. */
  const PageColors: seq<string> := ["#f0f0f0", "#c6e48b", "#7bc96f", "#239a3b"]

  /** The tier thresholds, exactly. */
  lemma ActivityLevelThresholds(count: nat)
    ensures ActivityLevel(count) == 0 <==> count == 0
    ensures ActivityLevel(count) == 1 <==> 1 <= count <= 2
    ensures ActivityLevel(count) == 2 <==> 3 <= count <= 5
    ensures ActivityLevel(count) == 3 <==> count >= 6
  {
  }

  /** More answers never give a lower tier. */
  lemma ActivityLevelMonotone(a: nat, b: nat)
    requires a <= b
    ensures ActivityLevel(a) <= ActivityLevel(b)
  {
  }

  /** Every tier indexes each colour table. */
  lemma ActivityLevelIndexesColors(count: int)
    ensures ActivityLevel(count) < |CellColors| && ActivityLevel(count) < |TextColors|
    ensures ActivityLevel(count) < |PageColors|
  {
  }

  // ---------------------------------------------------------------------------
  // Count lookup and drill-down
  // ---------------------------------------------------------------------------

  /** `activityData[dateStr] || 0`: a missing key reads as 0. */
  function CountAt(data: ActivityMap, key: string): (n: int)
    ensures key !in data ==> n == 0
    ensures key in data ==> n == data[key]
  {
    if key in data then data[key] else 0
  }

  /** `daily_counts || {}`: a response without the object gives the empty map. */
  function CountsOf(dailyCounts: Option<ActivityMap>): (data: ActivityMap)
    ensures dailyCounts.None? ==> data == map[]
    ensures dailyCounts.Some? ==> data == dailyCounts.value
  {
    dailyCounts.GetOr(map[])
  }

  /** With the empty map every day counts 0, sits in tier 0 and cannot be opened. */
  lemma MissingCountsReadAsZero(key: string)
    ensures CountAt(CountsOf(None), key) == 0
    ensures ActivityLevel(CountAt(CountsOf(None), key)) == 0
  {
  }

  /** The route `handleDateClick` navigates to. */
  function DrillDownRoute(key: string): string
  {
    "/activity/" + key
  }

  /** `handleDateClick(day)`: nothing for an empty cell; otherwise the route for
      the day's key when the map holds a truthy (non-zero) count under it. */
  function DrillDown(c: Cursor, data: ActivityMap, day: Option<nat>): (route: Option<string>)
    ensures route.Some? <==>
              day.Some? && day.value != 0 && CountAt(data, DateKey(c.year, c.month, day.value)) != 0
    ensures route.Some? ==> route.value == DrillDownRoute(DateKey(c.year, c.month, day.value))
  {
    if day.None? || day.value == 0 then None
    else
      var key := DateKey(c.year, c.month, day.value);
      if key in data && data[key] != 0 then Some(DrillDownRoute(key)) else None
  }

  predicate NonNegativeCounts(data: ActivityMap)
  {
    forall k :: k in data ==> data[k] >= 0
  }

  /** With the non-negative counts the server sends, a day opens its answers
      exactly when it has at least one, and the route names that very date. */
  lemma DrillDownIffPositive(c: Cursor, data: ActivityMap, day: nat)
    requires Valid(c) && NonNegativeCounts(data) && 1 <= day <= 31
    ensures var key := DateKey(c.year, c.month, day);
            DrillDown(c, data, Some(day)).Some? <==> key in data && data[key] > 0
    ensures DrillDown(c, data, Some(day)).Some? ==>
              var route := DrillDown(c, data, Some(day)).value;
              |route| > 10 && ParseDateKey(route[10..]) == Some(Date(c.year, c.month, day))
  {
    var key := DateKey(c.year, c.month, day);
    var r := DrillDown(c, data, Some(day));
    assert r.Some? <==> CountAt(data, key) != 0;
    assert CountAt(data, key) != 0 <==> key in data && data[key] > 0;
    RouteNamesDate(c.year, c.month, day);
    if r.Some? {
      assert r.value == DrillDownRoute(key);
    }
  }

  /** The date can be read back from a drill-down route. */
  lemma RouteNamesDate(year: int, month: nat, day: nat)
    requires month < 100 && day < 100
    ensures var route := DrillDownRoute(DateKey(year, month, day));
            |route| > 10 && ParseDateKey(route[10..]) == Some(Date(year, month, day))
  {
    var key := DateKey(year, month, day);
    DateKeyRoundTrip(year, month, day);
    assert DrillDownRoute(key)[10..] == key;
  }

  // ---------------------------------------------------------------------------
  // The month grid
  // ---------------------------------------------------------------------------

  /** `firstDay` empty cells, then the days 1..daysInMonth in order. */
  function MonthGrid(firstDay: nat, daysInMonth: nat): (grid: seq<Option<nat>>)
    ensures |grid| == firstDay + daysInMonth
    ensures forall i :: 0 <= i < firstDay ==> grid[i] == None
    ensures forall i :: firstDay <= i < |grid| ==> grid[i] == Some(i - firstDay + 1)
  {
    seq(firstDay, _ => None) + seq(daysInMonth, i => Some(i + 1))
  }

  /** `generateCalendar`: two counting loops push the leading blanks and the days. */
  method GenerateCalendar(c: Cursor) returns (calendar: seq<Option<nat>>)
    requires Valid(c)
    ensures |calendar| == FirstWeekday(c.year, c.month) + DaysInMonth(c.year, c.month)
    ensures forall i :: 0 <= i < FirstWeekday(c.year, c.month) ==> calendar[i] == None
    ensures forall i :: FirstWeekday(c.year, c.month) <= i < |calendar| ==>
              calendar[i] == Some(i - FirstWeekday(c.year, c.month) + 1)
    ensures calendar == MonthGrid(FirstWeekday(c.year, c.month), DaysInMonth(c.year, c.month))
  {
    var firstDay := FirstWeekday(c.year, c.month);
    var daysInMonth := DaysInMonth(c.year, c.month);
    calendar := [];
    var i := 0;
    while i < firstDay
      invariant 0 <= i <= firstDay
      invariant calendar == seq(i, _ => None)
    {
      calendar := calendar + [None];
      i := i + 1;
    }
    var day := 1;
    while day <= daysInMonth
      invariant 1 <= day <= daysInMonth + 1
      invariant calendar == seq(firstDay, _ => None) + seq(day - 1, j => Some(j + 1))
    {
      calendar := calendar + [Some(day)];
      day := day + 1;
    }
  }

  /** Day `d` sits at index firstDay + d - 1, so in a seven-column grid its
      column is its day of the week (0 = Sunday). */
  lemma {:induction false} GridColumnIsWeekday(c: Cursor, d: nat)
    requires Valid(c) && 1 <= d <= DaysInMonth(c.year, c.month)
    ensures var fd := FirstWeekday(c.year, c.month);
            var grid := MonthGrid(fd, DaysInMonth(c.year, c.month));
            fd + d - 1 < |grid| && grid[fd + d - 1] == Some(d)
            && (fd + d - 1) % 7 == Weekday(c.year, c.month, d)
  {
    var first := DayNumber(c.year, c.month, 1);
    assert DayNumber(c.year, c.month, d) == first + (d - 1);
    ModSevenShift(first, d - 1);
  }

  /** Each day of the month appears exactly once in the grid. */
  lemma GridDaysAppearOnce(firstDay: nat, daysInMonth: nat, i: nat, j: nat)
    requires i < j < firstDay + daysInMonth
    requires MonthGrid(firstDay, daysInMonth)[i].Some?
    ensures MonthGrid(firstDay, daysInMonth)[i] != MonthGrid(firstDay, daysInMonth)[j]
  {
  }

  /** Leap-year February: 2024 has 29 day cells, 2023 has 28. */
  lemma FebruaryGrids()
    ensures |MonthGrid(FirstWeekday(2024, 2), DaysInMonth(2024, 2))| == FirstWeekday(2024, 2) + 29
    ensures |MonthGrid(FirstWeekday(2023, 2), DaysInMonth(2023, 2))| == FirstWeekday(2023, 2) + 28
  {
  }

  // ---------------------------------------------------------------------------
  // Cells as rendered
  // ---------------------------------------------------------------------------

  datatype Cell = Blank | DayCell(day: nat, key: string, count: int, level: nat, isToday: bool)

  /** `isCurrentMonth && day === today.getDate()`. */
  predicate IsToday(c: Cursor, today: Date, day: nat)
  {
    c.year == today.year && c.month == today.month && day == today.day
  }

  /** A cell is "today" exactly when its calendar date is today's date. */
  lemma IsTodayIffSameDate(c: Cursor, today: Date, day: nat)
    ensures IsToday(c, today, day) <==> Date(c.year, c.month, day) == today
  {
  }

  function RenderCell(c: Cursor, data: ActivityMap, today: Date, entry: Option<nat>): (cell: Cell)
    ensures entry.None? || entry.value == 0 ==> cell == Blank
    ensures entry.Some? && entry.value != 0 ==>
              var key := DateKey(c.year, c.month, entry.value);
              cell == DayCell(entry.value, key, CountAt(data, key), ActivityLevel(CountAt(data, key)),
                              IsToday(c, today, entry.value))
  {
    match entry
    case None => Blank
    case Some(d) =>
      if d == 0 then Blank
      else
        var key := DateKey(c.year, c.month, d);
        var count := CountAt(data, key);
        DayCell(d, key, count, ActivityLevel(count), IsToday(c, today, d))
  }

  /** `calendar.map(...)`: one rendered cell per grid entry. */
  function RenderCells(c: Cursor, data: ActivityMap, today: Date, grid: seq<Option<nat>>): (cells: seq<Cell>)
    ensures |cells| == |grid|
    ensures forall i :: 0 <= i < |grid| ==> cells[i] == RenderCell(c, data, today, grid[i])
  {
    seq(|grid|, i requires 0 <= i < |grid| => RenderCell(c, data, today, grid[i]))
  }

  /** The rendered month: blanks first, then one cell per day carrying the
      day's key, its count (0 when absent), its tier, and the "today" mark. */
  lemma RenderedMonth(c: Cursor, data: ActivityMap, today: Date, firstDay: nat, daysInMonth: nat, d: nat)
    requires 1 <= d <= daysInMonth
    ensures var cells := RenderCells(c, data, today, MonthGrid(firstDay, daysInMonth));
            var key := DateKey(c.year, c.month, d);
            && |cells| == firstDay + daysInMonth
            && (forall i :: 0 <= i < firstDay ==> cells[i] == Blank)
            && cells[firstDay + d - 1] == DayCell(d, key, if key in data then data[key] else 0,
                                                  ActivityLevel(CountAt(data, key)),
                                                  Date(c.year, c.month, d) == today)
  {
    var grid := MonthGrid(firstDay, daysInMonth);
    GridEntries(firstDay, daysInMonth, d);
    var cells := RenderCells(c, data, today, grid);
    var key := DateKey(c.year, c.month, d);
    assert cells[firstDay + d - 1] == RenderCell(c, data, today, Some(d));
    assert RenderCell(c, data, today, Some(d))
        == DayCell(d, key, CountAt(data, key), ActivityLevel(CountAt(data, key)), IsToday(c, today, d));
    forall i | 0 <= i < firstDay ensures cells[i] == Blank {
      assert cells[i] == RenderCell(c, data, today, grid[i]);
    }
  }

  lemma GridEntries(firstDay: nat, daysInMonth: nat, d: nat)
    requires 1 <= d <= daysInMonth
    ensures |MonthGrid(firstDay, daysInMonth)| == firstDay + daysInMonth
    ensures MonthGrid(firstDay, daysInMonth)[firstDay + d - 1] == Some(d)
    ensures forall i :: 0 <= i < firstDay ==> MonthGrid(firstDay, daysInMonth)[i] == None
  {
  }

  // ---------------------------------------------------------------------------
  // Monthly totals
  // ---------------------------------------------------------------------------

  /** `Object.values(activityData).reduce((sum, count) => sum + count, 0)`. */
  ghost function TotalAnswers(data: ActivityMap): (total: int)
    ensures (forall k :: k in data ==> data[k] >= 0) ==> total >= 0
    decreases |data|
  {
    if data == map[] then 0
    else
      var k :| k in data;
      data[k] + TotalAnswers(data - {k})
  }

  /** `Object.keys(activityData).length`: every stored key counts, zeros included. */
  function ActiveDays(data: ActivityMap): (n: nat)
    ensures n == |data.Keys|
  {
    |data|
  }

  /** The per-day average is shown only when there is an active day; its exact
      value is total / activeDays (the display rounds it to one decimal). */
  ghost function AveragePerActiveDay(data: ActivityMap): (avg: Option<real>)
    ensures avg.Some? <==> ActiveDays(data) > 0
  {
    if ActiveDays(data) > 0 then Some(TotalAnswers(data) as real / ActiveDays(data) as real) else None
  }

  /** The sum does not depend on the order the keys are taken in. */
  lemma {:induction false} TotalAnswersRemove(data: ActivityMap, k: string)
    requires k in data
    ensures TotalAnswers(data) == data[k] + TotalAnswers(data - {k})
    decreases |data|
  {
    var j :| j in data && TotalAnswers(data) == data[j] + TotalAnswers(data - {j});
    if j != k {
      var rest := data - {j};
      assert k in rest;
      TotalAnswersRemove(rest, k);
      var restK := data - {k};
      assert j in restK;
      TotalAnswersRemove(restK, j);
      assert rest - {k} == restK - {j};
    }
  }

  /** Both totals are zero on the empty map. */
  lemma EmptyMonthTotals()
    ensures TotalAnswers(map[]) == 0 && ActiveDays(map[]) == 0
    ensures AveragePerActiveDay(map[]).None?
  {
  }

  /** With non-negative counts the total bounds every single day's count. */
  lemma {:induction false} TotalAnswersBoundsEachDay(data: ActivityMap, k: string)
    requires NonNegativeCounts(data) && k in data
    ensures 0 <= data[k] <= TotalAnswers(data)
    decreases |data|
  {
    TotalAnswersRemove(data, k);
    TotalAnswersNonNegative(data - {k});
  }

  lemma {:induction false} TotalAnswersNonNegative(data: ActivityMap)
    requires NonNegativeCounts(data)
    ensures TotalAnswers(data) >= 0
    decreases |data|
  {
    if data != map[] {
      var k :| k in data;
      TotalAnswersRemove(data, k);
      TotalAnswersNonNegative(data - {k});
    }
  }

  /** Two active days with 3 and 2 answers: 5 answers, average 2.5. */
  lemma TwoDayExample()
    ensures var data := map["2025-01-01" := 3, "2025-01-02" := 2];
            TotalAnswers(data) == 5 && ActiveDays(data) == 2
            && AveragePerActiveDay(data) == Some(2.5)
  {
    var data := map["2025-01-01" := 3, "2025-01-02" := 2];
    TotalAnswersRemove(data, "2025-01-01");
    var rest := data - {"2025-01-01"};
    assert rest == map["2025-01-02" := 2];
    TotalAnswersRemove(rest, "2025-01-02");
    assert rest - {"2025-01-02"} == map[];
  }

  /** Zero entries are not filtered out: they count as active days. */
  lemma ZeroEntriesAreActiveDays()
    ensures var data := map["2025-01-01" := 0];
            TotalAnswers(data) == 0 && ActiveDays(data) == 1
  {
    var data := map["2025-01-01" := 0];
    TotalAnswersRemove(data, "2025-01-01");
    assert data - {"2025-01-01"} == map[];
  }
}
