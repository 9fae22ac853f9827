/** The two home page sections: a calendar of the clock's current month, and a
    preview of the first folders. */
module HomePage {
  import opened Wrappers
  import opened Gregorian
  import opened DateKeys
  import opened MonthCursor
  import opened ActivityCalendar
  import opened Folders

  // ---------------------------------------------------------------------------
  // Calendar section
  // ---------------------------------------------------------------------------

  /** The calendar section. It has no month buttons: every render reads the
      clock again and shows that month, while the map is loaded only when the
      token changes. So the clock of a render, `now`, is a parameter of the
      members that render, and the loaded map is state. */
  class HomeCalendarSection {
    var activityData: ActivityMap
    var isLoading: bool

    /** The initial state: an empty map, loading. */
    constructor ()
      ensures activityData == map[] && isLoading
    {
      activityData, isLoading := map[], true;
    }

    /** `loadActivity` as run by the token effect, for the month of the clock
        at that render. A failed request is only logged, so the map keeps its
        previous value; `daily_counts || {}` turns a missing object into the
        empty map. */
    method LoadActivity(hasToken: bool, outcome: Result<Option<ActivityMap>, string>)
      modifies this
      ensures !hasToken ==> activityData == old(activityData) && isLoading == old(isLoading)
      ensures hasToken ==> !isLoading
      ensures hasToken && outcome.Ok? ==> activityData == CountsOf(outcome.value)
      ensures outcome.Err? ==> activityData == old(activityData)
    {
      if !hasToken {
        return;
      }
      match outcome {
        case Ok(dailyCounts) =>
          activityData := CountsOf(dailyCounts);
        case Err(_) =>
      }
      isLoading := false;
    }

    /** `handleDateClick`: the same drill-down rule as the calendar page, for
        the month of the render's clock and the map loaded last. */
    method HandleDateClick(now: Date, day: Option<nat>) returns (route: Option<string>)
      ensures route == DrillDown(Cursor(now.year, now.month), activityData, day)
      ensures route.Some? ==> day.Some? && CountAt(activityData, DateKey(now.year, now.month, day.value)) != 0
    {
      route := DrillDown(Cursor(now.year, now.month), activityData, day);
    }

    /** The month rendered at clock `now`. The section marks today by
        `day === today` alone; within one render the month and the day come
        from the same clock reading, so this is the full-date test. */
    function Cells(now: Date): (cells: seq<Cell>)
      reads this
      requires 1 <= now.month <= 12
      ensures var grid := MonthGrid(FirstWeekday(now.year, now.month), DaysInMonth(now.year, now.month));
              |cells| == |grid|
      ensures forall i :: 0 <= i < |cells| && cells[i].DayCell? ==> (cells[i].isToday <==> cells[i].day == now.day)
    {
      var grid := MonthGrid(FirstWeekday(now.year, now.month), DaysInMonth(now.year, now.month));
      RenderCells(Cursor(now.year, now.month), activityData, now, grid)
    }
  }

  /** The section's day-only test agrees with the full-date test whenever the
      cursor is the clock's month. */
  lemma PinnedTodayAgrees(now: Date, day: nat)
    ensures (day == now.day) <==> IsToday(Cursor(now.year, now.month), now, day)
  {
  }

  /** A map holding only keys of the month `loaded` reads as zero for every day
      of any other month: once the clock has passed into a new month the grid
      shows no activity and no day can be drilled into, until the token
      changes and the map is loaded again. */
  lemma OtherMonthReadsZero(loaded: Cursor, now: Date, data: ActivityMap, day: nat)
    requires forall k :: k in data ==>
               (ParseDateKey(k).Some? && ParseDateKey(k).value.year == loaded.year
                && ParseDateKey(k).value.month == loaded.month)
    requires Cursor(now.year, now.month) != loaded
    requires 1 <= now.month <= 12 && day < 100
    ensures CountAt(data, DateKey(now.year, now.month, day)) == 0
    ensures DrillDown(Cursor(now.year, now.month), data, Some(day)) == None
  {
    DateKeyRoundTrip(now.year, now.month, day);
  }

  // ---------------------------------------------------------------------------
  // Folders section
  // ---------------------------------------------------------------------------

  const VisibleFolderCount := 4
  const PreviewQuestionCount := 2

  /** `data.slice(0, 4)`: the first four folders, or all of them when fewer. */
  function VisibleFolders(data: seq<Folder>): (r: seq<Folder>)
    ensures |r| <= VisibleFolderCount
    ensures r <= data
    ensures |r| < VisibleFolderCount ==> r == data
  {
    if |data| <= VisibleFolderCount then data else data[..VisibleFolderCount]
  }

  /** A folder card: "暂无问题" for an empty folder, otherwise up to two
      question previews and, beyond two, the count of the rest ("还有 N 个"). */
  datatype Preview = NoQuestions | Preview(shown: seq<Question>, more: Option<nat>)

  function FolderPreview(f: Folder): (p: Preview)
    ensures p.NoQuestions? <==> |f.questions| == 0
    ensures p.Preview? ==> 1 <= |p.shown| <= PreviewQuestionCount && p.shown <= f.questions
    ensures p.Preview? ==> (p.more.Some? <==> |f.questions| > PreviewQuestionCount)
    ensures 0 < |f.questions| <= PreviewQuestionCount ==> p == Preview(f.questions, None)
    ensures |f.questions| > PreviewQuestionCount ==>
              p == Preview(f.questions[..PreviewQuestionCount], Some(|f.questions| - PreviewQuestionCount))
  {
    var qs := f.questions;
    if |qs| == 0 then NoQuestions
    else if |qs| <= PreviewQuestionCount then Preview(qs, None)
    else Preview(qs[..PreviewQuestionCount], Some(|qs| - PreviewQuestionCount))
  }

  /** The card accounts for every question: the previews plus the "more" count
      add up to the folder's size, and a folder of at most two shows them all. */
  lemma PreviewAccountsForAll(f: Folder)
    requires |f.questions| > 0
    ensures |FolderPreview(f).shown| + FolderPreview(f).more.GetOr(0) == |f.questions|
    ensures |f.questions| <= PreviewQuestionCount ==> FolderPreview(f).shown == f.questions
  {
  }

  class HomeFoldersSection {
    var folders: seq<Folder>
    var isLoading: bool

    constructor ()
      ensures folders == [] && isLoading
    {
      folders, isLoading := [], true;
    }

    /** `loadFolders`: keeps the first four folders of the response; a failed
        request is only logged. */
    method LoadFolders(hasToken: bool, outcome: Result<seq<Folder>, string>)
      modifies this
      ensures !hasToken ==> folders == old(folders) && isLoading == old(isLoading)
      ensures hasToken ==> !isLoading
      ensures hasToken && outcome.Ok? ==> folders == VisibleFolders(outcome.value)
      ensures outcome.Err? ==> folders == old(folders)
    {
      if !hasToken {
        return;
      }
      if outcome.Ok? {
        folders := VisibleFolders(outcome.value);
      }
      isLoading := false;
    }
  }
}
