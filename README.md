# SanXing core, modelled in Dafny

SanXing is a writing journal. Users sign up, log in, answer daily questions,
gather questions into folders, share their own questions, and see a monthly
activity calendar of how many answers they wrote each day. This project models
the sequential logic of that application and proves properties about it:

- **Activity calendar** (three near-identical copies: the calendar component,
  the activity page and the home page section). It covers:
  - the `(year, month)` cursor with rollover;
  - the month grid of leading blanks and day numbers;
  - the zero-padded `YYYY-MM-DD` day key;
  - the four activity tiers;
  - the drill-down guard and the monthly totals.

  Month lengths and weekdays use proleptic Gregorian arithmetic rather than
  JavaScript `Date`.
- **Folder pages**:
  - selection toggling;
  - the case-insensitive, order-preserving search over question text and tag;
  - excluding questions already in a folder;
  - the empty-name and empty-selection guards;
  - the sequential add loop after a folder is created;
  - the resets of the folder detail page's modal and rename form.
- **Share flag** on the "my questions" page.
- **Backend auth and answer endpoints**, over abstract tables:
  - users keyed by email;
  - tokens with a one-hour expiry;
  - answers owned by an email;
  - a bearer-header check.
- **API URL composition** for development and production builds.

Modules:

| Module | File | Role |
|---|---|---|
| `Wrappers` | wrappers.dfy | `Option`, `Result` |
| `Text` | text.dfy | JavaScript `toLowerCase` (ASCII), `includes`, `trim`, `String(n)`, `padStart`; Python `split(" ")` |
| `Gregorian` | gregorian.dfy | leap rule, month length, weekday (0 = Sunday) |
| `MonthCursor` | month_cursor.dfy | previous/next with rollover, sequences of presses |
| `DateKeys` | date_key.dfy | the day key, its parser, round trip and RFC 3339 section 5.6 `full-date` shape |
| `ActivityCalendar` | activity_calendar.dfy | grid generation, tiers, drill-down, cells, totals |
| `CalendarPages` | calendar_pages.dfy | the stateful calendar component / activity page |
| `HomePage` | home_page.dfy | the home calendar of the current month and the folder previews |
| `Folders` | folders.dfy | questions, folders, the search filter |
| `FolderCreate` | folder_create.dfy | the folder creation form |
| `FolderDetails` | folder_details.dfy | the folder detail page |
| `MyQuestions` | my_question_page.dfy | the share-flag update |
| `Backend` | backend.dfy | signup, login, save and list answers |
| `ApiConfig` | api_config.dfy | `getApiBaseUrl`, `apiUrl` |

The calendar component and the activity page declare the same state and
handlers. So one class, `CalendarPages.CalendarController`, models both, and
the table cites whichever file shows a rule most directly. The home section
differs in three ways:
- it has no month buttons: each render shows the clock's current month,
  while the map is loaded only when the token changes;
- a failed load only logs;
- it marks today by day number alone.

`HomePage.HomeCalendarSection` models it.

Effects are inputs:
- **Network results.** Each request's result is a parameter (`Result<…>` for
  "resolved or threw").
- **Navigation** is an emitted route or a flag.
- **State-changing requests** the pages send come back as a list of
  `FolderRequest`s.
- **The clock** is a `Date` or a number of seconds.
- **The password hash** is an uninterpreted function, the constant `hash` of
  `Backend.Server`.
- **`secrets.token_hex` and `uuid4`** draws are parameters.

Where the behaviour in the code differs from what one might expect, the model
follows the code:
- **Active days count every key.** "Active days" is the number of keys in the
  activity map, including keys whose count is 0
  (`ActivityCalendar.ZeroEntriesAreActiveDays`).
- **Load results are applied unchecked.** A load result is applied whatever
  cursor it was requested for. No stale response is discarded.
- **Drill-down tests for non-zero.** The guard is truthiness, so it tests
  `count != 0`. `DrillDownIffPositive` shows that this is "count > 0" for the
  non-negative counts the server sends.
- **Tier of a negative count.** `getActivityLevel` of a negative count is 1 (a
  truthy value ≤ 2).
- **Names are sent untrimmed.** Folder names are trimmed only for the emptiness
  test. The untrimmed name is what is sent.

## Model

| member | source | states |
|---|---|---|
| MonthCursor.Previous | frontend/src/components/Calendar.jsx:33-40 | on a valid cursor the result is valid and exactly one month earlier |
| MonthCursor.Next | frontend/src/components/Calendar.jsx:42-49 | on a valid cursor the result is valid and exactly one month later |
| MonthCursor.RolloverRules | frontend/src/components/Calendar.jsx:33-49 | previous of January is December of the year before, otherwise the month before; next of December is January of the year after, otherwise the month after |
| MonthCursor.NextPreviousInverse | frontend/src/components/Calendar.jsx:33-49 | next after previous, and previous after next, give back the starting cursor |
| MonthCursor.NavigateKeepsValid | frontend/src/components/Calendar.jsx:33-49 | after any sequence of presses the month is in 1..12 and the cursor moved by the net number of presses |
| MonthCursor.BalancedNavigationReturns | frontend/src/components/Calendar.jsx:33-49 | presses whose net count is zero return to the starting cursor |
| CalendarPages.CalendarController.constructor | frontend/src/pages/activity/ActivityCalendarPage.jsx:9-13 | starts at today's year and month with an empty map, not loading, no message |
| CalendarPages.CalendarController.GoToPreviousMonth | frontend/src/pages/activity/ActivityCalendarPage.jsx:35-42 | the cursor fields become `Previous` of the old cursor, one month earlier; map, loading flag and message unchanged |
| CalendarPages.CalendarController.GoToNextMonth | frontend/src/pages/activity/ActivityCalendarPage.jsx:44-51 | the cursor fields become `Next` of the old cursor, one month later; nothing else changes |
| CalendarPages.PressButtons | frontend/src/pages/activity/ActivityCalendarPage.jsx:35-51 | pressing the buttons in any order leaves the object's cursor at `Navigate` of the start, valid, with map and message untouched |
| CalendarPages.CalendarController.LoadActivity | frontend/src/components/Calendar.jsx:15-31 | no token: nothing changes; success: the map becomes `daily_counts` or empty and the message is cleared; failure: map kept, message "❌ " + error; loading ends false; the cursor is left unchanged; the result is not checked against the requested month |
| Gregorian.DaysInMonth | frontend/src/components/Calendar.jsx:53 | the length of a month is between 28 and 31 |
| Gregorian.DaysInMonthCases | frontend/src/components/Calendar.jsx:53 | February has 29 days iff the year is a Gregorian leap year, 28 otherwise; April, June, September, November have 30; the others 31 |
| Gregorian.LeapYearExamples | frontend/src/components/Calendar.jsx:53 | 2024 and 2000 have a 29-day February, 2023 and 1900 a 28-day one |
| Gregorian.DaysBeforeNextMonth | frontend/src/components/Calendar.jsx:53 | the cumulative day table grows by the month's length from one month to the next |
| Gregorian.YearLength | frontend/src/components/Calendar.jsx:52 | consecutive years start 365 or 366 days apart, as the leap rule says |
| Gregorian.Weekday | frontend/src/pages/activity/ActivityCalendarPage.jsx:55 | the weekday is in 0..6 (0 = Sunday) |
| Gregorian.FirstWeekday | frontend/src/components/Calendar.jsx:52 | the number of leading blanks is below 7 |
| Gregorian.KnownWeekdays | frontend/src/pages/activity/ActivityCalendarPage.jsx:55 | 1970-01-01 is a Thursday, 2000-03-01 a Wednesday, 2024-01-01 a Monday, 2025-01-01 a Wednesday |
| Gregorian.FirstWeekdayOfNextMonth | frontend/src/components/Calendar.jsx:52-53 | the next month's first weekday is this month's first weekday plus its length, mod 7, also across December |
| ActivityCalendar.GenerateCalendar | frontend/src/components/Calendar.jsx:51-65 | the two push loops yield exactly `firstDay` empty cells followed by the days 1..daysInMonth in order, for the Gregorian weekday and month length |
| ActivityCalendar.GridColumnIsWeekday | frontend/src/pages/activity/ActivityCalendarPage.jsx:54-70 | day d sits at index firstDay + d − 1, and that index mod 7 is the weekday of day d, so the grid's columns line up with the Sunday-first header |
| ActivityCalendar.GridDaysAppearOnce | frontend/src/pages/home/HomePageNew.jsx:127-141 | no day number occurs twice in a grid |
| ActivityCalendar.FebruaryGrids | frontend/src/components/Calendar.jsx:53-62 | a leap-year February grid holds 29 day cells, a common-year one 28 |
| ActivityCalendar.ActivityLevel | frontend/src/components/Calendar.jsx:67-72 | the tier is below 4, and 0 exactly for a zero count |
| ActivityCalendar.ActivityLevelThresholds | frontend/src/pages/activity/ActivityCalendarPage.jsx:73-78 | for counts 0, 1–2, 3–5 and ≥ 6 the tier is 0, 1, 2 and 3, each as an if-and-only-if |
| ActivityCalendar.ActivityLevelMonotone | frontend/src/pages/home/HomePageNew.jsx:143-148 | a larger count never gets a lower tier |
| ActivityCalendar.ActivityLevelIndexesColors | frontend/src/components/Calendar.jsx:223-234 | every tier indexes the four background and the four text classes, and the activity page's four colours (ActivityCalendarPage.jsx lines 157-158) |
| ActivityCalendar.CountsOf | frontend/src/pages/activity/ActivityCalendarPage.jsx:26 | a response without `daily_counts` gives the empty map, otherwise the map itself |
| ActivityCalendar.CountAt | frontend/src/pages/activity/ActivityCalendarPage.jsx:152 | a cell's count is the map value at its key, or 0 when the key is absent |
| ActivityCalendar.MissingCountsReadAsZero | frontend/src/pages/activity/ActivityCalendarPage.jsx:26 | after a response without `daily_counts` every cell's count and tier are 0 |
| ActivityCalendar.DrillDown | frontend/src/components/Calendar.jsx:74-80 | a route is produced iff the cell holds a day and the map has a non-zero count under the padded key of that day, and the route is `/activity/` + that key |
| CalendarPages.CalendarController.HandleDateClick | frontend/src/components/Calendar.jsx:74-80 | the click uses the object's cursor and map: it navigates only for a day whose count at the padded key is non-zero |
| ActivityCalendar.DrillDownIffPositive | frontend/src/pages/activity/ActivityCalendarPage.jsx:81-87 | with non-negative counts a day drills down iff its key is present with a positive count, and the date parsed back from the route is that day |
| ActivityCalendar.RouteNamesDate | frontend/src/components/Calendar.jsx:76-78 | the date can be recovered from the drill-down route of any day |
| DateKeys.DateKeyRoundTrip | frontend/src/components/Calendar.jsx:218 | parsing the key of (year, month, day) gives back that date, for every integer year including negative ones |
| DateKeys.DateKeyInjective | frontend/src/components/Calendar.jsx:218-219 | distinct dates have distinct keys, so no two cells read the same count |
| DateKeys.Pad2RoundTrip | frontend/src/components/Calendar.jsx:218 | `String(n).padStart(2, "0")` of n < 100 is two characters that read back as n |
| DateKeys.IntToDecimalRoundTrip | frontend/src/components/Calendar.jsx:218 | the decimal rendering of any integer, with its sign, reads back as that integer |
| DateKeys.FourDigitYearKeyIsFullDate | frontend/src/components/Calendar.jsx:218 | for years 1000–9999 the key has the RFC 3339 `full-date` shape (4 digits, dash, 2 digits, dash, 2 digits) |
| DateKeys.ShortYearKeyIsNotFullDate | frontend/src/components/Calendar.jsx:218 | the year is not padded: year 999 gives a 9-character key that is not a `full-date` |
| Text.NatToDecimal | frontend/src/components/Calendar.jsx:76 | `String(n)` is all digits, denotes n, has no leading zero, and is one character iff n < 10 |
| Text.PadStart | frontend/src/components/Calendar.jsx:76 | the padded string has length max(len, width), ends with the original and is filled with the pad character before it |
| ActivityCalendar.IsTodayIffSameDate | frontend/src/components/Calendar.jsx:221 | a cell is today iff its displayed year and month are today's and its day is today's day of month |
| ActivityCalendar.RenderCell | frontend/src/components/Calendar.jsx:218-221 | an empty entry renders blank; a day renders with its key, its count (0 if absent), its tier and the today mark |
| ActivityCalendar.RenderCells | frontend/src/components/Calendar.jsx:213-221 | one rendered cell per grid entry, in grid order |
| ActivityCalendar.RenderedMonth | frontend/src/pages/activity/ActivityCalendarPage.jsx:146-154 | the rendered month has the leading blanks, and day d's cell sits at firstDay + d − 1 with its key, count, tier and a today mark that is the full-date comparison |
| CalendarPages.CalendarController.Cells | frontend/src/pages/activity/ActivityCalendarPage.jsx:151-154 | the page's cells number firstDay + daysInMonth, and a day is marked today iff its full date is today |
| ActivityCalendar.ActiveDays | frontend/src/components/Calendar.jsx:108 | active days are the number of keys, zero counts included |
| ActivityCalendar.ZeroEntriesAreActiveDays | frontend/src/pages/home/HomePageNew.jsx:178 | a day recorded with count 0 still counts as active, while adding nothing to the total |
| ActivityCalendar.TotalAnswersRemove | frontend/src/components/Calendar.jsx:107 | the total is the sum of all values: it equals any one value plus the total of the rest, so the order of summation does not matter |
| ActivityCalendar.TotalAnswersBoundsEachDay | frontend/src/components/Calendar.jsx:107 | with non-negative counts no day exceeds the monthly total |
| ActivityCalendar.TotalAnswersNonNegative | frontend/src/pages/home/HomePageNew.jsx:177 | with non-negative counts the total is non-negative |
| ActivityCalendar.EmptyMonthTotals | frontend/src/components/Calendar.jsx:107-108 | the empty map gives total 0, 0 active days and no average |
| ActivityCalendar.AveragePerActiveDay | frontend/src/components/Calendar.jsx:150 | an average is shown iff there is at least one active day |
| ActivityCalendar.TwoDayExample | frontend/src/pages/home/HomePageNew.jsx:177-194 | counts 3 and 2 give total 5, 2 active days and average 2.5 |
| HomePage.HomeCalendarSection.constructor | frontend/src/pages/home/HomePageNew.jsx:104-105 | the section starts with an empty map and loading; it holds no date, since every render reads the clock again |
| HomePage.HomeCalendarSection.LoadActivity | frontend/src/pages/home/HomePageNew.jsx:110-125 | activity is loaded only with a token; a success stores `daily_counts` or the empty map; a failure keeps the map; loading ends |
| HomePage.HomeCalendarSection.HandleDateClick | frontend/src/pages/home/HomePageNew.jsx:150-156 | a click navigates only for a day with a non-zero count at its padded key in the month of the render's clock, looked up in the map loaded last |
| HomePage.HomeCalendarSection.Cells | frontend/src/pages/home/HomePageNew.jsx:106-108 | the grid of the render clock's month, one cell per entry, and a day is marked today iff its number is that clock's day of month (lines 214-220) |
| HomePage.PinnedTodayAgrees | frontend/src/pages/home/HomePageNew.jsx:220 | within one render the month and the day come from the same clock reading, so comparing the day number alone is the same as comparing the full date |
| HomePage.OtherMonthReadsZero | frontend/src/pages/home/HomePageNew.jsx:106-114 | a map loaded for one month reads 0 on every day of another month and allows no drill-down there, which is what the section shows once the clock has passed into a new month and the token has not changed |
| HomePage.VisibleFolders | frontend/src/pages/home/HomePageNew.jsx:293 | at most four folders, a prefix of the list in its order, and all of them when there are fewer than four |
| HomePage.HomeFoldersSection.LoadFolders | frontend/src/pages/home/HomePageNew.jsx:284-299 | with a token a success keeps the first four folders, a failure keeps the old list; loading ends |
| HomePage.FolderPreview | frontend/src/pages/home/HomePageNew.jsx:369-388 | an empty folder shows "暂无问题"; a folder of one or two questions shows them all with no count; a larger one shows exactly its first two and "还有 N 个" with N = its size − 2 |
| HomePage.PreviewAccountsForAll | frontend/src/pages/home/HomePageNew.jsx:371-381 | the previews plus the "还有 N 个" count add up to the folder's size, and a folder of at most two shows all its questions |
| FolderCreate.RemoveAll | frontend/src/components/FolderCreate.jsx:40 | the filter removes every occurrence of the id and keeps every other id in its order, with as many copies as before |
| FolderCreate.ToggleFlipsMembership | frontend/src/components/FolderCreate.jsx:38-44 | a toggle flips the toggled id's membership and no other id's |
| FolderCreate.ToggleKeepsOthersInOrder | frontend/src/components/FolderCreate.jsx:38-44 | ignoring the toggled id, the list before and after is identical, so the others keep their relative order |
| FolderCreate.ToggleTwiceRestores | frontend/src/components/FolderCreate.jsx:38-44 | toggling an unselected id twice gives back exactly the original list |
| FolderCreate.ToggleKeepsNoDuplicates | frontend/src/components/FolderCreate.jsx:38-44 | a duplicate-free selection stays duplicate-free |
| FolderCreate.FolderCreateForm.ToggleQuestion | frontend/src/components/FolderCreate.jsx:38-44 | the selection becomes the toggle of the old one and nothing else changes |
| FolderCreate.AddSelected | frontend/src/components/FolderCreate.jsx:62-66 | one add per selected id in selection order, stopping right after the first one that throws, whose message is returned; with no failure every id is added |
| FolderCreate.FolderCreateForm.HandleSubmit | frontend/src/components/FolderCreate.jsx:46-77 | a name that trims to nothing only sets "❌ 请输入文件夹名称", leaving the creating flag as it was; otherwise the untrimmed name is created, then the selection added in order; the page moves on with "✅ 文件夹创建成功！" iff nothing failed, else shows "❌ " + the error |
| FolderCreate.FolderCreateForm.FilteredQuestions | frontend/src/components/FolderCreate.jsx:80-83 | the shown list is an order-preserving subsequence of all questions, holding a question iff it matches the search, and as many copies of it as the list has |
| Folders.FilterBySearch | frontend/src/components/FolderCreate.jsx:80-83 | the result is a subsequence of the input; every kept question matches, and each matching question is kept with all its copies |
| Folders.MatchesEmptyTerm | frontend/src/components/FolderCreate.jsx:81 | every question's text contains the empty term |
| Folders.EmptySearchKeepsAll | frontend/src/components/FolderCreate.jsx:80-83 | an empty search keeps the whole list in order |
| Folders.SearchIgnoresTermCase | frontend/src/components/FolderCreate.jsx:80-83 | lower-casing the term first changes nothing |
| Text.Lower | frontend/src/components/FolderCreate.jsx:81 | the lower-cased string has the same length and maps each letter to lower case |
| Text.LowerIdempotent | frontend/src/components/FolderCreate.jsx:81 | lower-casing twice is lower-casing once |
| Text.Contains | frontend/src/components/FolderCreate.jsx:81 | `includes` holds iff the term occurs at some position |
| Text.TrimEmptyIff | frontend/src/components/FolderCreate.jsx:49 | a name trims to the empty string iff it consists of whitespace only |
| Text.TrimStripsBothEnds | frontend/src/components/FolderCreate.jsx:49 | a trimmed string neither starts nor ends with whitespace |
| FolderDetails.FindFolder | frontend/src/components/FolderDetails.jsx:37 | no result iff no folder has the id; otherwise the first folder with the id |
| FolderDetails.FolderDetailsPage.LoadFolder | frontend/src/components/FolderDetails.jsx:34-47 | a found folder sets the folder and the name field; a missing one only sets "❌ 文件夹不存在"; a failed request only sets "❌ " + error |
| FolderDetails.FolderDetailsPage.LoadAllQuestions | frontend/src/components/FolderDetails.jsx:49-57 | a success replaces the question list; a failure changes nothing |
| FolderDetails.ExcludeFolderQuestions | frontend/src/components/FolderDetails.jsx:134-136 | the offered list is an order-preserving subsequence holding a question, with all its copies, iff no folder question has its id |
| FolderDetails.AvailableIsDisjoint | frontend/src/components/FolderDetails.jsx:134-136 | no offered question shares an id with, or is, a question of the folder |
| FolderDetails.EmptyFolderExcludesNothing | frontend/src/components/FolderDetails.jsx:134-136 | an empty folder offers every question |
| FolderDetails.FolderDetailsPage.AvailableQuestions | frontend/src/components/FolderDetails.jsx:134-136 | the page offers exactly the loaded questions whose id is not in the folder, in order and with all their copies |
| FolderDetails.FolderDetailsPage.FilteredAvailableQuestions | frontend/src/components/FolderDetails.jsx:139-142 | a subsequence of the offered list holding an offered question iff it matches the search; each question appears as often as in the loaded list when its id is not in the folder and it matches, and otherwise not at all |
| FolderDetails.FolderDetailsPage.HandleRename | frontend/src/components/FolderDetails.jsx:59-74 | a whitespace-only name sends nothing and sets "❌ 文件夹名称不能为空"; otherwise the rename is sent and, on success, editing ends and a reload follows |
| FolderDetails.FolderDetailsPage.HandleAddQuestion | frontend/src/components/FolderDetails.jsx:76-92 | no selection sends nothing and sets "❌ 请选择一个问题"; on success the selection and the search are cleared, the modal closes and a reload follows; on failure they stay |
| FolderDetails.FolderDetailsPage.HandleRemoveQuestion | frontend/src/components/FolderDetails.jsx:94-104 | nothing is sent unless confirmed; on success a reload follows and "✅ 移除成功！" is shown |
| FolderDetails.FolderDetailsPage.CancelEdit | frontend/src/components/FolderDetails.jsx:200-203 | editing ends and the name field is restored to the folder's name |
| FolderDetails.FolderDetailsPage.CloseAddModal | frontend/src/components/FolderDetails.jsx:331-335 | the modal closes and both the search term and the selection are cleared (the cancel button at lines 393-397 does the same) |
| FolderDetails.CloseThenReopen | frontend/src/components/FolderDetails.jsx:393-397 | after closing and reopening the modal the whole offered list is shown and nothing is selected |
| FolderDetails.FolderDetailsPage.StartEditing | frontend/src/components/FolderDetails.jsx:228 | the edit button only switches to editing |
| FolderDetails.FolderDetailsPage.OpenAddModal | frontend/src/components/FolderDetails.jsx:242 | the add button only opens the modal |
| FolderDetails.FolderDetailsPage.SelectQuestion | frontend/src/components/FolderDetails.jsx:369 | clicking an offered question only selects it |
| FolderDetails.FolderDetailsPage.SetSearchTerm | frontend/src/components/FolderDetails.jsx:349 | typing only changes the search term |
| MyQuestions.MarkShared | frontend/src/pages/question/MyQuestionPage.jsx:25-29 | same length and order; questions with the id get `is_public` true, all others are unchanged |
| MyQuestions.SharedQuestionIsPublic | frontend/src/pages/question/MyQuestionPage.jsx:25-29 | after the update the shared question is public and offers no button, and ids, texts and tags are in place |
| MyQuestions.MarkSharedIdempotent | frontend/src/pages/question/MyQuestionPage.jsx:25-29 | sharing the same id twice equals sharing it once |
| MyQuestions.MarkSharedNoOp | frontend/src/pages/question/MyQuestionPage.jsx:25-29 | sharing an absent or already public id leaves the list as it was |
| MyQuestions.MarkSharedCommutes | frontend/src/pages/question/MyQuestionPage.jsx:25-29 | sharing two ids gives the same list in either order |
| MyQuestions.MyQuestionPage.HandleShare | frontend/src/pages/question/MyQuestionPage.jsx:22-33 | on success the list becomes the updated list; on failure it is unchanged and the alert "分享失败: " + error is raised |
| MyQuestions.MyQuestionPage.FetchQuestions | frontend/src/pages/question/MyQuestionPage.jsx:11-18 | a success sets the list; a failure sets "加载失败: " + error |
| MyQuestions.OfferedIdsOf | frontend/src/pages/question/MyQuestionPage.jsx:47-49 | an id is offered a share button iff some question with it is private |
| MyQuestions.MyQuestionPage.OfferedIds | frontend/src/pages/question/MyQuestionPage.jsx:47-49 | the page offers the button exactly for its private questions |
| MyQuestions.SharedIdNotOffered | frontend/src/pages/question/MyQuestionPage.jsx:47-49 | once an id is shared it is no longer offered |
| Backend.Server.VerifyPassword | backend/main.py:106-108 | a password verifies iff its hash equals the stored hash |
| Backend.VerifyOwnHash | backend/main.py:102-108 | every password verifies against its own hash |
| Backend.Server.Signup | backend/main.py:115-125 | a registered email fails with 400 "Email already registered" and leaves the users table; a new one adds exactly that email with the password's hash; tokens and answers untouched |
| Backend.Server.Login | backend/main.py:127-139 | an unknown email or wrong password fails with 401 and creates no token; otherwise one token row for the email expiring an hour after `now` is added and returned with type "bearer" |
| Backend.IssuedTokenLifetime | backend/main.py:134 | a token issued at t is accepted at every time up to t + 3600 s and refused after |
| Backend.BearerToken | backend/main.py:147-149 | a token is extracted iff the header starts with the case-sensitive "Bearer "; it contains no space |
| Backend.BearerTokenRoundTrip | backend/main.py:147-149 | the token of "Bearer " + token, with or without further words, is that token |
| Backend.BearerSchemeIsExact | backend/main.py:147 | "bearer …", "BEARER …", "Bearerabc" and a bare token are refused |
| Text.JoinSplit | backend/main.py:149 | `split(" ")` loses nothing: joining the fields gives back the header |
| Text.SplitFieldsHaveNoSeparator | backend/main.py:149 | no split field contains a space |
| Backend.Server.SaveAnswer | backend/main.py:142-167 | a bad header gives 401 "Invalid Authorization header format"; an unknown or expired token 401 "Invalid or expired token"; otherwise exactly one answer owned by the token's email is appended; users and tokens untouched (the intended reading of line 153, see Findings) |
| Backend.OwnedBy | backend/main.py:180 | the selected answers are exactly those of the email |
| Backend.OwnedByAppend | backend/main.py:157-163 | a new answer is added to its owner's list, at the end, and to no one else's |
| Backend.Server.GetAnswers | backend/main.py:170-183 | fails with 401 iff the raw token is unknown or expired; otherwise lists exactly the answers owned by the token's email (the intended reading of line 176, see Findings) |
| Backend.Views | backend/main.py:183 | each listed answer shows its id, content and creation time |
| Backend.SignupLoginFetch | backend/main.py:115-139 | after signing up, logging in with the same credentials gets a token that `get_answers` accepts now and refuses after an hour |
| Backend.SaveThenFetch | backend/main.py:142-183 | a saved answer appears at the end of its owner's list, and another user's list is unchanged |
| ApiConfig.ApiBaseUrl | frontend/src/api/config.jsx:19-35 | development gives ""; production gives the configured URL verbatim, or "https://sanxing.onrender.com" when it is unset or empty |
| ApiConfig.ApiUrl | frontend/src/api/config.jsx:44-52 | development returns the path unchanged; production prefixes the base URL |
| ApiConfig.ApiUrlIsBasePlusPath | frontend/src/api/config.jsx:44-52 | in both modes the URL is base + path, and the path is its suffix after the base |
| ApiConfig.ApiUrlInjective | frontend/src/api/config.jsx:44-52 | different paths give different URLs |
| ApiConfig.UnconfiguredProductionExample | frontend/src/api/config.jsx:26-34 | an unconfigured production build calls "https://sanxing.onrender.com/api/test"; a development build calls "/api/test" whatever is configured |

| DateKeys.DateKey | frontend/src/components/Calendar.jsx:76 | for a month and day below 100 the key is the year's digits followed by six characters (`-MM-DD`) |
| ActivityCalendar.MonthGrid | frontend/src/components/Calendar.jsx:51-65 | `firstDay` empty entries, then at index firstDay + d − 1 the day d, for d in 1..daysInMonth, and nothing more |
| ActivityCalendar.TotalAnswers | frontend/src/components/Calendar.jsx:107 | the sum of a map's non-negative counts is non-negative |
| FolderCreate.Toggle | frontend/src/components/FolderCreate.jsx:38-44 | the toggled id is present afterwards iff it was absent; every other id keeps its number of copies; an absent id is appended at the end |
| Folders.MatchesSearch | frontend/src/components/FolderCreate.jsx:81-82 | the empty term and a text match always match; a question without a tag, or with an empty one, matches by its text alone |
| Text.Trim | frontend/src/components/FolderCreate.jsx:49 | the input is the result with a whitespace prefix and a whitespace suffix around it |
| Backend.TokenValid | backend/main.py:153 | a token passes only if it is in the table, and then iff `now` is not past its expiry (so the last second of the hour still passes); the same test is at line 176 |
| Backend.Server.HashPassword | backend/main.py:102-104 | `hexdigest()` of SHA-256: 64 lower-case hexadecimal characters |
| Backend.Server.constructor | backend/main.py:86 | the server starts with the given hash function and empty users, tokens and answers tables |
| Backend.TokenCheckAsWritten | backend/main.py:152-154 | as written, no token passes: a missing token gets 401, a stored one the 500 of the naive/aware comparison |
| Backend.IssuedTokenRefusedAsWritten | backend/main.py:134-136 | a token login has just issued passes the intended check for its whole hour but gets 500 from the check as written |
| Backend.Server.SaveAnswerAsWritten | backend/main.py:142-154 | as written, `save_answer` never succeeds: a bad header gets 401, a missing token 401, a stored token 500 |
| Backend.Server.GetAnswersAsWritten | backend/main.py:170-177 | as written, `get_answers` never returns a list: a stored token gets 500, any other 401 |
| Backend.ValidTokenAsWritten | backend/main.py:152-177 | for a token the intended check accepts, the intended `get_answers` lists the owner's answers while the code as written answers 500 to both endpoints |
| FolderCreate.FolderCreateForm.constructor | frontend/src/components/FolderCreate.jsx:11-17 | empty name, question list, selection, search term and message, not creating |
| FolderDetails.FolderDetailsPage.constructor | frontend/src/components/FolderDetails.jsx:16-23 | no folder, empty name, not editing, no message, no questions, nothing selected, empty search, modal closed, for the route's folder id |
| MyQuestions.MyQuestionPage.constructor | frontend/src/pages/question/MyQuestionPage.jsx:5-6 | an empty list and no error |
| HomePage.HomeFoldersSection.constructor | frontend/src/pages/home/HomePageNew.jsx:281-282 | no folders, loading |

## Left out

- Rendering, Tailwind classes, routing: only the routes and request lists that handlers emit are modelled.
- The `fetch` wrappers under `frontend/src/api/` other than `config.jsx` are not part of this model; their results are inputs.
- `localStorage` token reads are a `hasToken` flag. Timers are not modelled: the `setTimeout` that clears messages, and the one-second wait before the folder list opens (a `toFolderList` flag). `confirm()` answers are a `confirmed` flag.
- Logging with `console.log`/`console.error` is left out; it changes no state.
- ActivityCalendar.AveragePerActiveDay: the value is a `real` quotient; `toFixed(1)` rounding and floating point are not modelled, only the `activeDays > 0` guard.
- ActivityCalendar.TotalAnswers: JavaScript number addition is modelled as integer addition; overflow past 2^53 does not arise for counts.
- Gregorian.FirstWeekday: JavaScript `Date` reads years 0–99 as 1900–1999 and all years in the local time zone; the model uses the proleptic Gregorian calendar for every integer year.
- DateKeys.DateKeyRoundTrip: stated for month and day below 100, the range in which `padStart(2, "0")` gives two characters.
- Text.Lower: ASCII letters only; Unicode case mapping (and therefore matching of non-ASCII letters of other case) is not modelled.
- FolderDetails.FindFolder: folder ids are strings; a numeric `id` from the server compared with `===` against the route parameter string would never match, which the model does not represent.
- Backend.Server.SaveAnswer: expiry is compared as integer seconds, the intended reading. As written, the stored `expires_at` comes back from SQLite without a time zone, and comparing it with the aware `datetime.now(timezone.utc)` raises, so every stored token gets 500; that is `Backend.Server.SaveAnswerAsWritten` (see Findings).
- Backend.Server.GetAnswers: the same comparison at line 176, intended reading as above; as written it is `Backend.Server.GetAnswersAsWritten`.
- Backend.OwnedBy: answers are listed in table (insertion) order; the query at main.py line 180 has no `ORDER BY`, so that order is what SQLite happens to return, which the model assumes.
- HomePage.HomeCalendarSection.LoadActivity: the month the request was made for is not recorded; the response is stored as it comes.
- DateKeys.DateKey: its own contract states only the key's length; the layout is stated by DateKeyRoundTrip and FourDigitYearKeyIsFullDate.
- Backend.Server.Login: a drawn token that already exists, and likewise a clashing answer id in `save_answer`, is modelled as a 500 error; SQLAlchemy sessions, commits and rollbacks are otherwise not modelled.
- Backend: `EmailStr` validation and the 422 responses of request parsing, CORS, `random.choice` in `get_question`, and the SHA-256 internals (the hash is an uninterpreted function).
- `loadAllQuestions` of the folder creation form (a plain fetch into state) is not modelled; its result is simply the form's `allQuestions`.
- The older duplicates `frontend/src/pages/folder/folderdetailpage.jsx`, `folderpage.jsx` and `frontend/src/components/Folders.jsx` are not part of this model; their guards are the ones modelled here.
- Date formatting in `CalendarActivity.jsx`, `DailyAnswersPage.jsx` and `setting.jsx` depends on the local time zone and the clock and is left out, as is the cancellation flag of `WriteAnswer.jsx`.
- Scripts, tests and build configuration of the repository are left out.

## Findings

| source | as written | input that shows it | evidently intended | confidence | as-written member | corrected member |
|---|---|---|---|---|---|---|
| backend/main.py:153 | `db_token.expires_at < datetime.now(timezone.utc)` compares the naive `expires_at` read back from the `DateTime` column (line 64) with an aware time, which raises, so `save_answer` answers 500 | log in, then post an answer with "Bearer " + the issued token within the hour | the token is accepted until it expires and the answer is saved | medium, not executed | Backend.Server.SaveAnswerAsWritten | Backend.Server.SaveAnswer |
| backend/main.py:176 | the same comparison in `get_answers`, so every stored token gets 500 | log in, then get answers with the issued token within the hour | the owner's answers are listed until the token expires | medium, not executed | Backend.Server.GetAnswersAsWritten | Backend.Server.GetAnswers |
