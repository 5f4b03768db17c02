# kanban-admin: a Dafny model of the dashboard's logic

kanban-admin is a client-side React admin dashboard. Most of it is markup over hard-coded data. This project models the parts that compute something, and proves what they promise:

- **The user table** (`DataTable.tsx`). A case-insensitive search over name or e-mail, then an exact role filter, then a stable sort on name, role or join date in either direction. Also the `handleSort` state machine behind the column headers, and the "Showing X of Y" footer.
- **The calendar** (`Calendar.tsx`). The ECMAScript date arithmetic behind `daysInMonth` and `firstDayOfMonth`, the `YYYY-MM-DD` date key and its event lookup, and the month grid (leading blanks, then one cell per day). Also the two-inline-plus-"+N more" rule of a cell, the today marker, and month navigation with year rollover.
- **The page shell** (`Index.tsx` with the `Sidebar.tsx` menu). The `activeTab`/`sidebarCollapsed` state, the `renderContent` switch with its dashboard fallback, and the menu ids it is checked against.
- **The theme store** (`ThemeContext.tsx`). A four-valued theme cell with default `blue`, its setter, and the `useTheme` guard that fails outside a provider.
- **The Kanban board** (`KanbanBoard.tsx`). The seeded columns, the per-column count badge, `getInitials` and the first-name label of a card.

The JavaScript built-ins these rely on are modelled in two shared modules:

- `Prelude`: `Array.prototype.filter`.
- `Text`: ASCII `toLowerCase`/`toUpperCase`, `includes`, string `<`, `split`/`join`, `String(n)` and `padStart`.

The date arithmetic is in `DateMath`. React state cells become class fields updated by methods. A setter states its new fields outright; a method that computes something, such as `HandleSort` or `GenerateCalendarDays`, is specified by a pure function. Data that the source never changes is a function returning the seed: the users, the events, the board columns and the menu. The Kanban `columns` state has a setter that is never called, so the board is such a constant.

Where the code and its documentation differ, the model follows the code:

- The role filter lower-cases only the record's role. It compares that with the selected value as given.
- A descending sort is stable and non-increasing. With ties it is not the ascending order reversed, as `RoleTiesKeepSeedOrder` shows.
- `setTheme` stores whatever it is given. The theme type is closed, and nothing validates values arriving from the header's select.
- The Kanban statistics cards show literal numbers, such as "Total Tasks 12" for a board of seven tasks. They are not derived from the board.

## Model

| member | source | states |
|---|---|---|
| Prelude.Filter | src/components/DataTables/DataTable.tsx:38-43 | the result is never longer than the input, holds only elements that pass, and holds every element that passes |
| Prelude.FilterAppend | src/components/Calendar/Calendar.tsx:51 | filtering keeps relative order: the matches of a concatenation are the matches of each part, in turn |
| Prelude.FilterCount | src/components/DataTables/DataTable.tsx:38-43 | each value occurs in the result as often as in the input when it passes, and never otherwise |
| Prelude.FilterKeepsAll | src/components/DataTables/DataTable.tsx:39-43 | a filter every element passes returns the input unchanged |
| Text.LowerChar | src/components/DataTables/DataTable.tsx:40-41 | the result is never an upper-case letter; each upper-case letter maps to its own lower-case letter (same offset from 'a' as from 'A'); everything else is unchanged |
| Text.UpperChar | src/components/Kanban/KanbanBoard.tsx:140 | the result is never a lower-case letter; each lower-case letter maps to its own upper-case letter; everything else is unchanged |
| Text.Lower | src/components/DataTables/DataTable.tsx:40-41 | same length, lower-cased character by character |
| Text.Upper | src/components/Kanban/KanbanBoard.tsx:140 | same length, upper-cased character by character |
| Text.LowerLacks | src/components/DataTables/DataTable.tsx:40-41 | a letter absent from a string in both cases is absent from its lower-cased form |
| Text.Includes | src/components/DataTables/DataTable.tsx:40-41 | true exactly when the needle occurs at some position of the string |
| Text.IncludesEmpty | src/components/DataTables/DataTable.tsx:40-41 | the empty search string occurs in every string |
| Text.NotIncludesMissingChar | src/components/DataTables/DataTable.tsx:40-41 | a string lacking one of the needle's characters does not include the needle |
| Text.Less | src/components/DataTables/DataTable.tsx:48-50 | string `<`, lexicographic by character code with a proper prefix first; it never holds between equal strings |
| Text.LessIrreflexive | src/components/DataTables/DataTable.tsx:48-50 | no string is `<` itself |
| Text.LessTransitive | src/components/DataTables/DataTable.tsx:48-50 | string `<` is transitive |
| Text.LessTrichotomy | src/components/DataTables/DataTable.tsx:48-50 | exactly one of `a < b`, `a == b`, `b < a` holds |
| Text.LessAppend | src/components/DataTables/DataTable.tsx:48-50 | behind heads of equal length, `<` is decided by the heads, or by the tails when the heads are equal |
| Text.LessSameHead | src/components/DataTables/DataTable.tsx:48-50 | strings with the same first character compare as their remainders |
| Text.LessTwoDigits | src/components/Calendar/Calendar.tsx:50 | zero-padded two-digit fields compare as strings the way their numbers compare |
| Text.FourDigitYear | src/components/Calendar/Calendar.tsx:50 | a four-digit year's numeral is its century field followed by its year-of-century field |
| Text.LessCenturyFields | src/components/Calendar/Calendar.tsx:50 | a century field followed by a year-of-century field compares as a string the way 100 × century + year compares |
| Text.LessFourDigitYears | src/components/Calendar/Calendar.tsx:50 | four-digit years compare as strings the way the years compare |
| Text.Split | src/components/Kanban/KanbanBoard.tsx:140 | splitting always yields at least one piece |
| Text.SplitPiecesHaveNoSeparator | src/components/Kanban/KanbanBoard.tsx:140 | no piece of a split contains the separator |
| Text.SplitNoSeparator | src/components/Kanban/KanbanBoard.tsx:140 | a string without the separator splits into itself alone |
| Text.SplitAtSeparator | src/components/Kanban/KanbanBoard.tsx:140 | a separator after a separator-free head ends the first piece, which is that head |
| Text.Join | src/components/Kanban/KanbanBoard.tsx:140 | join with a one-character separator, used only as the inverse that states split's round trip (the `join('')` at this line is `Heads`): the joined string holds the first piece and one separator between each two pieces, so it is at least that long |
| Text.JoinSplit | src/components/Kanban/KanbanBoard.tsx:140 | joining the pieces with the separator gives back the original string |
| Text.SplitJoin | src/components/Kanban/KanbanBoard.tsx:140 | splitting non-empty, separator-free pieces joined with the separator gives the pieces back, so split is the only separator-free decomposition |
| Text.Digit | src/components/Calendar/Calendar.tsx:50 | a value 0..9 maps to a digit character |
| Text.DigitValue | src/components/Calendar/Calendar.tsx:50 | a digit character maps back to the value whose digit it is |
| Text.NatToString | src/components/Calendar/Calendar.tsx:50 | non-empty, starting with a digit, no leading zero; it starts with '0' exactly for 0; one digit exactly below 10, two exactly for 10..99 |
| Text.NatToStringDigits | src/components/Calendar/Calendar.tsx:50 | every character of the numeral is a digit |
| Text.IntToString | src/components/Calendar/Calendar.tsx:50 | non-empty, starting with a minus sign exactly for negative numbers, and the shortest numeral: no zero after the minus sign and no leading zero on a numeral of two or more digits |
| Text.ParseNatToString | src/components/Kanban/KanbanBoard.tsx:168 | the numeral of n is all digits and reads back as n |
| Text.ParseIntToString | src/components/Calendar/Calendar.tsx:50 | the numeral of an integer is a minus sign or a digit, then digits, and reads back as the integer |
| Text.IntToStringInjective | src/components/Calendar/Calendar.tsx:50 | different integers have different numerals |
| Text.PadStart | src/components/Calendar/Calendar.tsx:50 | the result has the target width (or the input's, if longer), ends with the input, and is fill before it |
| Text.PadOnce | src/components/Calendar/Calendar.tsx:50 | a string one character short of the width gets exactly one fill character in front |
| Text.TwoDigits | src/components/Calendar/Calendar.tsx:50 | exactly two digit characters |
| Text.TwoDigitsRoundTrip | src/components/Calendar/Calendar.tsx:50 | the two-digit field reads back as its number |
| Text.TwoDigitsIsPadded | src/components/Calendar/Calendar.tsx:50 | the field, the tens digit then the units digit, is `String(n).padStart(2, '0')` |
| Text.TwoDigitNumeral | src/components/Calendar/Calendar.tsx:50 | from 10 to 99 the plain numeral already is the two-digit field |
| Text.TwoDigitsInjective | src/components/Calendar/Calendar.tsx:50 | different numbers below 100 have different fields |
| ThemeContext.ThemeProvider.constructor | src/contexts/ThemeContext.tsx:21-22 | a new provider holds `blue` |
| ThemeContext.ThemeProvider.SetTheme | src/contexts/ThemeContext.tsx:22-25 | the stored theme becomes the given one |
| ThemeContext.SetThemeTwice | src/contexts/ThemeContext.tsx:22-25 | setting a theme twice leaves the state of setting it once |
| ThemeContext.UseTheme | src/contexts/ThemeContext.tsx:13-19 | fails with the guard's message exactly when there is no provider, and otherwise returns that provider |
| ThemeContext.CurrentTheme | src/contexts/ThemeContext.tsx:13-19 | a consumer reads the provider's current theme, or gets the guard's error outside a provider |
| DataTable.MatchesSearch | src/components/DataTables/DataTable.tsx:39-42 | the empty search matches every record |
| DataTable.MatchesRole | src/components/DataTables/DataTable.tsx:43 | role `all` matches every record |
| DataTable.Compare | src/components/DataTables/DataTable.tsx:44-52 | the comparator returns -1, 0 or 1; 0 exactly on equal keys; at most 0 exactly when the first record may precede the second in the chosen direction |
| DataTable.InOrderTotal | src/components/DataTables/DataTable.tsx:44-52 | any two records can be ordered one way or the other |
| DataTable.InOrderTransitive | src/components/DataTables/DataTable.tsx:44-52 | the order is transitive |
| DataTable.Insert | src/components/DataTables/DataTable.tsx:44-52 | inserting one record makes the sequence one longer |
| DataTable.InsertPermutes | src/components/DataTables/DataTable.tsx:44-52 | insertion adds exactly the one record |
| DataTable.InsertOrdered | src/components/DataTables/DataTable.tsx:44-52 | inserting into an ordered sequence keeps it ordered |
| DataTable.InsertStable | src/components/DataTables/DataTable.tsx:44-52 | the inserted record stays ahead of every record with its key |
| DataTable.SortUsers | src/components/DataTables/DataTable.tsx:44-52 | the sort keeps the number of records |
| DataTable.SortPermutes | src/components/DataTables/DataTable.tsx:44-52 | the sort is a permutation of its input |
| DataTable.SortOrdered | src/components/DataTables/DataTable.tsx:44-52 | the output is non-decreasing in the key under asc and non-increasing under desc |
| DataTable.SortStable | src/components/DataTables/DataTable.tsx:44-52 | for every key, the records with that key keep their input order |
| DataTable.FilteredAndSortedUsers | src/components/DataTables/DataTable.tsx:38-52 | never more rows than records |
| DataTable.FilteredAndSortedSpec | src/components/DataTables/DataTable.tsx:38-52 | the rows are exactly the seed records that pass the search and role filters, each as often as in the seed. They are ordered by the key in the chosen direction, with ties in seed order, and never outnumber the seed |
| DataTable.NoFilterKeepsAll | src/components/DataTables/DataTable.tsx:39-43 | an empty search with role `all` keeps every record |
| DataTable.Flip | src/components/DataTables/DataTable.tsx:56 | the direction always changes |
| DataTable.NextSort | src/components/DataTables/DataTable.tsx:54-61 | the clicked column becomes the sort column; the direction flips if it already was, else it becomes asc |
| DataTable.NextSortTwice | src/components/DataTables/DataTable.tsx:54-61 | two clicks on the sort column restore the state; two on another column sort it descending |
| DataTable.DataTableView.constructor | src/components/DataTables/DataTable.tsx:18-21 | the table opens with an empty search, role `all`, sorted by name ascending |
| DataTable.DataTableView.SetSearchTerm | src/components/DataTables/DataTable.tsx:88 | replaces the search term only |
| DataTable.DataTableView.SetFilterRole | src/components/DataTables/DataTable.tsx:99 | replaces the role filter only |
| DataTable.DataTableView.HandleSort | src/components/DataTables/DataTable.tsx:54-61 | the sort state moves as `NextSort` says; the filters are unchanged |
| DataTable.DataTableView.ShowingCounts | src/components/DataTables/DataTable.tsx:217 | X is the number of rows shown, Y is the seed's 5, and X is at most Y |
| DataTableSeed.EmptySearchKeepsAll | src/components/DataTables/DataTable.tsx:39-42 | the empty search keeps every record in order |
| DataTableSeed.NothingFiltered | src/components/DataTables/DataTable.tsx:38-43 | no search and role `all` leave the input as it is |
| DataTableSeed.NameComparisons | src/components/DataTables/DataTable.tsx:23-29 | the comparator's verdicts on the seed names |
| DataTableSeed.SortFiveByName | src/components/DataTables/DataTable.tsx:44-52 | five records with the seed's name comparisons sort into Alex, Emma, John, Mike, Sarah order |
| DataTableSeed.InitialRows | src/components/DataTables/DataTable.tsx:18-52 | the first render lists all five users: Alex Chen, Emma Davis, John Doe, Mike Johnson, Sarah Wilson |
| DataTableSeed.RoleComparisons | src/components/DataTables/DataTable.tsx:23-29 | the comparator's verdicts on the seed roles, in both directions |
| DataTableSeed.SortFiveByRoleAscending | src/components/DataTables/DataTable.tsx:44-52 | five records with the seed's role comparisons sort admin, editors, users under asc, ties in input order |
| DataTableSeed.SortFiveByRoleDescending | src/components/DataTables/DataTable.tsx:44-52 | and users, editors, admin under desc, ties still in input order |
| DataTableSeed.RoleTiesKeepSeedOrder | src/components/DataTables/DataTable.tsx:44-52 | sorting by role keeps Sarah before Emma and Mike before Alex in both directions, so desc is not asc reversed |
| DataTableSeed.SearchRejects | src/components/DataTables/DataTable.tsx:39-42 | a lower-case term with a letter missing from the name and a letter missing from the e-mail rejects the record |
| DataTableSeed.FilterFive | src/components/DataTables/DataTable.tsx:39-43 | filtering five records keeps exactly those that pass, in order |
| DataTableSeed.SarahFound | src/components/DataTables/DataTable.tsx:39-42 | the search "sarah" matches Sarah Wilson |
| DataTableSeed.JohnNotFound | src/components/DataTables/DataTable.tsx:39-42 | and does not match John Doe |
| DataTableSeed.MikeNotFound | src/components/DataTables/DataTable.tsx:39-42 | nor Mike Johnson |
| DataTableSeed.EmmaNotFound | src/components/DataTables/DataTable.tsx:39-42 | nor Emma Davis |
| DataTableSeed.AlexNotFound | src/components/DataTables/DataTable.tsx:39-42 | nor Alex Chen |
| DataTableSeed.SearchSarah | src/components/DataTables/DataTable.tsx:38-52 | searching "sarah" shows exactly Sarah Wilson |
| DataTableSeed.RolesLowered | src/components/DataTables/DataTable.tsx:43 | the seed roles lower-case to admin, editor, user, editor, user, which are the select's values |
| DataTableSeed.FilterSecondAndFourth | src/components/DataTables/DataTable.tsx:43 | of five records, a filter passing only the second and fourth keeps exactly those two, in order |
| DataTableSeed.EditorsSurvive | src/components/DataTables/DataTable.tsx:43 | role `editor` keeps Sarah Wilson and Emma Davis, in seed order |
| DataTableSeed.EditorsOnly | src/components/DataTables/DataTable.tsx:38-52 | role `editor` shows Emma Davis then Sarah Wilson |
| DataTableSeed.JoinDateOrderIsChronological | src/components/DataTables/DataTable.tsx:44-52 | for join dates written as four-digit-year ISO keys, the join-date sort is chronological: under asc a record may come first exactly when it did not join later, under desc exactly when it did not join earlier |
| DataTableSeed.SeedJoinDates | src/components/DataTables/DataTable.tsx:23-29 | the seed join dates are the keys of 2024-01-15, 02-20, 03-10, 04-05 and 05-12 |
| DateMath.Normalize | src/components/Calendar/Calendar.tsx:46 | the month lands in 0..11 and the total month count is kept |
| DateMath.DaysInMonth | src/components/Calendar/Calendar.tsx:40 | day 0 of the next month gives the Gregorian month length, 28..31, and 29 exactly for February of a leap year |
| DateMath.WeekDay | src/components/Calendar/Calendar.tsx:41 | a weekday in 0..6 |
| DateMath.FirstDayOfMonth | src/components/Calendar/Calendar.tsx:41 | the weekday of day 1, in 0..6 with 0 = Sunday |
| DateMath.LeapStep | src/components/Calendar/Calendar.tsx:40 | the days before year y exceed those before year y - 1 by 366 in a leap year and by 365 otherwise |
| DateMath.YearLength | src/components/Calendar/Calendar.tsx:40 | a year has 366 days when it is a leap year and 365 otherwise |
| DateMath.MonthSpan | src/components/Calendar/Calendar.tsx:40 | consecutive month starts lie a Gregorian month length apart |
| DateMath.EpochIsDayZero | src/components/Calendar/Calendar.tsx:41 | 1970-01-01 is day 0 and a Thursday |
| DateMath.NextMonthFirstDay | src/components/Calendar/Calendar.tsx:41 | the next month starts as many weekdays later as this month has days |
| DateMath.NormalizeRollover | src/components/Calendar/Calendar.tsx:46 | month 12 is January of the next year and month -1 is December of the previous one |
| DateMath.June2024 | src/components/Calendar/Calendar.tsx:40-41 | June 2024 starts on a Saturday and has 30 days |
| Calendar.DateKey | src/components/Calendar/Calendar.tsx:50 | the year's numeral followed by six characters, with dashes six and three places from the end |
| Calendar.KeyFields | src/components/Calendar/Calendar.tsx:50 | a key with two-character month and day fields splits back into its three fields |
| Calendar.DateKeyInjective | src/components/Calendar/Calendar.tsx:50 | different days have different keys |
| Calendar.KeysDiffer | src/components/Calendar/Calendar.tsx:50 | so the key of one day never matches another day's |
| Calendar.LessFields | src/components/Calendar/Calendar.tsx:50 | dash-joined keys whose year and month fields have equal widths compare by year, then month, then day |
| Calendar.DateKeyOrder | src/components/Calendar/Calendar.tsx:50 | with four-digit years, one key is `<` another exactly when its day is earlier |
| Calendar.EventsForDate | src/components/Calendar/Calendar.tsx:49-52 | never more events than the list holds |
| Calendar.EventsForDateMembers | src/components/Calendar/Calendar.tsx:49-52 | an event is returned exactly when it is in the list and its date equals the day's key |
| Calendar.EventsForDateCount | src/components/Calendar/Calendar.tsx:51 | a matching event is returned as often as it is listed, any other event never |
| Calendar.EventsForDateOrder | src/components/Calendar/Calendar.tsx:51 | the matches keep the event list's order |
| Calendar.IsToday | src/components/Calendar/Calendar.tsx:65 | a day is today exactly when the current date is that year, month and day |
| Calendar.DayCellFor | src/components/Calendar/Calendar.tsx:63-67 | the cell pushed for day d is a day cell numbered d, holding no more events than the list |
| Calendar.DayCellsIndex | src/components/Calendar/Calendar.tsx:63-67 | the k-th pushed day cell is the cell of day k + 1 |
| Calendar.MonthGrid | src/components/Calendar/Calendar.tsx:54-96 | a month laid out from its first weekday has that many blanks plus one cell per day |
| Calendar.CalendarGrid | src/components/Calendar/Calendar.tsx:54-96 | the displayed month has firstDayOfMonth + daysInMonth cells, at most 37 |
| Calendar.GridLayout | src/components/Calendar/Calendar.tsx:54-96 | the grid is `first` blanks followed by days 1..n in increasing order |
| Calendar.CalendarGridSize | src/components/Calendar/Calendar.tsx:54-96 | the grid has firstDayOfMonth + daysInMonth cells, at most 37 |
| Calendar.GridCell | src/components/Calendar/Calendar.tsx:63-64 | the cell after the blanks at offset d-1 is day d with that day's events |
| Calendar.EventPlacement | src/components/Calendar/Calendar.tsx:63-64 | a cell holds an event exactly when it is a day cell whose key is the event's date |
| Calendar.EventCellHit | src/components/Calendar/Calendar.tsx:63-64 | the cell of an event's day holds it |
| Calendar.EventCellMiss | src/components/Calendar/Calendar.tsx:63-64 | no other cell holds it |
| Calendar.MonthEventInOneCell | src/components/Calendar/Calendar.tsx:63-64 | in a laid-out month, an event dated on day d is in exactly one cell, the cell of day d |
| Calendar.EventInExactlyOneCell | src/components/Calendar/Calendar.tsx:49-64 | on the calendar, an event of the displayed month is in exactly the cell of its day |
| Calendar.EventOutsideMonthInNoCell | src/components/Calendar/Calendar.tsx:49-64 | an event dated in another month is in no cell |
| Calendar.MonthTodayCell | src/components/Calendar/Calendar.tsx:65 | at most one cell is marked today, and one is exactly when the current date is a day of the laid-out month |
| Calendar.TodayCell | src/components/Calendar/Calendar.tsx:65 | on the calendar, at most one cell is today, and one is exactly when the current date lies in the displayed month |
| Calendar.InlineEvents | src/components/Calendar/Calendar.tsx:79 | at most two events, taken from the front of the day's list: all of them when there are at most two, exactly the first two otherwise |
| Calendar.MoreCount | src/components/Calendar/Calendar.tsx:87-89 | the "+N more" line appears exactly when there are more than two events, and N is the count less two, the number not drawn inline |
| Calendar.OverflowAccountsForAll | src/components/Calendar/Calendar.tsx:79-89 | the inline events and the ones counted by "+N more" together are the whole list |
| Calendar.Navigate | src/components/Calendar/Calendar.tsx:45-47 | day 1 of the month after or before; December goes to January of the next year and January to December of the previous one |
| Calendar.NavigateRoundTrip | src/components/Calendar/Calendar.tsx:45-47 | next then prev, or prev then next, returns to day 1 of the same month |
| Calendar.GridNoDays | src/components/Calendar/Calendar.tsx:58-60 | before any day is pushed the grid is the blanks alone |
| Calendar.DayStep | src/components/Calendar/Calendar.tsx:63-67 | pushing the cell of day k + 1 onto the grid of k days gives the grid of k + 1 days |
| Calendar.CalendarView.constructor | src/components/Calendar/Calendar.tsx:17-25 | the page opens on the current date with the seed events |
| Calendar.CalendarView.NavigateMonth | src/components/Calendar/Calendar.tsx:45-47 | the displayed date moves as `Navigate` says and stays a valid date |
| Calendar.CalendarView.GoToToday | src/components/Calendar/Calendar.tsx:129 | the displayed date becomes the current date |
| Calendar.CalendarView.GenerateCalendarDays | src/components/Calendar/Calendar.tsx:54-96 | the two push loops build exactly the grid of the displayed month |
| Calendar.YearField | src/components/Calendar/Calendar.tsx:50 | the year 2024 is written "2024" |
| Calendar.JuneKeyFields | src/components/Calendar/Calendar.tsx:50 | the month and day fields of the June 2024 event days |
| Calendar.SeedDates | src/components/Calendar/Calendar.tsx:20-25 | the seed events fall on June 15, 20, 25 and 28 of 2024 |
| Calendar.JuneShowsTeamMeetingOnce | src/components/Calendar/Calendar.tsx:20-25 | shown on June 2024, the Team Meeting is in cell 20 only, the day-15 cell after six blanks |
| IndexPage.HandledIds | src/pages/Index.tsx:18-33 | the switch has seven cases with distinct ids |
| IndexPage.RenderContent | src/pages/Index.tsx:18-37 | any id without a case renders the dashboard |
| IndexPage.TabId | src/pages/Index.tsx:18-33 | every panel's id is one of the handled ids |
| IndexPage.RenderTabId | src/pages/Index.tsx:18-33 | every panel is reached through its own case |
| IndexPage.HandledIdsRenderOwnPanel | src/pages/Index.tsx:18-33 | each handled id renders the panel whose id it is |
| IndexPage.HandledIdsDistinctPanels | src/pages/Index.tsx:18-33 | different handled ids render different panels |
| IndexPage.MenuItems | src/components/Layout/Sidebar.tsx:37-45 | the menu has one entry per handled id |
| IndexPage.MenuIdsAreHandled | src/components/Layout/Sidebar.tsx:37-45 | the sidebar offers exactly the handled ids, in the switch's order, so no menu choice reaches the fallback |
| IndexPage.MenuIdsDistinct | src/components/Layout/Sidebar.tsx:37-45 | the menu ids are distinct |
| IndexPage.EveryPanelOnTheMenu | src/components/Layout/Sidebar.tsx:37-45 | every panel is offered by exactly one menu entry |
| IndexPage.Shell.constructor | src/pages/Index.tsx:15-16 | the page opens on the dashboard with the sidebar expanded |
| IndexPage.Shell.Content | src/pages/Index.tsx:18-37 | an active tab without a case shows the dashboard |
| IndexPage.Shell.IsActive | src/components/Layout/Sidebar.tsx:135 | the highlighted entry is the one whose panel the main area shows |
| IndexPage.Shell.SetActiveTab | src/components/Layout/Sidebar.tsx:140 | replaces the active tab and leaves the sidebar flag |
| IndexPage.Shell.ToggleSidebar | src/components/Layout/Sidebar.tsx:57 | negates the sidebar flag and leaves the active tab |
| IndexPage.ChooseMenuItem | src/components/Layout/Sidebar.tsx:133-140 | clicking an entry shows that entry's panel, makes it the only highlighted entry, and leaves the sidebar flag |
| IndexPage.ToggleTwice | src/components/Layout/Sidebar.tsx:57 | two toggles restore the sidebar flag |
| KanbanBoard.Badge | src/components/Kanban/KanbanBoard.tsx:167-169 | the badge is a numeral without leading zero that reads back as the column's card count |
| KanbanBoard.SeedBoard | src/components/Kanban/KanbanBoard.tsx:26-118 | the board has the columns todo, in-progress, review and done, with 2, 2, 1 and 2 tasks and ids 1..7 in order |
| KanbanBoard.TaskInExactlyOneColumn | src/components/Kanban/KanbanBoard.tsx:26-118 | each seed task id is in exactly one column |
| KanbanBoard.SeedBadges | src/components/Kanban/KanbanBoard.tsx:167-169 | the badges read 2, 2, 1 and 2 |
| KanbanBoard.Heads | src/components/Kanban/KanbanBoard.tsx:140 | at most one character per piece |
| KanbanBoard.GetInitials | src/components/Kanban/KanbanBoard.tsx:139-141 | the initials hold no lower-case letter |
| KanbanBoard.Words | src/components/Kanban/KanbanBoard.tsx:140 | the words of a name are its non-empty pieces |
| KanbanBoard.HeadsAreFirstLetters | src/components/Kanban/KanbanBoard.tsx:140 | taking first characters and joining yields one character per non-empty piece, in order; empty pieces add nothing |
| KanbanBoard.InitialsOfWords | src/components/Kanban/KanbanBoard.tsx:139-141 | the initials hold exactly one upper-cased first letter per word of the name, in order |
| KanbanBoard.InitialsHaveNoSpace | src/components/Kanban/KanbanBoard.tsx:139-141 | no initial is a space |
| KanbanBoard.ShortName | src/components/Kanban/KanbanBoard.tsx:221 | the first name is the longest space-free prefix of the assignee |
| KanbanBoard.SplitFirstPiece | src/components/Kanban/KanbanBoard.tsx:221 | the first piece of a split is a separator-free prefix that ends at the string's end or at a separator |
| KanbanBoard.TwoWordName | src/components/Kanban/KanbanBoard.tsx:139-141 | a two-word name has the upper-cased first letters of its words as initials and its first word as short name |
| KanbanBoard.SeedAvatar | src/components/Kanban/KanbanBoard.tsx:219-221 | the card of Sarah Johnson shows "SJ" beside "Sarah" |
| KanbanBoard.DoubleSpaceAddsNothing | src/components/Kanban/KanbanBoard.tsx:139-141 | "ann  lee" has the initials "AL": the empty piece between the spaces contributes nothing |

## Left out

- Markup, styling and the class-name lookup tables: theme colours, event-type colours, priority colours and icons. They decide appearance only.
- Analytics, the dashboard overview, metric cards, the theme selector page and the settings page. They render literals only.
- The Kanban statistics cards show literal numbers and are not derived from the board.
- The calendar's `selectedDate` is set on click but never read.
- The side panel of upcoming events is markup over the seed list.
- Dates are calendar days in local time. Time zones, time values in milliseconds and the range limit of ECMAScript Date values are not modelled.
- `toDateString` is modelled by comparing year, month and day. This is equivalent for valid dates.
- `toLocaleDateString` of a card's due date is locale formatting and is not modelled.
- Calendar.CalendarView.NavigateMonth, DateMath.FirstDayOfMonth, Calendar.IsToday: the Date constructor maps years 0..99 to 1900..1999. The model does not reproduce this, so for a displayed year in 0..99 the grid's first weekday (Calendar.tsx:41) and the today test (Calendar.tsx:65) use the year as written. It would matter only after stepping back about nineteen centuries from the current date.
- Calendar.DateKeyOrder: stated for four-digit years only. Outside that range, string order is not chronological in the source either.
- The current time (`new Date()`) is a parameter of the grid and of the Today button.
- Case mapping covers ASCII letters only. JavaScript's full Unicode mapping, including characters whose case mapping changes the string length, is not modelled.
- Strings are sequences of characters, not UTF-16 code units. String `<` compares characters by code.
- Text.Split: only one-character separators are modelled, which is all the source uses.
- The React context is an optional provider parameter of `useTheme`, not a component tree.
- Re-rendering on state change is not modelled. The table's rows are a function of its four state cells, recomputed when read.
- Header.tsx passes the select's raw value to `setTheme`. The model's theme type holds only the four themes, so an out-of-range value cannot be stored.
