# TaskTui core, modelled in Dafny

TaskTui is a terminal task manager built on Terminal.Gui. This project models its
view-model engine. Each piece below gets its own module.

- The task record and the in-memory store: `TaskItem`, `TaskStore`.
- The filter catalogue: `Filters`.
- The row flattener and header cursor of the reusable list widget and of the full-window
  list: `TaskRows`, `ListView`, `ListScreen`.
- The Add/Edit editor's Save validation and commit: `TaskDialogs`.
- The action binder that wires a list's requests to the store: `Actions`.
- The day screen's hour gutter and quick-add: `DayScreen`.
- The week screen's seven-day strip: `WeekScreen`.
- The calendar's Monday-first 6×7 month grid: `CalendarScreen`.
- Shared helpers:
  - `Wrappers` (Option);
  - `Strings`: the .NET string operations used;
  - `Dates`: a day-number calendar;
  - `Keys`: the keys the handlers compare against;
  - `Cells`: the cell padding and due-count helpers that the calendar and the week strip both define.

Modelling choices:

- **Dates.** A date is an integer day number. Day 0 is 0001-01-01, a Monday, so
  `((int)DayOfWeek + 6) % 7` is the day number modulo 7. Year, month and day come from a
  proleptic Gregorian conversion. A time of day is a number of minutes, 0 to 1439.
- **Tasks.** `TaskItem` is a value, the datatype `Task`.
  - Several handlers write fields of a task object that the store shares: `t.Done = !t.Done`
    and the editor's commit. `InMemoryTaskStore.Write` models this: every stored element
    with that id takes the new field values.
  - `Update` itself is a no-op, as in the in-memory store.
- **Widgets as state.** Widgets with state are classes whose fields are that state:
  - the row list;
  - the expanded-id set;
  - the filter and its label;
  - the table's selected row;
  - `_cellDate` as a map from (row, column) to date;
  - the grid and strip texts as sequences of strings.
- **Filters.** A filter is a case of the datatype `Filter`. `Accepts(f, t, today)` is the
  predicate the source's lambda computes.
- **Oracle parameters.** Everything the engine reads from outside is a parameter:
  - the clock (`today`);
  - fresh identifiers (`freshId`);
  - the editor's Save clicks (`clicks`, a sequence of the form contents at each click);
  - the delete confirmation's button (`answer`, 0 for "Yes");
  - the culture's short-date text and day names;
  - the store contents a nested Week or Day screen leaves behind (`afterNested`).
- **Table selection.** The table widget keeps its selected row on a row, and on 0 when
  there are none, whenever its data changes. `ClampRow` models this.

Behaviour of the source that the model keeps as it is:

- `TaskListScreen` starts with the label "Today" over an accept-all filter.
- Its header has one more space before the title than the list view's header.
- After an add, edit, toggle or delete from the week screen's day list, `PaintStrip()` runs
  without a date. The strip therefore returns to the seed's week with the seed selected.
- An add from the calendar's `a` key on a leading or trailing cell (a day of the
  neighbouring month) rebuilds the month. The rebuild selects the 1st, not the new task's day.
- `MoveDays` and `MoveDay` fall back to `_month` and `_monday` when nothing is selected.
  After the first paint a cell is always selected, so the model states the selected-date
  case only.

## Model

| member | source | states |
|---|---|---|
| Strings.TrimStart | Models/TaskDialogs.cs:149-151 | drops exactly the leading white space: the result is a suffix that starts with a non-space, and the dropped part is blank |
| Strings.TrimEnd | Models/TaskDialogs.cs:149-151 | drops exactly the trailing white space: the result is a prefix that ends with a non-space, and the dropped part is blank |
| Strings.TrimEmptyIffBlank | Models/TaskDialogs.cs:149-151 | a trimmed entry is empty exactly when the entry was blank, so RemoveEmptyEntries after TrimEntries drops exactly the blank pieces |
| Strings.TrimIsTrimmed | Models/TaskDialogs.cs:149-151 | a trimmed text has no white space at either end, holds only characters of the original, and trimming it again changes nothing |
| Strings.TrimOfTrimmed | Models/TaskDialogs.cs:149-151 | a text without white space at either end is its own trim |
| Strings.Split | Models/TaskDialogs.cs:150 | splitting gives at least one piece, and no piece contains the separator |
| Strings.SplitJoin | Models/TaskDialogs.cs:81 | splitting parts joined on a separator that no part contains gives the parts back |
| Strings.IndexFrom | UI/Filters.cs:16-18 | the first case-insensitive occurrence at or after a position, or -1 when there is none after it |
| Strings.IndexOfIgnoreCase | UI/Filters.cs:16-18 | `IndexOf(q, OrdinalIgnoreCase)` is a position where q occurs ignoring case, with no occurrence before it, or -1 exactly when q occurs nowhere |
| Strings.PadLeft | UI/CalendarScreen.cs:318 | right-aligns in the width with spaces on the left and never truncates |
| Strings.PadRight | UI/CalendarScreen.cs:352 | left-aligns in the width with spaces on the right and never truncates |
| Strings.NatToString | UI/CalendarScreen.cs:318 | a number's decimal text is all digits: one digit below 10, two below 100 |
| Strings.NatToStringValue | UI/CalendarScreen.cs:318 | the decimal text's digits are worth the number |
| Strings.TwoDigits | UI/DayScreen.cs:24 | the `00` format writes two digits worth the number |
| Strings.TwoDigitsValue | UI/DayScreen.cs:24 | the two-digit text reads back as the number |
| Dates.YearOf | UI/CalendarScreen.cs:164 | `d.Year` is the year whose first and last days bracket d |
| Dates.MonthOf | UI/CalendarScreen.cs:166 | `new DateTime(d.Year, d.Month, 1)` is a month that contains d |
| Dates.MonthOfUnique | UI/CalendarScreen.cs:164 | a day lies in exactly one month, so the source's year-and-month comparison is month membership |
| Dates.DayOfMonth | UI/CalendarScreen.cs:318 | `d.Day` lies between 1 and the length of d's month, and is at most 31 |
| Dates.NextMonthFollows | UI/CalendarScreen.cs:192-193 | the next month starts the day after this one ends, and `AddMonths(1)` and `AddMonths(-1)` undo each other on the 1st of a month |
| Dates.MondayIndex | UI/CalendarScreen.cs:253 | `((int)DayOfWeek + 6) % 7` lies in 0..6 |
| Dates.MondayIndexIsMod | UI/CalendarScreen.cs:253 | the Monday-first index is the day number modulo 7 |
| Dates.MondayOfIsMonday | UI/WeekScreen.cs:154 | the strip's `_monday` is a Monday on or before the target and at most six days before it |
| Dates.FormatYearDigits | Models/TaskDialogs.cs:34 | `yyyy` writes a year from 1 to 9999 as exactly four digits worth the year |
| Dates.FormatThenParseDate | Models/TaskDialogs.cs:141-144 | the due text the editor shows for a date parses back to that date |
| Dates.ParseThenFormatDate | Models/TaskDialogs.cs:141-144 | a due text that parses is exactly the `yyyy-MM-dd` text of the parsed date, in years 1 to 9999 |
| Dates.ParseTimeIffFormat | Models/TaskDialogs.cs:64-65 | `TryParseExact(s, "HH:mm")` yields m exactly when s is m's `HH:mm` text |
| TaskItem.NewTask | Models/TaskItem.cs:8-18 | a new task has the fresh id and today as creation date; it is not done, has an empty title, Medium priority, no due date, notes or times, and no tags |
| TaskItem.PriorityNamesDistinct | Models/TaskItem.cs:4 | Priority has exactly the three names `GetNames` lists, and different priorities have different names |
| TaskStore.WithoutIdMembers | Services/TaskStore.cs:20 | `RemoveAll(i => i.Id == id)` keeps exactly the items with another id and never grows the list |
| TaskStore.WithoutIdConcat | Services/TaskStore.cs:20 | removal by id distributes over concatenation, so the kept items keep their relative order |
| TaskStore.WithoutAbsentId | Services/TaskStore.cs:20 | removing an id that no item carries leaves the list unchanged |
| TaskStore.Written | UI/TaskListActions.cs:66-67 | a write to a shared task object keeps the list's length and replaces exactly the elements with that id |
| TaskStore.InMemoryTaskStore.constructor | Services/TaskStore.cs:16 | a new store is empty |
| TaskStore.InMemoryTaskStore.Add | Services/TaskStore.cs:18 | appends the task after the earlier items and returns that task |
| TaskStore.InMemoryTaskStore.Update | Services/TaskStore.cs:19 | leaves the list exactly as it was |
| TaskStore.InMemoryTaskStore.Remove | Services/TaskStore.cs:20 | the list becomes the old list without the items of that id |
| TaskStore.InMemoryTaskStore.Write | UI/TaskListActions.cs:66-67 | after a field write to a shared task, every stored element with that id shows the new fields |
| Filters.AllAcceptsEverything | UI/Filters.cs:7 | `All` accepts every task; the panels' `_ => false` accepts none |
| Filters.OpenDoneComplement | UI/Filters.cs:8-9 | exactly one of Open and Done accepts a task |
| Filters.OverdueIsOpenAndPastDue | UI/Filters.cs:12 | Overdue holds iff the task is due strictly before today and not done, so Overdue implies Open |
| Filters.DueWithinDaysIncludesPastDue | UI/Filters.cs:13-14 | DueWithinDays(n) holds iff the due date is at most today + n, whatever Done is; it takes every overdue task and every task due today |
| Filters.NoDueDateNoDueFilter | UI/Filters.cs:11-14 | a task without a due date passes none of DueToday, Overdue, DueWithinDays or a day filter |
| Filters.TodayIgnoresDue | UI/Filters.cs:10 | Today holds iff the task was created today, and changing the due date never changes it |
| Filters.TitleContainsMeaning | UI/Filters.cs:16-18 | TitleContains(q) holds iff q is not blank and the title contains q ignoring case |
| Filters.AnyTagContainsMeaning | UI/Filters.cs:22 | the tag search holds iff some tag contains q ignoring case |
| Filters.TagContainsMeaning | UI/Filters.cs:20-22 | TagContains(q) holds iff q is not blank and some tag contains q ignoring case; it never holds for a task without tags |
| TaskRows.TimePrefixAgreesWithTimeText | UI/TaskListView.cs:102-141 | the header's time prefix and the Time detail follow one rule ("start–end", the single set time, or nothing when neither is set), and a time text is never blank |
| TaskRows.HeaderShowsDone | UI/TaskListView.cs:113 | a header starts with "[x]" iff the task is done and with "[ ]" iff it is not |
| TaskRows.ScreenHeaderHasExtraSpace | UI/TaskListScreen.cs:213 | the full-window list's header is the list view's header with one more space before the title |
| TaskRows.DetailsShape | UI/TaskListView.cs:117-143 | an expanded task has one to five detail rows, all its own and none a header; the Priority row is always among them |
| TaskRows.DetailLineLabel | UI/TaskListView.cs:122 | a detail line carries its own label and no other label without a colon (Priority, Notes, Tags, Date, Time among them) |
| TaskRows.TimeRowIffTimeSet | UI/TaskListView.cs:133-142 | an expanded task has a Time row iff a start or end time is set, and then it is the last detail |
| TaskRows.BuildRows | UI/TaskListView.cs:100-144 | the `Refresh` loop builds exactly the flattened rows of the store's items under the filter and the expanded set |
| TaskRows.HeadersAreThePassingTasks | UI/TaskListView.cs:100-115 | the header rows correspond one to one, in store order, with the store's tasks that pass the filter, whatever is expanded |
| TaskRows.PassingMembers | UI/TaskListView.cs:100 | `All().Where(filter)` holds exactly the store's tasks that the filter accepts |
| TaskRows.BlockShape | UI/TaskListView.cs:113-143 | one task contributes its header, then only its own detail rows, and those only when it is expanded |
| TaskRows.FlattenWellFormed | UI/TaskListView.cs:100-144 | the rows start with a header, and every detail row directly follows a row of the same task |
| TaskRows.FlattenMembers | UI/TaskListView.cs:100-144 | every row belongs to a store task that passes the filter, and detail rows only to expanded tasks |
| TaskRows.ExpandedTaskShowsDetails | UI/TaskListView.cs:117-129 | an expanded task that passes the filter shows its Priority detail row |
| TaskRows.FirstHeaderFrom | UI/TaskListView.cs:206 | the forward scan stops at the first header at or after the start, or at the end when no header follows |
| TaskRows.LastHeaderUpTo | UI/TaskListView.cs:212 | the backward scan stops at the last header at or before the start, or at -1 when none precedes |
| TaskRows.HeaderStep | UI/TaskListView.cs:199-216 | `MoveToHeader(dir)` selects the nearest header strictly after (dir > 0) or strictly before the current row, and the current row when there is none; it stays in range and never wraps |
| TaskRows.StepToHeader | UI/TaskListView.cs:203-214 | the two `while` loops compute that header step |
| TaskRows.FirstHeaderIndex | UI/TaskListView.cs:164 | `FindIndex(IsHeader)` returns the first header, or -1 when there is no header |
| TaskRows.LastHeaderIndex | UI/TaskListView.cs:171 | `FindLastIndex(IsHeader)` returns the last header, or -1 |
| TaskRows.HeaderIndexOf | UI/TaskListView.cs:195 | returns the first header row of the task id, or -1 iff that task has no header |
| TaskRows.RowTaskKeepsHeader | UI/TaskListView.cs:191-196 | after the expanded set changes, every task that had a row still has a header row |
| TaskRows.SelectedRowTask | UI/TaskListView.cs:72-76 | the task of the selected row, and none exactly when the selection is off the rows |
| TaskRows.ClampRow | UI/TaskListView.cs:145 | the table keeps its selected row on a row, on 0 when there are none, and leaves a row already in range alone |
| Cells.PadCenter | UI/CalendarScreen.cs:340-347 | exactly `width` characters: the text truncated when too long, otherwise centred with the odd space on the right |
| Cells.FitRightPad | UI/CalendarScreen.cs:349-353 | exactly `width` characters: the text truncated, or padded with spaces on the right |
| Cells.FitRightPadKeepsPrefix | UI/WeekScreen.cs:206-207 | fitting never moves a character: the fitted text starts with the text's own characters |
| Cells.DueCountZeroIff | UI/CalendarScreen.cs:315-316 | a day's count is 0, and it gets no badge, iff no task is due that day |
| Cells.DueCountIsDayListLength | UI/CalendarScreen.cs:315 | a day's due count equals the number of headers its day list shows, whatever is expanded |
| Cells.DayText | UI/CalendarScreen.cs:318 | `d.Day.ToString().PadLeft(2)` is two characters: a digit last, and a space or a digit first |
| ListView.TaskListView.constructor | UI/TaskListView.cs:29-68 | a new list has the accept-all filter labelled "All", nothing expanded and the first row selected, and shows the store |
| ListView.TaskListView.SelectedItem | UI/TaskListView.cs:72-76 | the task of the selected row; null only when there are no rows |
| ListView.TaskListView.Refresh | UI/TaskListView.cs:95-146 | the rows show the store under the filter and the expanded set; the selection is clamped onto them; filter, labels and expanded set are unchanged |
| ListView.TaskListView.SetFilter | UI/TaskListView.cs:78-85 | a null filter becomes accept-all and a blank label "Custom"; the bar shows the label only when visible; every task collapses; the rows show the store |
| ListView.TaskListView.ToggleExpandSelected | UI/TaskListView.cs:185-197 | flips only the selected task's expansion and selects that task's first header; with no rows nothing changes |
| ListView.TaskListView.MoveToHeader | UI/TaskListView.cs:199-216 | on fresh rows the selection becomes the header step in that direction; with no rows nothing changes |
| ListView.TaskListView.SelectFirstHeader | UI/TaskListView.cs:162-166 | key g selects row 0, which is a header |
| ListView.TaskListView.SelectLastHeader | UI/TaskListView.cs:167-175 | key G selects the last header: no header follows it |
| ListView.TaskListView.OnKeyPress | UI/TaskListView.cs:149-183 | Enter flips the selected task's expansion and selects its header, Down/j and Up/k step between headers, g selects the first row and G the last header, all without requests; `a` always, and `e`, Space/`x` and `d` with a selected row, raise the matching request for the selected task and change nothing here |
| ListView.TaskListView.OnNavigationKey | UI/TaskListView.cs:155-175 | Enter flips the selected task's expansion and selects its header, Down/j and Up/k step to the next or previous header, g selects the first row, G the last header |
| ListScreen.TaskListScreen.constructor | UI/TaskListScreen.cs:17-104 | the screen starts with the label "Today" over an accept-all filter, so every store task gets a header |
| ListScreen.TaskListScreen.SelectedItem | UI/TaskListScreen.cs:114-118 | the task of the selected row; null only when there are no rows |
| ListScreen.TaskListScreen.Refresh | UI/TaskListScreen.cs:192-248 | the rows show the store in the screen's header style; the selection is clamped onto them |
| ListScreen.TaskListScreen.SetFilter | UI/TaskListScreen.cs:120-127 | a null filter becomes accept-all, a blank label "Custom", the bar always shows the label, every task collapses |
| ListScreen.TaskListScreen.RefreshAndSelectHeader | UI/TaskListScreen.cs:139-141 | after the refresh the selection is on the task's first header when the task has one |
| ListScreen.TaskListScreen.ToggleExpandSelected | UI/TaskListScreen.cs:129-142 | flips only the selected task's expansion, then selects that task's first header; with no rows nothing changes |
| ListScreen.TaskListScreen.ExpandSelected | UI/TaskListScreen.cs:144-155 | adds the selected task to the expanded set and reselects its header; a no-op when there are no rows or it is already expanded |
| ListScreen.TaskListScreen.CollapseSelected | UI/TaskListScreen.cs:157-168 | removes the selected task from the expanded set and reselects its header; a no-op when there are no rows or it is not expanded |
| ListScreen.TaskListScreen.MoveToHeader | UI/TaskListScreen.cs:171-189 | on fresh rows the selection becomes the header step in that direction; with no rows nothing changes |
| ListScreen.TaskListScreen.SelectFirstHeader | UI/TaskListScreen.cs:80-84 | key g selects row 0, which is a header |
| ListScreen.TaskListScreen.SelectLastHeader | UI/TaskListScreen.cs:87-97 | key G selects the last header |
| ListScreen.TaskListScreen.OnKeyPress | UI/TaskListScreen.cs:66-98 | handles exactly Enter, Down/j, Up/k, g and G: Enter flips the selected task's expansion and selects its header, Down/j and Up/k step to the next or previous header, g selects the first header and G the last; other keys change nothing |
| ListScreen.PassingAll | UI/TaskListScreen.cs:17 | under the accept-all filter every store task passes, in store order |
| TaskDialogs.ParsePriority | Models/TaskDialogs.cs:146-147 | a text parses only when, trimmed, it is a member name or a non-empty digit string |
| TaskDialogs.ParsePriorityOfName | Models/TaskDialogs.cs:76-77 | the combo box's text for a priority parses back to that priority |
| TaskDialogs.CleanTags | Models/TaskDialogs.cs:149-151 | trimming and dropping empty entries gives non-empty, trimmed, comma-free tags, no more than the pieces |
| TaskDialogs.SplitTags | Models/TaskDialogs.cs:149-151 | the tags field always yields well-formed tags |
| TaskDialogs.SplitTagsOfJoin | Models/TaskDialogs.cs:81 | the tags text the editor shows reads back as the same tags |
| TaskDialogs.Save | Models/TaskDialogs.cs:106-157 | a blank title is rejected first; a saved task has a title and ordered times, and keeps its id and creation date |
| TaskDialogs.SaveChecksInOrder | Models/TaskDialogs.cs:114-133 | after the title: an invalid start text is rejected, then an invalid end text, then an end before the start; an end equal to the start is accepted |
| TaskDialogs.SavedFields | Models/TaskDialogs.cs:136-153 | a saved time is the one its text spells, or none iff its text is blank; the due date is the one its text spells; priority changes only to one the text names; notes take the text; tags are well formed |
| TaskDialogs.BlankDueClearsDate | Models/TaskDialogs.cs:141-144 | a blank due text saves as no due date |
| TaskDialogs.SaveUntouchedForm | Models/TaskDialogs.cs:25-96 | saving the form as it opened keeps the task, except that a missing due date becomes today and missing notes become empty |
| TaskDialogs.OptionalTimeReadsBack | Models/TaskDialogs.cs:115-127 | a time text that passes validation stores no time exactly when it is blank, and otherwise the time whose `HH:mm` text it is |
| TaskDialogs.OptionalTimeOfFormatted | Models/TaskDialogs.cs:49-57 | the editor's initial time text reads back as the task's time, or as no time |
| TaskDialogs.RunEditor | Models/TaskDialogs.cs:103-172 | the dialog is not saved iff every Save click is rejected, and then the task is untouched; otherwise the task is the first accepted click's result |
| TaskDialogs.EditorKeepsTaskValid | Models/TaskDialogs.cs:106-157 | a task the editor saved has a title and ordered times and keeps its id and creation date |
| TaskDialogs.ShowEditDialog | Models/TaskDialogs.cs:15-16 | reports a save only for the same task with a title, and reports no change otherwise |
| TaskDialogs.ShowAddDialog | Models/TaskDialogs.cs:9-13 | returns a new task with the fresh id, today's creation date, a title and ordered times; null iff every Save click was rejected |
| Actions.ToggledTask | UI/TaskListActions.cs:66 | toggling flips Done and nothing else |
| Actions.HandlerSet.AttachHandlers | UI/TaskListActions.cs:33-83 | a new handler set is bound to the view and the store with the chosen factory, editor and callback, and has sent no notification |
| Actions.HandlerSet.InvokeAfter | UI/TaskListActions.cs:43-47 | the view is refreshed before the callback runs: the notification records the refreshed rows |
| Actions.HandlerSet.Add | UI/TaskListActions.cs:49-55 | a null factory result changes nothing and notifies nothing; otherwise the item is appended, the view refreshed, then Added notified |
| Actions.HandlerSet.Edit | UI/TaskListActions.cs:57-62 | only a reported save writes the edited task into the store, refreshes and notifies Edited |
| Actions.HandlerSet.Toggle | UI/TaskListActions.cs:64-69 | always flips Done in the store, refreshes and notifies Toggled |
| Actions.HandlerSet.Delete | UI/TaskListActions.cs:71-76 | only answer 0 ("Yes") removes the id, refreshes and notifies Deleted; any other answer changes nothing |
| Actions.HandlerSet.OnRequest | UI/TaskListActions.cs:78-81 | each view request runs its own handler with that handler's effect on the store |
| Actions.ToggleTwiceRestores | UI/TaskListActions.cs:64-69 | toggling a task twice restores the store |
| Actions.LastWriteWins | UI/TaskListActions.cs:57-69 | a later write of a task replaces an earlier write of the same task |
| Actions.DeleteLeavesNoCopy | UI/TaskListActions.cs:74 | after a confirmed delete no task has that id, and every other task is still there |
| DayScreen.HourLabels | UI/DayScreen.cs:24 | the gutter has 24 lines |
| DayScreen.HourLabelsAreHours | UI/DayScreen.cs:24 | line h is the `HH:mm` text of h:00 and reads back as that time |
| DayScreen.HourLabelsDistinct | UI/DayScreen.cs:24 | the 24 labels are pairwise different |
| DayScreen.ClampHour | UI/DayScreen.cs:83 | `Math.Clamp(hour, 0, 23)` lies in 0..23 and is the hour itself when in range |
| DayScreen.QuickAddTask | UI/DayScreen.cs:80-84 | the quick-add skeleton is a new task due on the screen's date, starting at the clamped hour |
| DayScreen.QuickAddKeepsDayAndHour | UI/DayScreen.cs:78-90 | saving the skeleton with just a title keeps the day and the start hour and sets no end |
| DayScreen.DayRowsAreDueThatDay | UI/DayScreen.cs:46 | every row of the day list belongs to a store task due on the screen's date, and the headers are exactly those tasks |
| DayScreen.DayScreen.constructor | UI/DayScreen.cs:15-76 | the list reads the store, is filtered to the date and labelled with its short text; the gutter starts at 00:00 |
| DayScreen.DayScreen.QuickAddAtHour | UI/DayScreen.cs:78-90 | the editor runs on the skeleton; only a save appends the task and refreshes the list |
| DayScreen.DayScreen.OnHourKey | UI/DayScreen.cs:60-69 | down/j gives min(hour + 1, 23), up/k gives max(hour - 1, 0), a/A quick-adds at the selected hour; every other key keeps the hour; the handled keys are exactly the ten listed |
| DayScreen.DayScreen.Edit | UI/DayScreen.cs:51 | only a save writes the task and refreshes |
| DayScreen.DayScreen.Toggle | UI/DayScreen.cs:52 | flips Done in the store and refreshes |
| DayScreen.DayScreen.Delete | UI/DayScreen.cs:53-57 | only answer 0 removes the task and refreshes; any other answer changes nothing |
| DayScreen.DayScreen.OnListRequest | UI/DayScreen.cs:50-57 | each list request has its handler's effect; an add request quick-adds at the selected hour |
| WeekScreen.ColumnHeaders | UI/WeekScreen.cs:47-50 | seven headers, each exactly a cell wide |
| WeekScreen.HeaderOfDateColumn | UI/WeekScreen.cs:47-50 | with the day-name index `(i + 1) % 7`, the column of a date in its week is headed with that date's own day name |
| WeekScreen.WeekCellShape | UI/WeekScreen.cs:165-169 | a cell is exactly 14 wide, starts with `*` iff the day is today, shows the day number, and has the badge iff a task is due that day |
| WeekScreen.PaintColumns | UI/WeekScreen.cs:157-170 | the loop maps column c to monday + c and writes each column's cell text |
| WeekScreen.PaintColumn | UI/WeekScreen.cs:160-170 | one loop step adds column c's date and cell text |
| WeekScreen.StripDates | UI/WeekScreen.cs:160-163 | `_colDate` maps exactly the columns 0..6, column c to monday + c |
| WeekScreen.StripSlides | UI/WeekScreen.cs:154 | a date in the strip keeps its Monday; the day after the strip starts the next week and the day before it the previous one |
| WeekScreen.WeekScreen.constructor | UI/WeekScreen.cs:30-107 | the strip opens on the seed's week with the seed selected and the day list showing the seed's tasks |
| WeekScreen.WeekScreen.SelectedDate | UI/WeekScreen.cs:145-149 | the selected column's date, which lies in the strip |
| WeekScreen.WeekScreen.UpdateDayList | UI/WeekScreen.cs:183-198 | the list shows the tasks due on the forced date, else on the selected date, else nothing under "No day" |
| WeekScreen.WeekScreen.PaintStrip | UI/WeekScreen.cs:151-180 | the strip is anchored at the target's Monday (the seed by default), the clamped column is exactly the target's, every cell shows its day, and the list shows the target's tasks |
| WeekScreen.WeekScreen.MoveDay | UI/WeekScreen.cs:139-143 | the selection becomes the selected date moved by delta days, and the strip slides to its week |
| WeekScreen.WeekScreen.AddForSelectedDay | UI/WeekScreen.cs:118-124 | the editor runs on a new task due on the selected day; only a save appends it, and the day stays selected |
| WeekScreen.WeekScreen.OnStripKey | UI/WeekScreen.cs:109-137 | left/h and right/l move the selection one day, t/T selects today in today's week, a/A appends the editor's saved task due on the selected day and keeps that day, d/D keeps the selected date after the day screen's changes; only a/A and d/D can change the store; Enter and Esc change nothing; handled exactly for the strip's keys |
| WeekScreen.WeekScreen.OnStripMoveKey | UI/WeekScreen.cs:114-116 | left/h and right/l select the day before or after the selected one, t/T selects today in today's week |
| WeekScreen.WeekScreen.OnStripDayKey | UI/WeekScreen.cs:118-136 | a/A appends the editor's new task due on the selected day exactly when it is saved, and keeps that day selected; d/D leaves the store as the day screen left it, keeps the selected date and refreshes the list; Enter and Esc leave the screen, the store and the list unchanged |
| WeekScreen.WeekScreen.OnListRequest | UI/WeekScreen.cs:81-101 | each list request has its handler's effect on the store; an add keeps the selected day; after a saved edit, a toggle or a confirmed delete the seed is selected again |
| CalendarScreen.ColumnHeaders | UI/CalendarScreen.cs:55-64 | seven headers, Monday first, each the day abbreviation centred in the 11-wide cell |
| CalendarScreen.GridStart | UI/CalendarScreen.cs:252-254 | the grid's first cell is a Monday at most six days before the 1st, `delta` days before it |
| CalendarScreen.GridDatesUpToContents | UI/CalendarScreen.cs:256-266 | part way through the fill, exactly the first n cells, row by row, hold start + 7r + c |
| CalendarScreen.GridDates | UI/CalendarScreen.cs:256-266 | after the fill, exactly the 42 cells hold start + 7r + c |
| CalendarScreen.GridDatesDistinct | UI/CalendarScreen.cs:261-262 | no two cells hold the same date |
| CalendarScreen.ColumnIsWeekday | UI/CalendarScreen.cs:253-261 | every cell of column c falls on the c-th weekday, Monday first |
| CalendarScreen.AnchorIsGridStart | UI/CalendarScreen.cs:253-254 | a Monday at most six days before the 1st is the grid start |
| CalendarScreen.GridCoversMonth | UI/CalendarScreen.cs:252-266 | every day of the anchored month has a cell of the grid, and the 1st sits in row 0 at column `delta` |
| CalendarScreen.RenderCellShape | UI/CalendarScreen.cs:313-324 | a cell is exactly 11 wide; it starts with `*` iff the date is today, is bracketed iff selected, shows the day number, and has the badge iff a task is due that day |
| CalendarScreen.PaintedCell | UI/CalendarScreen.cs:326-337 | every cell of the repainted grid is its date's rendering for the selected date |
| CalendarScreen.BracketedIffSelected | UI/CalendarScreen.cs:326-337 | in a repainted grid a cell is bracketed iff its date is the selected one; since dates are distinct, at most one cell is |
| CalendarScreen.FillCell | UI/CalendarScreen.cs:261-263 | one step of the fill records cell (r, c)'s date and its unselected text |
| CalendarScreen.FillRow | UI/CalendarScreen.cs:256-266 | the inner loop fills row r's seven dates and texts |
| CalendarScreen.FillGrid | UI/CalendarScreen.cs:249-266 | the loops rebuild `_cellDate` and the 42 unselected cell texts |
| CalendarScreen.RepaintCell | UI/CalendarScreen.cs:332-334 | one step renders cell (r, c), bracketed iff its date is the selected one |
| CalendarScreen.RepaintRow | UI/CalendarScreen.cs:330-335 | the inner loop renders row r's cells |
| CalendarScreen.RepaintGrid | UI/CalendarScreen.cs:326-337 | the loops produce exactly the grid painted for the selected date |
| CalendarScreen.FindCell | UI/CalendarScreen.cs:273-282 | the scan of `_cellDate` finds a cell iff the date is among the grid's 42 days, and the cell it finds holds that date |
| CalendarScreen.BuildTarget | UI/CalendarScreen.cs:270-271 | the date to select is the requested date (default today) when it is in the anchored month, otherwise the 1st |
| CalendarScreen.MonthJump | UI/CalendarScreen.cs:192-194 | `<`/PageUp give the previous month, `>`/PageDown the next, t/T today's month with today; no other key jumps |
| CalendarScreen.MoveDelta | UI/CalendarScreen.cs:230-233 | left/h move -1, right/l +1, up/k -7, down/j +7 days, and no other key moves |
| CalendarScreen.KeyMeaningsDisjoint | UI/CalendarScreen.cs:187-242 | a month key, a nested-screen key, a move key, `a` and Enter are pairwise different keys |
| CalendarScreen.GridHandlesMeaningfulKeys | UI/CalendarScreen.cs:187-242 | the grid handles a key iff it has one of those meanings |
| CalendarScreen.CalendarScreen.StartIsGridStart | UI/CalendarScreen.cs:253-254 | the grid kept by the screen starts where `BuildMonth` computes for `_month` |
| CalendarScreen.CalendarScreen.constructor | UI/CalendarScreen.cs:21-152 | the calendar opens on today's month with today selected, and shows the store |
| CalendarScreen.CalendarScreen.SelectedDate | UI/CalendarScreen.cs:289-293 | the lookup in `_cellDate` yields the selected cell's date |
| CalendarScreen.CalendarScreen.UpdateDayPanel | UI/CalendarScreen.cs:295-310 | the day list shows the tasks due on the selected date, or nothing under "No day" |
| CalendarScreen.CalendarScreen.RepaintCellsWithSelection | UI/CalendarScreen.cs:326-337 | every cell is re-rendered, bracketed only at the given date; dates, month and selection are unchanged |
| CalendarScreen.CalendarScreen.BuildMonth | UI/CalendarScreen.cs:245-287 | the grid is rebuilt for the anchored month and selects the requested date (default today) when it lies there, else the 1st |
| CalendarScreen.CalendarScreen.SelectCellOf | UI/CalendarScreen.cs:171-181 | a date of the anchored month gets selected; the panel and the cells follow |
| CalendarScreen.CalendarScreen.SelectDate | UI/CalendarScreen.cs:162-184 | a target outside the month re-anchors at the target's month; either way the target is selected |
| CalendarScreen.CalendarScreen.MoveDays | UI/CalendarScreen.cs:155-160 | the selected date moves by delta days, re-anchoring when it leaves the month |
| CalendarScreen.CalendarScreen.OnCellSelected | UI/CalendarScreen.cs:98-102 | after the widget selects a cell, the panel and the brackets follow that cell |
| CalendarScreen.CalendarScreen.AddForSelectedDay | UI/CalendarScreen.cs:214-227 | the editor runs on a new task due on the selected day; only a save appends it and rebuilds the month with that day requested |
| CalendarScreen.CalendarScreen.ShowMonth | UI/CalendarScreen.cs:192-194 | re-anchoring at a month selects the target rule's date in it |
| CalendarScreen.CalendarScreen.RefreshAfterNested | UI/CalendarScreen.cs:196-212 | after a nested screen closes, the panel and the cells show the store it left, with the selection kept |
| CalendarScreen.CalendarScreen.OnGridKey | UI/CalendarScreen.cs:187-242 | month keys move the anchor one month, t/T selects today, move keys shift the selected date by their delta, a/A keeps the month, appends the editor's saved task due on the selected day and then selects that day (the 1st when the month lacks it), only a/A and the nested screens change the store; handled exactly for the grid's keys |
| CalendarScreen.CalendarScreen.OnDayKey | UI/CalendarScreen.cs:214-241 | a/A keeps the month and appends the editor's new task due on the selected day exactly when it is saved, a save rebuilds the month selecting that day (or the 1st) and a cancel keeps the selection, move keys shift the selection, Enter changes nothing modelled |
| CalendarScreen.CalendarScreen.RefreshAfterChange | UI/CalendarScreen.cs:121-123 | after a list action the list re-reads the store and the grid repaints with the selection kept |
| CalendarScreen.CalendarScreen.AddFromList | UI/CalendarScreen.cs:105-116 | only a save appends the new task due on the selected day; the selection is kept |
| CalendarScreen.CalendarScreen.EditFromList | UI/CalendarScreen.cs:117-125 | only a save writes the edited task; the selection is kept |
| CalendarScreen.CalendarScreen.ToggleFromList | UI/CalendarScreen.cs:126-132 | flips the task's Done in the store, and the badges follow |
| CalendarScreen.CalendarScreen.DeleteFromList | UI/CalendarScreen.cs:133-139 | only answer 0 removes the task's id; any other answer changes nothing |
| CalendarScreen.CalendarScreen.OnListRequest | UI/CalendarScreen.cs:104-139 | each list request has its handler's effect, with the month and the selection kept |

## Left out

- Terminal.Gui rendering, layout, focus and colour are not modelled. This covers `Pos`/`Dim`,
  `SetNeedsDisplay`, `EnsureSelectedCellIsVisible`, `FocusTable`, `SetFocus`, the legend
  labels and window titles, and the themes. Enter and Tab that only move focus, and Esc
  that only closes a screen, are handled keys with no modelled effect.
- The month label (`MMMM yyyy`), the panel and window titles (`dddd, dd MMM yyyy`) and
  the culture's day names and short date text depend on the culture. The day names and
  the short date text are parameters, and the titles are not modelled.
- `Application.Run` of the nested Week and Day screens opened from the calendar (`w`, `d`)
  and from the week screen (`d`) is not modelled. Only their effect is: the store they
  leave behind (`afterNested`).
- `Application.Run` of the editor dialog and `MessageBox.Query` are not modelled. Their
  results are the `clicks` and `answer` parameters.
- `SelectedCellChanged` on the week strip is not modelled: the strip's selection only
  changes through the modelled keys.
- Program.cs, Services/JsonTaskStore.cs, UI/DarkTheme.cs and AddScreens.cs are not part
  of this model. They hold menus and global dispatch, file I/O, colours and a demo window.
- `AdjustForStatusBar` is not modelled; it changes layout only.
- Dates.ParseIsoDate: the due text parses only in the `yyyy-MM-dd` form the editor writes.
  `DateTime.TryParse` accepts more, culture-dependent forms and keeps a time of day, which
  the model does not.
- TaskDialogs.ParsePriority: accepts a member name or the numbers 0 to 2. `Enum.TryParse`
  also accepts other integers (giving unnamed values), signs, and comma-separated lists,
  which the model rejects.
- Strings.Upper: case-insensitive comparison folds ASCII letters only. .NET's ordinal
  ignore-case comparison also folds other scripts.
- Strings.IsWhiteSpace: covers the characters `char.IsWhiteSpace` lists. Null strings are
  not modelled: a null title, null tags and a null filter delegate become the empty
  string, the empty list and `None`.
- The `DateTime` range (years 1 to 9999) is not enforced. Day numbers are unbounded, and
  `AddDays`/`AddMonths` never throw. The round-trip lemmas for dates require years 1 to
  9999.
- Guid generation is a `freshId` parameter; nothing states that it differs from the
  store's ids.
- TaskDialogs.Save: the editor's commit is a function that returns the written task. The
  in-place write to the shared task object is `InMemoryTaskStore.Write` in the callers.
- CalendarScreen: "at most one cell is bracketed" is stated through
  `BracketedIffSelected` and `GridDatesDistinct` together, not as one lemma.
- The `TableView`'s clamping of its selected row (`ClampRow`) is Terminal.Gui behaviour,
  not code in this repository. The list's `g` key sets `FindIndex`'s result, which is 0
  whenever rows exist.
