/**
 * `WeekScreen`: a one-row strip of the seven days of a Monday-first week, and a task list for
 * the selected day. Painting the strip around a target date re-anchors the week at the
 * target's Monday and selects the target's column.
 */
module WeekScreen {
  import opened Wrappers
  import opened Strings
  import opened Dates
  import opened TaskItem
  import opened TaskStore
  import opened Filters
  import opened TaskRows
  import opened TaskDialogs
  import opened Keys
  import opened ListView
  import opened Cells

  const COLS: int := 7
  const CELL_W: nat := 14

  /**
   * The column headers: the culture's abbreviated day names (indexed Sunday = 0) in
   * Monday-first order, each centred in a cell.
   */
  function ColumnHeaders(dayNames: seq<string>): (r: seq<string>)
    requires |dayNames| == 7
    ensures |r| == COLS && forall i :: 0 <= i < COLS ==> |r[i]| == CELL_W
  {
    seq(COLS, i requires 0 <= i < COLS => PadCenter(dayNames[(i + 1) % 7], CELL_W))
  }

  /** A date's column in its week carries the date's own day name. */
  lemma HeaderOfDateColumn(dayNames: seq<string>, d: Date)
    requires |dayNames| == 7
    ensures ColumnHeaders(dayNames)[d - MondayOf(d)] == PadCenter(dayNames[DayOfWeek(d)], CELL_W)
  {
    ColumnOfWeekday(d);
    ColumnHeaderAt(dayNames, d - MondayOf(d));
  }

  lemma ColumnHeaderAt(dayNames: seq<string>, i: int)
    requires |dayNames| == 7 && 0 <= i < COLS
    ensures ColumnHeaders(dayNames)[i] == PadCenter(dayNames[(i + 1) % 7], CELL_W)
  {
  }

  /** Column `i` of a date's week, counted from Monday, is followed by the date's `DayOfWeek`. */
  lemma ColumnOfWeekday(d: Date)
    ensures 0 <= d - MondayOf(d) < COLS && (d - MondayOf(d) + 1) % 7 == DayOfWeek(d)
  {
    MondayIndexIsMod(d);
    var q, i := d / 7, d - MondayOf(d);
    assert d == 7 * q + i && 0 <= i < 7;
    if i < 6 {
      assert d + 1 == 7 * q + (i + 1);
      ModOfWeekStart(q, i + 1);
    } else {
      assert d + 1 == 7 * (q + 1) + 0;
      ModOfWeekStart(q + 1, 0);
    }
  }

  /** The text of a strip cell whose day number reads `dt`: today mark, day, badge. */
  function WeekLayout(dt: string, isToday: bool, hasBadge: bool): string {
    var badge := if hasBadge then BADGE else "";
    var mark := if isToday then "*" else " ";
    FitRightPad(mark + " " + dt + badge, CELL_W)
  }

  /** The text of a day's cell: today's mark, the day number and a badge when tasks are due. */
  function WeekCell(d: Date, today: Date, items: seq<Task>): string {
    WeekLayout(DayText(d), d == today, DueCount(items, d) > 0)
  }

  lemma WeekLayoutShape(dt: string, isToday: bool, hasBadge: bool)
    requires |dt| == 2
    ensures var cell := WeekLayout(dt, isToday, hasBadge);
      && |cell| == CELL_W
      && (cell[0] == '*' <==> isToday)
      && cell[2..4] == dt
      && (cell[4..7] == BADGE <==> hasBadge)
      && (!hasBadge ==> forall i :: 4 <= i < CELL_W ==> cell[i] == ' ')
  {
    var badge := if hasBadge then BADGE else "";
    var mark := if isToday then "*" else " ";
    var s := mark + " " + dt + badge;
    var cell := WeekLayout(dt, isToday, hasBadge);
    assert cell[..|s|] == s;
    assert cell[2..4] == s[2..4];
    if hasBadge {
      assert cell[4..7] == s[4..7];
    } else {
      assert cell[6] == ' ';
    }
  }

  /**
   * A cell is exactly `CELL_W` wide; it starts with `*` exactly when the day is today, shows
   * the day number in columns 2 and 3, and has the badge exactly when a task is due that day.
   */
  lemma WeekCellShape(d: Date, today: Date, items: seq<Task>)
    ensures var cell := WeekCell(d, today, items);
      && |cell| == CELL_W
      && (cell[0] == '*' <==> d == today)
      && cell[2..4] == DayText(d)
      && (cell[4..7] == BADGE <==> DueCount(items, d) > 0)
      && (DueCount(items, d) == 0 ==> forall i :: 4 <= i < CELL_W ==> cell[i] == ' ')
  {
    WeekLayoutShape(DayText(d), d == today, DueCount(items, d) > 0);
  }

  /** The first `n` cells of the strip show the days `monday`, `monday + 1`, ... */
  ghost predicate CellsShowWeek(cells: seq<string>, monday: Date, today: Date, items: seq<Task>, n: int) {
    n <= |cells| && forall k :: 0 <= k < n ==> cells[k] == WeekCell(monday + k, today, items)
  }

  lemma CellsShowWeekStep(cells: seq<string>, monday: Date, today: Date, items: seq<Task>, c: int)
    requires 0 <= c < |cells| && CellsShowWeek(cells, monday, today, items, c)
    ensures CellsShowWeek(cells[c := WeekCell(monday + c, today, items)], monday, today, items, c + 1)
  {
  }

  /** `_colDate` part way through painting: the first `n` columns. */
  function ColumnDates(monday: Date, n: int): map<int, Date> {
    map c | c in Columns() && c < n :: monday + c
  }

  lemma ColumnDatesStep(monday: Date, n: int)
    requires 0 <= n < COLS
    ensures ColumnDates(monday, n)[n := monday + n] == ColumnDates(monday, n + 1)
  {
  }

  lemma ColumnDatesFull(monday: Date)
    ensures ColumnDates(monday, COLS) == StripDates(monday)
  {
  }

  /**
   * The painting loop: every column's date into a cleared `_colDate`, and every column's
   * cell text into the data row.
   */
  method PaintColumns(monday: Date, today: Date, items: seq<Task>) returns (dates: map<int, Date>, cells: seq<string>)
    ensures dates == StripDates(monday) && |cells| == COLS
    ensures CellsShowWeek(cells, monday, today, items, COLS)
  {
    cells := seq(COLS, _ => "");
    dates := map[];
    var c := 0;
    assert dates == ColumnDates(monday, 0);
    while c < COLS
      invariant 0 <= c <= COLS && |cells| == COLS
      invariant dates == ColumnDates(monday, c)
      invariant CellsShowWeek(cells, monday, today, items, c)
    {
      dates, cells := PaintColumn(dates, cells, monday, today, items, c);
      c := c + 1;
    }
    ColumnDatesFull(monday);
  }

  /** One step of the painting loop: column `c`'s date and cell text. */
  method PaintColumn(dates: map<int, Date>, cells: seq<string>, monday: Date, today: Date, items: seq<Task>, c: int)
    returns (dates': map<int, Date>, cells': seq<string>)
    requires 0 <= c < COLS && |cells| == COLS
    requires dates == ColumnDates(monday, c) && CellsShowWeek(cells, monday, today, items, c)
    ensures dates' == ColumnDates(monday, c + 1) && |cells'| == COLS
    ensures CellsShowWeek(cells', monday, today, items, c + 1)
  {
    ColumnDatesStep(monday, c);
    dates' := dates[c := monday + c];
    CellsShowWeekStep(cells, monday, today, items, c);
    cells' := cells[c := WeekCell(monday + c, today, items)];
  }

  /** The column indices of the strip. */
  function Columns(): (r: set<int>)
    ensures forall c :: c in r <==> 0 <= c < COLS
  {
    {0, 1, 2, 3, 4, 5, 6}
  }

  /** `_colDate` after painting: column `c` holds `monday + c`. */
  function StripDates(monday: Date): (m: map<int, Date>)
    ensures forall c :: c in m <==> 0 <= c < COLS
    ensures forall c :: c in m ==> m[c] == monday + c
  {
    map c | c in Columns() :: monday + c
  }

  /**
   * The strip only slides when the date leaves it: a date in the strip of Monday `m` keeps
   * `m`, the day after the strip starts the next week and the day before it the previous one.
   */
  lemma StripSlides(m: Date, d: Date)
    requires IsMonday(m)
    ensures m <= d < m + COLS ==> MondayOf(d) == m
    ensures MondayOf(m + COLS) == m + COLS && MondayOf(m - 1) == m - COLS
  {
    MondayIndexIsMod(m);
    var q := m / 7;
    assert m == 7 * q;
    if m <= d < m + COLS {
      MondayIndexIsMod(d);
      ModOfWeekStart(q, d - m);
    }
    MondayIndexIsMod(m + COLS);
    ModOfWeekStart(q + 1, 0);
    MondayIndexIsMod(m - 1);
    ModOfWeekStart(q - 1, 6);
  }

  /** The keys the strip's handler marks handled. */
  predicate StripHandles(key: Key) {
    || key == CursorLeft || key == CursorRight || key == Enter || key == Esc
    || key == Char('h') || key == Char('l') || key == Char('t') || key == Char('T')
    || key == Char('a') || key == Char('A') || key == Char('d') || key == Char('D')
  }

  /** The strip keys that move the selection: left, right, `h`, `l`, `t` and `T`. */
  predicate StripMoveKey(key: Key) {
    || key == CursorLeft || key == CursorRight
    || key == Char('h') || key == Char('l') || key == Char('t') || key == Char('T')
  }

  class WeekScreen {
    const store: InMemoryTaskStore
    /** `_seed`: the date the screen opened on; it never changes. */
    const seed: Date
    /** The culture's short date text (`ToShortDateString`), used as the day list's label. */
    const shortDate: Date -> string
    /** The strip's column headers. */
    const headers: seq<string>
    /** `_dayList`, a task list without a filter bar. */
    const dayList: TaskListView
    /** `_monday`: the first day of the strip. */
    var monday: Date
    /** `_colDate`. */
    var colDate: map<int, Date>
    /** The strip's single data row. */
    var cells: seq<string>
    /** `_strip.SelectedColumn`. */
    var selectedColumn: int

    /** The strip shows the week of a Monday, one date per column, and a column is selected. */
    ghost predicate StripValid()
      reads this
    {
      IsMonday(monday) && colDate == StripDates(monday) && |cells| == COLS && 0 <= selectedColumn < COLS
    }

    /** The day list reads this screen's store and has no filter bar. */
    ghost predicate Wired()
      reads this, dayList
    {
      dayList.store == store && !dayList.showFilterBar && dayList.Valid()
    }

    ghost predicate Valid()
      reads this, dayList
    {
      StripValid() && Wired()
    }

    /** `new WeekScreen(store, seed)`: the strip is painted around the seed. */
    constructor (store: InMemoryTaskStore, seed: Date, dayNames: seq<string>, shortDate: Date -> string, today: Date)
      requires |dayNames| == 7
      ensures this.store == store && this.seed == seed && this.shortDate == shortDate
      ensures headers == ColumnHeaders(dayNames) && fresh(dayList)
      ensures Valid() && SelectedDate() == Some(seed) && monday == MondayOf(seed)
      ensures dayList.filter == DueOn(seed) && dayList.ShowsStore(today)
    {
      this.store := store;
      this.seed := seed;
      this.shortDate := shortDate;
      headers := ColumnHeaders(dayNames);
      var l := new TaskListView(store, false, today);
      dayList := l;
      monday := MondayOf(seed);
      colDate := map[];
      cells := seq(COLS, _ => "");
      selectedColumn := 0;
      new;
      PaintStrip(Some(seed), today);
    }

    /** `SelectedDate()`: the date of the selected column. */
    function SelectedDate(): (r: Option<Date>)
      reads this
      ensures StripValid() ==> r == Some(monday + selectedColumn) && monday <= r.value < monday + COLS
    {
      if selectedColumn < 0 || selectedColumn >= COLS then None
      else if selectedColumn in colDate then Some(colDate[selectedColumn])
      else None
    }

    /**
     * `UpdateDayList(forced)`: the list shows the tasks due on the forced date, else on the
     * selected date, else nothing ("No day").
     */
    method UpdateDayList(forced: Option<Date>, today: Date)
      requires dayList.store == store && !dayList.showFilterBar
      modifies dayList
      ensures Wired() && dayList.ShowsStore(today) && dayList.expanded == {}
      ensures var d := if forced.Some? then forced else SelectedDate();
        if d.None? then dayList.filter == NoDay && dayList.filterLabel == "No day"
        else
          && dayList.filter == DueOn(d.value)
          && dayList.filterLabel == if IsBlank(shortDate(d.value)) then "Custom" else shortDate(d.value)
    {
      var d := if forced.Some? then forced else SelectedDate();
      if d.None? {
        assert !IsBlank("No day") by {
          assert !IsWhiteSpace("No day"[0]);
        }
        dayList.SetFilter(Some(NoDay), "No day", today);
        dayList.Refresh(today);
        return;
      }
      dayList.SetFilter(Some(DueOn(d.value)), shortDate(d.value), today);
      dayList.Refresh(today);
    }

    /**
     * `PaintStrip(select)`: the strip is re-anchored at the Monday of the target (the seed
     * when no date is given), every column gets its date and cell text, the target's column
     * is selected, and the day list shows the target's tasks.
     */
    method PaintStrip(select: Option<Date>, today: Date)
      requires dayList.store == store && !dayList.showFilterBar
      modifies this, dayList
      ensures Valid()
      ensures var target := select.GetOr(seed);
        && monday == MondayOf(target)
        && selectedColumn == target - monday
        && SelectedDate() == Some(target)
        && dayList.filter == DueOn(target)
      ensures CellsShowWeek(cells, monday, today, store.items, COLS)
      ensures dayList.ShowsStore(today) && dayList.expanded == {}
    {
      var target := select.GetOr(seed);
      monday := MondayOf(target);
      colDate, cells := PaintColumns(monday, today, store.All());
      MondayOfIsMonday(target);
      selectedColumn := Min(Max(target - monday, 0), COLS - 1);
      UpdateDayList(Some(target), today);
    }

    /** `MoveDay(delta)`: repaints around the selected date moved by `delta` days. */
    method MoveDay(delta: int, today: Date)
      requires Valid()
      modifies this, dayList
      ensures Valid()
      ensures var target := old(monday) + old(selectedColumn) + delta;
        SelectedDate() == Some(target) && monday == MondayOf(target) && dayList.filter == DueOn(target)
    {
      var d := SelectedDate().GetOr(monday);
      PaintStrip(Some(d + delta), today);
    }

    /**
     * The state after an add for day `d` from a store holding `before`: the store gains the
     * editor's new task, due on `d`, exactly when the editor saves it, and `d` stays selected.
     */
    ghost predicate AddedForDay(d: Date, before: seq<Task>, freshId: Id, clicks: seq<Form>, today: Date)
      reads this, store
    {
      var r := ShowEditDialog(NewTask(freshId, today).(due := Some(d)), clicks);
      && store.items == before + (if r.saved then [r.task] else [])
      && SelectedDate() == Some(d)
    }

    /**
     * Adding a task for the selected day (key `a`, or the list's add request): the editor
     * runs on a new task due that day; a save adds it and repaints around that day.
     */
    method AddForSelectedDay(freshId: Id, clicks: seq<Form>, today: Date)
      requires Valid()
      modifies this, store, dayList
      ensures Valid()
      ensures AddedForDay(old(SelectedDate()).value, old(store.items), freshId, clicks, today)
    {
      var d := SelectedDate();
      if d.None? {
        return;
      }
      var item := NewTask(freshId, today).(due := Some(d.value));
      var r := ShowEditDialog(item, clicks);
      if r.saved {
        var added := store.Add(r.task);
        PaintStrip(d, today);
      }
    }

    /**
     * The strip's key handler: left and `h` move a day back, right and `l` a day forward,
     * `t` repaints around today; the other keys go to `OnStripDayKey`.
     */
    method OnStripKey(key: Key, freshId: Id, clicks: seq<Form>, afterNested: seq<Task>, today: Date) returns (handled: bool)
      requires Valid()
      modifies this, store, dayList
      ensures Valid()
      ensures key == CursorLeft || key == Char('h') ==> SelectedDate() == Some(old(monday) + old(selectedColumn) - 1)
      ensures key == CursorRight || key == Char('l') ==> SelectedDate() == Some(old(monday) + old(selectedColumn) + 1)
      ensures key == Char('t') || key == Char('T') ==> SelectedDate() == Some(today) && monday == MondayOf(today)
      ensures key == Char('d') || key == Char('D') ==>
        store.items == afterNested && SelectedDate() == old(SelectedDate()) && dayList.ShowsStore(today)
      ensures key != Char('a') && key != Char('A') && key != Char('d') && key != Char('D') ==> store.items == old(store.items)
      ensures key == Char('a') || key == Char('A') ==>
        AddedForDay(old(SelectedDate()).value, old(store.items), freshId, clicks, today)
      ensures key == Enter || key == Esc ==> unchanged(this, store, dayList)
      ensures handled <==> StripHandles(key)
    {
      if StripMoveKey(key) {
        OnStripMoveKey(key, today);
        return true;
      }
      handled := OnStripDayKey(key, freshId, clicks, afterNested, today);
    }

    /** The strip's moves: left/`h` and right/`l` step one day, `t` repaints around today. */
    method OnStripMoveKey(key: Key, today: Date)
      requires Valid() && StripMoveKey(key)
      modifies this, dayList
      ensures Valid()
      ensures key == CursorLeft || key == Char('h') ==> SelectedDate() == Some(old(monday) + old(selectedColumn) - 1)
      ensures key == CursorRight || key == Char('l') ==> SelectedDate() == Some(old(monday) + old(selectedColumn) + 1)
      ensures key == Char('t') || key == Char('T') ==> SelectedDate() == Some(today) && monday == MondayOf(today)
    {
      if key == CursorLeft || key == Char('h') {
        MoveDay(-1, today);
      } else if key == CursorRight || key == Char('l') {
        MoveDay(1, today);
      } else {
        PaintStrip(Some(today), today);
      }
    }

    /**
     * The rest of the strip's key handler: `a` adds a task for the selected day, `d` repaints
     * around the selected day after the day screen it opens closes, leaving the shared store
     * holding `afterNested`; Enter (focus the list) and Esc (close) change nothing modelled here.
     */
    method OnStripDayKey(key: Key, freshId: Id, clicks: seq<Form>, afterNested: seq<Task>, today: Date) returns (handled: bool)
      requires Valid()
      modifies this, store, dayList
      ensures Valid()
      ensures key == Char('d') || key == Char('D') ==>
        store.items == afterNested && SelectedDate() == old(SelectedDate()) && dayList.ShowsStore(today)
      ensures key != Char('a') && key != Char('A') && key != Char('d') && key != Char('D') ==> store.items == old(store.items)
      ensures key == Char('a') || key == Char('A') ==>
        AddedForDay(old(SelectedDate()).value, old(store.items), freshId, clicks, today)
      ensures key == Enter || key == Esc ==> unchanged(this, store, dayList)
      ensures handled <==> key == Char('a') || key == Char('A') || key == Enter || key == Char('d') || key == Char('D') || key == Esc
    {
      if key == Char('a') || key == Char('A') {
        AddForSelectedDay(freshId, clicks, today);
        return true;
      }
      if key == Enter {
        return true;
      }
      if key == Char('d') || key == Char('D') {
        var d := SelectedDate().GetOr(today);
        store.items := afterNested;
        PaintStrip(Some(d), today);
        return true;
      }
      handled := key == Esc;
    }

    /**
     * The day list's requests. A save, a toggle or a confirmed delete repaints the strip
     * without a date, so the strip goes back to the seed's week with the seed selected.
     */
    method OnListRequest(request: Request, freshId: Id, clicks: seq<Form>, answer: int, today: Date)
      requires Valid()
      modifies this, store, dayList
      ensures Valid()
      ensures request.AddRequested? ==>
        var r := ShowEditDialog(NewTask(freshId, today).(due := old(SelectedDate())), clicks);
        store.items == old(store.items) + (if r.saved then [r.task] else [])
        && SelectedDate() == old(SelectedDate())
      ensures request.EditRequested? ==>
        var r := ShowEditDialog(request.task, clicks);
        store.items == (if r.saved then Written(old(store.items), r.task) else old(store.items))
        && (r.saved ==> SelectedDate() == Some(seed))
      ensures request.ToggleDoneRequested? ==>
        store.items == Written(old(store.items), request.task.(done := !request.task.done))
        && SelectedDate() == Some(seed)
      ensures request.DeleteRequested? ==>
        store.items == (if answer == 0 then WithoutId(old(store.items), request.task.id) else old(store.items))
        && (answer == 0 ==> SelectedDate() == Some(seed))
    {
      match request
      case AddRequested =>
        var d := SelectedDate();
        if d.Some? {
          var item := NewTask(freshId, today).(due := d);
          var r := ShowEditDialog(item, clicks);
          if r.saved {
            var added := store.Add(r.task);
            dayList.Refresh(today);
            PaintStrip(d, today);
          }
        }
      case EditRequested(t) =>
        var r := ShowEditDialog(t, clicks);
        if r.saved {
          store.Write(r.task);
          store.Update(r.task);
          dayList.Refresh(today);
          PaintStrip(None, today);
        }
      case ToggleDoneRequested(t) =>
        var flipped := t.(done := !t.done);
        store.Write(flipped);
        store.Update(flipped);
        dayList.Refresh(today);
        PaintStrip(None, today);
      case DeleteRequested(t) =>
        if answer == 0 {
          store.Remove(t.id);
          dayList.Refresh(today);
          PaintStrip(None, today);
        }
    }
  }
}
