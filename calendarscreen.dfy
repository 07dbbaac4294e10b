/**
 * `CalendarScreen`: a Monday-first month grid of 6 rows by 7 columns with a task list for
 * the selected day. The grid is anchored at a month (`_month`, the 1st of that month); its
 * first cell is the Monday on or before the 1st, and cell (r, c) is `7 * r + c` days later.
 */
module CalendarScreen {
  import opened Wrappers
  import opened Strings
  import opened Dates
  import opened TaskItem
  import opened TaskStore
  import opened Filters
  import opened TaskRows
  import opened TaskDialogs
  import opened Keys
  import opened ListView
  import opened Cells

  const ROWS: int := 6
  const COLS: int := 7
  const CELL_W: nat := 11
  const SELECT_L: string := "["
  const SELECT_R: string := "]"
  const TODAY_MARK: string := "*"

  function ColumnNames(): seq<string> {
    ["Mon", "Tue", "Wed", "Thu", "Fri", "Sat", "Sun"]
  }

  /** The grid's column headers: the day abbreviations, Monday first, centred in a cell. */
  function ColumnHeaders(): (r: seq<string>)
    ensures |r| == COLS
    ensures forall c :: 0 <= c < COLS ==> r[c] == "    " + ColumnNames()[c] + "    "
  {
    seq(COLS, c requires 0 <= c < COLS => PadCenter(ColumnNames()[c], CELL_W))
  }

  /** `_month.AddDays(-(((int)_month.DayOfWeek + 6) % 7))`: the date of cell (0, 0). */
  function GridStart(ym: YearMonth): (start: Date)
    ensures IsMonday(start)
    ensures start <= FirstDay(ym) < start + COLS
    ensures FirstDay(ym) - start == MondayIndex(FirstDay(ym))
  {
    MondayOfIsMonday(FirstDay(ym));
    FirstDay(ym) - MondayIndex(FirstDay(ym))
  }

  /** The date of cell (r, c) of the grid that starts at `start`: `start.AddDays(r * 7 + c)`. */
  function CellDate(start: Date, r: int, c: int): Date {
    start + 7 * r + c
  }

  /**
   * `_cellDate` once the first `n` cells have been filled, row by row: cell number `k` is
   * (row `k / 7`, column `k % 7`) and holds the date `k` days after the grid's start.
   */
  function GridDatesUpTo(start: Date, n: nat): map<(int, int), Date> {
    if n == 0 then map[] else GridDatesUpTo(start, n - 1)[((n - 1) / COLS, (n - 1) % COLS) := start + n - 1]
  }

  lemma {:induction false} GridDatesUpToContents(start: Date, n: nat)
    ensures forall p :: p in GridDatesUpTo(start, n) <==> 0 <= p.0 && 0 <= p.1 < COLS && 7 * p.0 + p.1 < n
    ensures forall p :: p in GridDatesUpTo(start, n) ==> GridDatesUpTo(start, n)[p] == CellDate(start, p.0, p.1)
  {
    if n > 0 {
      GridDatesUpToContents(start, n - 1);
      var k := n - 1;
      assert k == 7 * (k / COLS) + k % COLS;
      forall p: (int, int) | 0 <= p.0 && 0 <= p.1 < COLS && 7 * p.0 + p.1 == k
        ensures p == (k / COLS, k % COLS)
      {
      }
    }
  }

  /** The cells of a six-by-seven grid, cell (r, c) holding the date `start + 7 * r + c`. */
  ghost predicate DatesFrom(m: map<(int, int), Date>, start: Date) {
    && (forall p :: p in m <==> 0 <= p.0 < ROWS && 0 <= p.1 < COLS)
    && (forall p :: p in m ==> m[p] == CellDate(start, p.0, p.1))
  }

  /** `_cellDate` after `BuildMonth`: cell (r, c) holds `start + 7 * r + c`. */
  function GridDates(start: Date): (m: map<(int, int), Date>)
    ensures DatesFrom(m, start)
  {
    GridDatesUpToContents(start, 42);
    GridDatesUpTo(start, 42)
  }

  /** The grid's cells hold pairwise different dates. */
  lemma GridDatesDistinct(start: Date, p: (int, int), q: (int, int))
    requires p in GridDates(start) && q in GridDates(start)
    requires GridDates(start)[p] == GridDates(start)[q]
    ensures p == q
  {
  }

  /** Every cell in column `c` falls on the `c`-th day of a Monday-first week: column 0 is Monday. */
  lemma ColumnIsWeekday(start: Date, r: int, c: int)
    requires IsMonday(start) && 0 <= c < COLS
    ensures MondayIndex(CellDate(start, r, c)) == c
  {
    MondayIndexIsMod(start);
    MondayIndexIsMod(start + 7 * r + c);
    var q := start / 7;
    assert start == 7 * q;
    assert start + 7 * r + c == 7 * (q + r) + c;
  }

  lemma DaysInAtMost31(ym: YearMonth)
    ensures DaysIn(ym) <= 31
  {
  }

  /** Day 0 is a Monday, so the Mondays are the multiples of seven. */
  lemma MondayIsMultipleOfSeven(d: Date)
    requires IsMonday(d)
    ensures d == 7 * (d / 7)
  {
  }

  /**
   * The grid's start is the one multiple of seven among the seven days that end at the 1st:
   * a Monday at most six days before the 1st is the grid's start.
   */
  lemma AnchorIsGridStart(ym: YearMonth, start: Date, week: int)
    requires start == 7 * week && start <= FirstDay(ym) < start + COLS
    ensures start == GridStart(ym)
  {
    var first := FirstDay(ym);
    MondayIndexIsMod(first);
    ModOfWeekStart(week, first - start);
    assert first == 7 * week + (first - start);
  }

  /** Every day of the month lies within the 42 days from a start at most six days before the 1st. */
  lemma MonthWithinGrid(ym: YearMonth, start: Date, d: Date)
    requires start <= FirstDay(ym) < start + COLS && InMonth(ym, d)
    ensures 0 <= d - start < ROWS * COLS
  {
    DaysInAtMost31(ym);
  }

  /**
   * Every day of the anchored month has a cell: the day `off` days after the grid's start sits
   * at row `off / 7`, column `off % 7`. The 1st sits in row 0, at the column of its weekday.
   */
  lemma GridCoversMonth(ym: YearMonth, d: Date)
    requires InMonth(ym, d)
    ensures var off := d - GridStart(ym);
      && (off / COLS, off % COLS) in GridDates(GridStart(ym))
      && GridDates(GridStart(ym))[(off / COLS, off % COLS)] == d
    ensures d == FirstDay(ym) ==> (d - GridStart(ym)) / COLS == 0 && (d - GridStart(ym)) % COLS == MondayIndex(d)
  {
    MonthWithinGrid(ym, GridStart(ym), d);
  }

  /** The text of a cell whose day number reads `dt`: today mark, day (bracketed if selected), badge. */
  function CellLayout(dt: string, isSelected: bool, isToday: bool, hasBadge: bool): string {
    var badge := if hasBadge then BADGE else "";
    var dd := if isSelected then SELECT_L + dt + SELECT_R else " " + dt;
    var mark := if isToday then TODAY_MARK else " ";
    FitRightPad(mark + dd + badge, CELL_W)
  }

  lemma CellLayoutShape(dt: string, isSelected: bool, isToday: bool, hasBadge: bool)
    requires |dt| == 2
    ensures var cell := CellLayout(dt, isSelected, isToday, hasBadge);
      var b := if isSelected then 5 else 4;
      && |cell| == CELL_W
      && (cell[0] == '*' <==> isToday)
      && (cell[1] == '[' <==> isSelected)
      && (isSelected ==> cell[4] == ']')
      && cell[2..4] == dt
      && (cell[b..b + 3] == BADGE <==> hasBadge)
  {
    var badge := if hasBadge then BADGE else "";
    var dd := if isSelected then SELECT_L + dt + SELECT_R else " " + dt;
    var mark := if isToday then TODAY_MARK else " ";
    var s := mark + dd + badge;
    var cell := CellLayout(dt, isSelected, isToday, hasBadge);
    var b := if isSelected then 5 else 4;
    assert |mark| == 1 && |dd| == b - 1 && |s| == b + |badge| < CELL_W;
    assert cell[..|s|] == s;
    assert cell[0] == s[0] == mark[0];
    assert cell[1] == s[1] == dd[0];
    assert cell[2] == s[2] == dt[0] && cell[3] == s[3] == dt[1];
    assert cell[2..4] == dt;
    if isSelected {
      assert cell[4] == s[4] == ']';
    }
    if hasBadge {
      assert cell[b..b + 3] == s[b..b + 3] == BADGE;
    } else {
      assert cell[b + 2] == ' ' != BADGE[2];
    }
  }

  /** `RenderCell(date, isSelected)`. */
  function RenderCell(date: Date, isSelected: bool, today: Date, items: seq<Task>): string {
    CellLayout(DayText(date), isSelected, date == today, DueCount(items, date) != 0)
  }

  /**
   * A cell is exactly `CELL_W` wide; it starts with `*` exactly when its date is today, is
   * bracketed exactly when it is selected, shows the day number in columns 2 and 3, and has
   * the badge exactly when a task is due that day.
   */
  lemma RenderCellShape(date: Date, isSelected: bool, today: Date, items: seq<Task>)
    ensures var cell := RenderCell(date, isSelected, today, items);
      var b := if isSelected then 5 else 4;
      && |cell| == CELL_W
      && (cell[0] == '*' <==> date == today)
      && (cell[1] == '[' <==> isSelected)
      && (isSelected ==> cell[4] == ']')
      && cell[2..4] == DayText(date)
      && (cell[b..b + 3] == BADGE <==> DueCount(items, date) > 0)
  {
    CellLayoutShape(DayText(date), isSelected, date == today, DueCount(items, date) != 0);
  }

  /** The text of cell (r, c) of the grid that starts at `start` when `sel` is the selected date. */
  function CellText(start: Date, r: int, c: int, sel: Option<Date>, today: Date, items: seq<Task>): string {
    RenderCell(CellDate(start, r, c), sel == Some(CellDate(start, r, c)), today, items)
  }

  /** The first `n` cells of row `r` show their dates, bracketed only at `sel`. */
  ghost predicate RowPainted(row: seq<string>, start: Date, r: int, sel: Option<Date>, today: Date, items: seq<Task>, n: int) {
    n <= |row| && forall c :: 0 <= c < n ==> row[c] == CellText(start, r, c, sel, today, items)
  }

  lemma RowPaintedStep(row: seq<string>, start: Date, r: int, c: int, date: Date, isSel: bool,
                       sel: Option<Date>, today: Date, items: seq<Task>)
    requires 0 <= c < |row| && RowPainted(row, start, r, sel, today, items, c)
    requires date == CellDate(start, r, c) && isSel == (sel == Some(date))
    ensures RowPainted(row[c := RenderCell(date, isSel, today, items)], start, r, sel, today, items, c + 1)
  {
    var row' := row[c := RenderCell(date, isSel, today, items)];
    assert row'[c] == CellText(start, r, c, sel, today, items);
    forall c' | 0 <= c' < c
      ensures row'[c'] == CellText(start, r, c', sel, today, items)
    {
      assert row'[c'] == row[c'];
    }
  }

  /** Six rows of seven cells. */
  ghost predicate GridShape(grid: seq<seq<string>>) {
    |grid| == ROWS && forall r :: 0 <= r < ROWS ==> |grid[r]| == COLS
  }

  /** The first `n` rows of the grid are painted for `sel`. */
  ghost predicate GridPainted(grid: seq<seq<string>>, start: Date, sel: Option<Date>, today: Date, items: seq<Task>, n: int) {
    n <= |grid| && forall r :: 0 <= r < n ==> |grid[r]| == COLS && RowPainted(grid[r], start, r, sel, today, items, COLS)
  }

  lemma GridPaintedAppend(grid: seq<seq<string>>, row: seq<string>, start: Date, sel: Option<Date>, today: Date, items: seq<Task>)
    requires GridPainted(grid, start, sel, today, items, |grid|)
    requires |row| == COLS && RowPainted(row, start, |grid|, sel, today, items, COLS)
    ensures GridPainted(grid + [row], start, sel, today, items, |grid| + 1)
  {
  }

  /** Row `r` of the grid that starts at `start`, painted for the selected date `sel`. */
  function PaintedRow(start: Date, r: int, sel: Option<Date>, today: Date, items: seq<Task>): (row: seq<string>)
    ensures |row| == COLS
  {
    seq(COLS, c => CellText(start, r, c, sel, today, items))
  }

  /** The whole grid that starts at `start`, painted for the selected date `sel`. */
  function PaintedGrid(start: Date, sel: Option<Date>, today: Date, items: seq<Task>): (grid: seq<seq<string>>)
    ensures GridShape(grid)
  {
    seq(ROWS, r => PaintedRow(start, r, sel, today, items))
  }

  /** A grid whose rows are all painted is the painted grid. */
  lemma GridPaintedIsPaintedGrid(grid: seq<seq<string>>, start: Date, sel: Option<Date>, today: Date, items: seq<Task>)
    requires |grid| == ROWS && GridPainted(grid, start, sel, today, items, ROWS)
    ensures grid == PaintedGrid(start, sel, today, items)
  {
    var g := PaintedGrid(start, sel, today, items);
    forall r | 0 <= r < ROWS
      ensures grid[r] == g[r]
    {
      assert RowPainted(grid[r], start, r, sel, today, items, COLS);
    }
  }

  lemma PaintedCell(start: Date, sel: Option<Date>, today: Date, items: seq<Task>, r: int, c: int)
    requires 0 <= r < ROWS && 0 <= c < COLS
    ensures PaintedGrid(start, sel, today, items)[r][c] == CellText(start, r, c, sel, today, items)
  {
  }

  lemma CellTextBracket(start: Date, r: int, c: int, sel: Option<Date>, today: Date, items: seq<Task>)
    ensures CellText(start, r, c, sel, today, items)[1] == '[' <==> sel == Some(CellDate(start, r, c))
  {
    var date := CellDate(start, r, c);
    RenderCellShape(date, sel == Some(date), today, items);
  }

  /** In a painted grid, a cell is bracketed exactly when its date is the selected one. */
  lemma BracketedIffSelected(start: Date, sel: Option<Date>, today: Date, items: seq<Task>, r: int, c: int)
    requires 0 <= r < ROWS && 0 <= c < COLS
    ensures PaintedGrid(start, sel, today, items)[r][c][1] == '[' <==> sel == Some(CellDate(start, r, c))
  {
    PaintedCell(start, sel, today, items, r, c);
    CellTextBracket(start, r, c, sel, today, items);
  }

  /** Writes cell (r, c)'s text into its row: the text of `date`, bracketed when `isSel`. */
  method PutCell(row: seq<string>, ghost start: Date, r: int, c: int, date: Date, isSel: bool,
                 ghost sel: Option<Date>, today: Date, items: seq<Task>) returns (row': seq<string>)
    requires 0 <= c < COLS && |row| == COLS
    requires date == CellDate(start, r, c) && isSel == (sel == Some(date))
    requires RowPainted(row, start, r, sel, today, items, c)
    ensures |row'| == COLS && RowPainted(row', start, r, sel, today, items, c + 1)
  {
    RowPaintedStep(row, start, r, c, date, isSel, sel, today, items);
    row' := row[c := RenderCell(date, isSel, today, items)];
  }

  /** One step of filling row `r` in `BuildMonth`: cell (r, c)'s date and its unselected text. */
  method FillCell(dates: map<(int, int), Date>, row: seq<string>, start: Date, r: int, c: int, today: Date, items: seq<Task>)
    returns (dates': map<(int, int), Date>, row': seq<string>)
    requires 0 <= r < ROWS && 0 <= c < COLS && |row| == COLS
    requires dates == GridDatesUpTo(start, 7 * r + c) && RowPainted(row, start, r, None, today, items, c)
    ensures dates' == GridDatesUpTo(start, 7 * r + c + 1) && |row'| == COLS
    ensures RowPainted(row', start, r, None, today, items, c + 1)
  {
    var date := CellDate(start, r, c);
    assert (7 * r + c) / COLS == r && (7 * r + c) % COLS == c;
    dates' := dates[(r, c) := date];
    row' := PutCell(row, start, r, c, date, false, None, today, items);
  }

  /** The row loop of `BuildMonth`: a new row, filled cell by cell. */
  method FillRow(dates: map<(int, int), Date>, start: Date, r: int, today: Date, items: seq<Task>)
    returns (dates': map<(int, int), Date>, row: seq<string>)
    requires 0 <= r < ROWS && dates == GridDatesUpTo(start, 7 * r)
    ensures dates' == GridDatesUpTo(start, 7 * (r + 1)) && |row| == COLS
    ensures RowPainted(row, start, r, None, today, items, COLS)
  {
    dates' := dates;
    row := seq(COLS, _ => "");
    var c := 0;
    while c < COLS
      invariant 0 <= c <= COLS && |row| == COLS
      invariant dates' == GridDatesUpTo(start, 7 * r + c)
      invariant RowPainted(row, start, r, None, today, items, c)
    {
      dates', row := FillCell(dates', row, start, r, c, today, items);
      c := c + 1;
    }
  }

  /** The fill loops of `BuildMonth`: a cleared `_cellDate` and a cleared table, refilled row by row. */
  method FillGrid(start: Date, today: Date, items: seq<Task>) returns (dates: map<(int, int), Date>, grid: seq<seq<string>>)
    ensures DatesFrom(dates, start) && grid == PaintedGrid(start, None, today, items)
  {
    dates := map[];
    grid := [];
    assert dates == GridDatesUpTo(start, 0);
    var r := 0;
    while r < ROWS
      invariant 0 <= r <= ROWS && |grid| == r
      invariant dates == GridDatesUpTo(start, 7 * r)
      invariant GridPainted(grid, start, None, today, items, r)
    {
      var row;
      dates, row := FillRow(dates, start, r, today, items);
      GridPaintedAppend(grid, row, start, None, today, items);
      grid := grid + [row];
      r := r + 1;
    }
    GridPaintedIsPaintedGrid(grid, start, None, today, items);
    GridDatesUpToContents(start, 7 * ROWS);
  }

  /** One step of `RepaintCellsWithSelection`: cell (r, c) rendered for the selected date. */
  method RepaintCell(row: seq<string>, dates: map<(int, int), Date>, ghost start: Date, r: int, c: int,
                     sel: Option<Date>, today: Date, items: seq<Task>) returns (row': seq<string>)
    requires 0 <= r < ROWS && 0 <= c < COLS && |row| == COLS
    requires DatesFrom(dates, start) && RowPainted(row, start, r, sel, today, items, c)
    ensures |row'| == COLS && RowPainted(row', start, r, sel, today, items, c + 1)
  {
    var date := dates[(r, c)];
    var isSel := sel.Some? && date == sel.value;
    row' := PutCell(row, start, r, c, date, isSel, sel, today, items);
  }

  /** The inner loop of `RepaintCellsWithSelection`: every cell of row `r`. */
  method RepaintRow(row: seq<string>, dates: map<(int, int), Date>, ghost start: Date, r: int,
                    sel: Option<Date>, today: Date, items: seq<Task>) returns (row': seq<string>)
    requires 0 <= r < ROWS && |row| == COLS && DatesFrom(dates, start)
    ensures |row'| == COLS && RowPainted(row', start, r, sel, today, items, COLS)
  {
    row' := row;
    var c := 0;
    while c < COLS
      invariant 0 <= c <= COLS && |row'| == COLS
      invariant RowPainted(row', start, r, sel, today, items, c)
    {
      row' := RepaintCell(row', dates, start, r, c, sel, today, items);
      c := c + 1;
    }
  }

  /** The loops of `RepaintCellsWithSelection`: every cell re-rendered, bracketed only at `sel`. */
  method RepaintGrid(grid: seq<seq<string>>, dates: map<(int, int), Date>, ghost start: Date,
                     sel: Option<Date>, today: Date, items: seq<Task>) returns (grid': seq<seq<string>>)
    requires GridShape(grid) && DatesFrom(dates, start)
    ensures grid' == PaintedGrid(start, sel, today, items)
  {
    grid' := grid;
    var r := 0;
    while r < ROWS
      invariant 0 <= r <= ROWS && GridShape(grid')
      invariant GridPainted(grid', start, sel, today, items, r)
    {
      var row := RepaintRow(grid'[r], dates, start, r, sel, today, items);
      grid' := grid'[r := row];
      r := r + 1;
    }
    GridPaintedIsPaintedGrid(grid', start, sel, today, items);
  }

  /**
   * The `foreach` over `_cellDate` that looks for a date's cell, in the order the cells were
   * added (row by row).
   */
  method FindCell(dates: map<(int, int), Date>, ghost start: Date, target: Date) returns (found: bool, r: int, c: int)
    requires DatesFrom(dates, start)
    ensures found <==> 0 <= target - start < 42
    ensures found ==> 0 <= r < ROWS && 0 <= c < COLS && CellDate(start, r, c) == target
  {
    r := 0;
    while r < ROWS
      invariant 0 <= r <= ROWS
      invariant !(0 <= target - start < 7 * r)
    {
      c := 0;
      while c < COLS
        invariant 0 <= c <= COLS
        invariant !(0 <= target - start < 7 * r + c)
      {
        if dates[(r, c)] == target {
          return true, r, c;
        }
        c := c + 1;
      }
      r := r + 1;
    }
    return false, 0, 0;
  }

  /** The date `BuildMonth(selectDate)` selects: the requested date (default today) if it is in the anchored month, else the 1st. */
  function BuildTarget(month: YearMonth, selectDate: Option<Date>, today: Date): (d: Date)
    ensures InMonth(month, d)
    ensures InMonth(month, selectDate.GetOr(today)) ==> d == selectDate.GetOr(today)
    ensures !InMonth(month, selectDate.GetOr(today)) ==> d == FirstDay(month)
  {
    var t := selectDate.GetOr(today);
    if InMonth(month, t) then t else FirstDay(month)
  }

  /** `w` and `d` (either case) open the week and the day screen. */
  predicate OpensNestedScreen(key: Key) {
    key == Char('w') || key == Char('W') || key == Char('d') || key == Char('D')
  }

  /**
   * The month the grid's keys re-anchor at, with the date they ask to select: `<`/PageUp the
   * previous month and `>`/PageDown the next (today if it lies there, else the 1st), `t`
   * today's month with today.
   */
  function MonthJump(key: Key, month: YearMonth, today: Date): (jump: Option<(YearMonth, Option<Date>)>)
    ensures key == Char('<') || key == PageUp <==> jump == Some((PrevMonth(month), None))
    ensures key == Char('>') || key == PageDown <==> jump == Some((NextMonth(month), None))
    ensures key == Char('t') || key == Char('T') <==> jump == Some((MonthOf(today), Some(today)))
  {
    match key
    case PageUp => Some((PrevMonth(month), None))
    case PageDown => Some((NextMonth(month), None))
    case Char(ch) =>
      if ch == '<' then Some((PrevMonth(month), None))
      else if ch == '>' then Some((NextMonth(month), None))
      else if ch == 't' || ch == 'T' then Some((MonthOf(today), Some(today)))
      else None
    case _ => None
  }

  /**
   * The selection moves of the grid's keys: left/`h` and right/`l` by one day, up/`k` and
   * down/`j` by one week.
   */
  function MoveDelta(key: Key): (delta: Option<int>)
    ensures key == CursorLeft || key == Char('h') <==> delta == Some(-1)
    ensures key == CursorRight || key == Char('l') <==> delta == Some(1)
    ensures key == CursorUp || key == Char('k') <==> delta == Some(-7)
    ensures key == CursorDown || key == Char('j') <==> delta == Some(7)
  {
    match key
    case CursorLeft => Some(-1)
    case CursorRight => Some(1)
    case CursorUp => Some(-7)
    case CursorDown => Some(7)
    case Char(ch) =>
      if ch == 'h' then Some(-1)
      else if ch == 'l' then Some(1)
      else if ch == 'k' then Some(-7)
      else if ch == 'j' then Some(7)
      else None
    case _ => None
  }

  /** The keys the grid's handler marks handled. */
  predicate GridHandles(key: Key) {
    || key == PageUp || key == PageDown || key == CursorLeft || key == CursorRight
    || key == CursorUp || key == CursorDown || key == Enter
    || key == Char('<') || key == Char('>') || key == Char('t') || key == Char('T')
    || key == Char('w') || key == Char('W') || key == Char('d') || key == Char('D')
    || key == Char('a') || key == Char('A') || key == Char('h') || key == Char('l') || key == Char('k') || key == Char('j')
  }

  /**
   * Each key has at most one meaning on the grid: a month key, a key that opens a nested
   * screen, `a`, a move key and Enter are pairwise different keys.
   */
  lemma KeyMeaningsDisjoint(key: Key, month: YearMonth, today: Date)
    ensures MonthJump(key, month, today).Some? ==>
      && !OpensNestedScreen(key) && MoveDelta(key).None?
      && key != Char('a') && key != Char('A') && key != Enter
    ensures OpensNestedScreen(key) ==> MoveDelta(key).None? && key != Char('a') && key != Char('A') && key != Enter
    ensures MoveDelta(key).Some? ==> key != Char('a') && key != Char('A') && key != Enter
  {
  }

  /** The keys the grid handles are exactly the keys that have a meaning there. */
  lemma GridHandlesMeaningfulKeys(key: Key, month: YearMonth, today: Date)
    ensures GridHandles(key) <==>
      || MonthJump(key, month, today).Some? || OpensNestedScreen(key) || MoveDelta(key).Some?
      || key == Char('a') || key == Char('A') || key == Enter
  {
  }

  class CalendarScreen {
    const store: InMemoryTaskStore
    /** The culture's short date text (`ToString("d")`), used as the day list's label. */
    const shortDate: Date -> string
    /** The grid's column headers. */
    const headers: seq<string>
    /** `_dayList`, a task list without a filter bar. */
    const dayList: TaskListView
    /** `_month`: the month the grid shows (the 1st of that month). */
    var month: YearMonth
    /** `_cellDate`. */
    var cellDate: map<(int, int), Date>
    /** The grid's six data rows of seven cell texts. */
    var grid: seq<seq<string>>
    /** The date of cell (0, 0): `BuildMonth`'s local `start`, the Monday on or before the 1st. */
    ghost var start: Date
    /** `start` counted in weeks from day 0, which is a Monday. */
    ghost var week: int
    /** `_grid.SelectedRow`. */
    var selectedRow: int
    /** `_grid.SelectedColumn`. */
    var selectedColumn: int

    /** The grid holds the anchored month's 42 dates, six rows of seven texts, and a selected cell. */
    ghost predicate GridValid()
      reads this
    {
      && start == 7 * week && start <= FirstDay(month) < start + COLS
      && DatesFrom(cellDate, start) && GridShape(grid)
      && 0 <= selectedRow < ROWS && 0 <= selectedColumn < COLS
    }

    /** The grid's start is the one `BuildMonth` computes from `_month`. */
    lemma StartIsGridStart()
      requires GridValid()
      ensures start == GridStart(month)
    {
      AnchorIsGridStart(month, start, week);
    }

    /** The day list reads this screen's store and has no filter bar. */
    ghost predicate Wired()
      reads this, dayList
    {
      dayList.store == store && !dayList.showFilterBar && dayList.Valid()
    }

    ghost predicate Valid()
      reads this, dayList
    {
      GridValid() && Wired()
    }

    /**
     * What the screen shows: every cell rendered from the current store, the selected cell
     * alone bracketed, and the day list showing the selected day's tasks.
     */
    ghost predicate Shows(today: Date)
      reads this, store, dayList
    {
      && Valid()
      && grid == PaintedGrid(start, Some(SelectedCellDate()), today, store.items)
      && dayList.filter == DueOn(SelectedCellDate()) && dayList.ShowsStore(today)
    }

    /** `new CalendarScreen(store)`: the grid shows today's month with today selected. */
    constructor (store: InMemoryTaskStore, shortDate: Date -> string, today: Date)
      ensures this.store == store && this.shortDate == shortDate && fresh(dayList)
      ensures headers == ColumnHeaders() && month == MonthOf(today)
      ensures Shows(today) && SelectedCellDate() == today
    {
      this.store := store;
      this.shortDate := shortDate;
      headers := ColumnHeaders();
      month := MonthOf(today);
      var l := new TaskListView(store, false, today);
      dayList := l;
      cellDate := map[];
      grid := [];
      selectedRow, selectedColumn := 0, 0;
      start, week := 0, 0;
      new;
      BuildMonth(None, today);
    }

    /** The date the grid's layout puts under the selected cell. */
    ghost function SelectedCellDate(): Date
      reads this
    {
      CellDate(start, selectedRow, selectedColumn)
    }

    /** `SelectedDate()`: the date of the selected cell, looked up in `_cellDate`. */
    function SelectedDate(): (r: Option<Date>)
      reads this
      ensures GridValid() ==> r == Some(SelectedCellDate())
    {
      if selectedRow < 0 || selectedColumn < 0 then None
      else if (selectedRow, selectedColumn) in cellDate then Some(cellDate[(selectedRow, selectedColumn)])
      else None
    }

    /** `UpdateDayPanel()`: the list shows the tasks due on the selected date, or nothing ("No day"). */
    method UpdateDayPanel(today: Date)
      requires dayList.store == store && !dayList.showFilterBar
      modifies dayList
      ensures Wired() && dayList.ShowsStore(today) && dayList.expanded == {}
      ensures var d := SelectedDate();
        if d.None? then dayList.filter == NoDay && dayList.filterLabel == "No day"
        else
          && dayList.filter == DueOn(d.value)
          && dayList.filterLabel == if IsBlank(shortDate(d.value)) then "Custom" else shortDate(d.value)
      ensures GridValid() ==> dayList.filter == DueOn(SelectedCellDate())
    {
      var d := SelectedDate();
      if d.None? {
        assert !IsBlank("No day") by {
          assert !IsWhiteSpace("No day"[0]);
        }
        dayList.SetFilter(Some(NoDay), "No day", today);
        dayList.Refresh(today);
        return;
      }
      dayList.SetFilter(Some(DueOn(d.value)), shortDate(d.value), today);
      dayList.Refresh(today);
    }

    /** `RepaintCellsWithSelection(selected)`: every cell re-rendered, bracketed only at `selected`. */
    method RepaintCellsWithSelection(selected: Option<Date>, today: Date)
      requires GridValid()
      modifies this
      ensures GridValid() && grid == PaintedGrid(start, selected, today, store.items)
      ensures month == old(month) && cellDate == old(cellDate) && start == old(start) && week == old(week)
      ensures selectedRow == old(selectedRow) && selectedColumn == old(selectedColumn)
    {
      grid := RepaintGrid(grid, cellDate, start, selected, today, store.All());
    }

    /**
     * `BuildMonth(selectDate)`: the grid is refilled for the anchored month, and the
     * requested date (today when none is given) is selected if it lies in that month, the
     * 1st of the month otherwise.
     */
    method BuildMonth(selectDate: Option<Date>, today: Date)
      requires dayList.store == store && !dayList.showFilterBar
      modifies this, dayList
      ensures month == old(month) && Shows(today)
      ensures SelectedCellDate() == BuildTarget(month, selectDate, today)
    {
      var first := GridStart(month);
      MondayIsMultipleOfSeven(first);
      start, week := first, first / 7;
      cellDate, grid := FillGrid(first, today, store.All());
      // `_grid.Update()` keeps the selected cell inside the table.
      selectedRow, selectedColumn := Min(Max(selectedRow, 0), ROWS - 1), Min(Max(selectedColumn, 0), COLS - 1);
      var target := selectDate.GetOr(today);
      if !InMonth(month, target) {
        target := FirstDay(month);
      }
      SelectCellOf(target, today);
    }

    /**
     * The search of `_cellDate` for a date of the anchored month, whose cell becomes the
     * selected one, followed by `UpdateDayPanel()` and `RepaintCellsWithSelection(date)`:
     * the common tail of `BuildMonth` and `SelectDate`.
     */
    method SelectCellOf(target: Date, today: Date)
      requires GridValid() && dayList.store == store && !dayList.showFilterBar && InMonth(month, target)
      modifies this, dayList
      ensures month == old(month) && Shows(today) && SelectedCellDate() == target
    {
      MonthWithinGrid(month, start, target);
      var found, r, c := FindCell(cellDate, start, target);
      // Every day of the anchored month has a cell, so the search always succeeds.
      assert found;
      selectedRow, selectedColumn := r, c;
      UpdateDayPanel(today);
      RepaintCellsWithSelection(Some(target), today);
    }

    /**
     * `SelectDate(target)`: a date outside the anchored month re-anchors the grid at the
     * date's month; either way the date's cell becomes the selected one.
     */
    method SelectDate(target: Date, today: Date)
      requires Valid()
      modifies this, dayList
      ensures Shows(today) && SelectedCellDate() == target && InMonth(month, target)
      ensures month == if InMonth(old(month), target) then old(month) else MonthOf(target)
    {
      if !InMonth(month, target) {
        month := MonthOf(target);
        BuildMonth(Some(target), today);
        return;
      }
      SelectCellOf(target, today);
    }

    /** `MoveDays(delta)`: selects the day `delta` days from the selected one. */
    method MoveDays(delta: int, today: Date)
      requires Valid()
      modifies this, dayList
      ensures Shows(today) && SelectedCellDate() == old(SelectedCellDate()) + delta
      ensures InMonth(month, SelectedCellDate())
    {
      var date := SelectedDate().GetOr(FirstDay(month));
      assert date == SelectedCellDate();
      SelectDate(date + delta, today);
    }

    /** The grid's selection-changed handler, after the widget moved its selection to (r, c). */
    method OnCellSelected(r: int, c: int, today: Date)
      requires Valid() && 0 <= r < ROWS && 0 <= c < COLS
      modifies this, dayList
      ensures Shows(today) && month == old(month)
      ensures selectedRow == r && selectedColumn == c
    {
      selectedRow, selectedColumn := r, c;
      var d := SelectedDate();
      assert d == Some(SelectedCellDate());
      UpdateDayPanel(today);
      RepaintCellsWithSelection(d, today);
    }

    /**
     * The state after an add for day `d` from a store holding `before` with cell
     * (`row`, `column`) selected: the store gains the editor's new task, due on `d`, exactly
     * when the editor saves it; a save rebuilds the month and selects `d` when the month holds
     * it (else the 1st), and a cancel keeps the selected cell.
     */
    ghost predicate AddedForDay(d: Date, before: seq<Task>, row: int, column: int, freshId: Id, clicks: seq<Form>, today: Date)
      reads this, store, dayList
    {
      var r := ShowEditDialog(NewTask(freshId, today).(due := Some(d)), clicks);
      && store.items == before + (if r.saved then [r.task] else [])
      && (r.saved ==> Shows(today) && SelectedCellDate() == BuildTarget(month, Some(d), today))
      && (!r.saved ==> selectedRow == row && selectedColumn == column)
    }

    /**
     * Key `a`: the editor runs on a new task due on the selected day; a save adds it and
     * rebuilds the month with that day requested. A selected day outside the anchored month
     * (a leading or trailing cell) is not kept: the rebuild selects the 1st of the month.
     */
    method AddForSelectedDay(freshId: Id, clicks: seq<Form>, today: Date)
      requires Valid()
      modifies this, store, dayList
      ensures Valid() && month == old(month)
      ensures AddedForDay(old(SelectedCellDate()), old(store.items), old(selectedRow), old(selectedColumn), freshId, clicks, today)
    {
      var date := SelectedDate();
      assert date == Some(SelectedCellDate());
      if date.Some? {
        var item := NewTask(freshId, today).(due := date);
        var r := ShowEditDialog(item, clicks);
        if r.saved {
          var added := store.Add(r.task);
          BuildMonth(date, today);
        }
      }
    }

    /** `_month = ym; BuildMonth(selectDate)`: the grid re-anchored at `ym`. */
    method ShowMonth(ym: YearMonth, selectDate: Option<Date>, today: Date)
      requires Valid()
      modifies this, dayList
      ensures month == ym && Shows(today) && SelectedCellDate() == BuildTarget(ym, selectDate, today)
    {
      month := ym;
      BuildMonth(selectDate, today);
    }

    /**
     * Keys `w` and `d` once the week or day screen they open has closed, leaving the shared
     * store holding `afterNested`: the panel and the grid are brought up to date, the
     * selection kept.
     */
    method RefreshAfterNested(afterNested: seq<Task>, today: Date)
      requires Valid()
      modifies this, store, dayList
      ensures store.items == afterNested && Shows(today) && month == old(month)
      ensures selectedRow == old(selectedRow) && selectedColumn == old(selectedColumn)
    {
      store.items := afterNested;
      var d := SelectedDate();
      assert d == Some(SelectedCellDate());
      UpdateDayPanel(today);
      RepaintCellsWithSelection(d, today);
    }

    /**
     * The grid's key handler. `<`/PageUp and `>`/PageDown rebuild the previous and next month,
     * `t` today's month with today selected; `w` and `d` refresh the panel and the grid after
     * the week or day screen they open closes (`afterNested` is what the store then holds);
     * the other keys act on the selected day.
     */
    method OnGridKey(key: Key, freshId: Id, clicks: seq<Form>, afterNested: seq<Task>, today: Date) returns (handled: bool)
      requires Valid()
      modifies this, store, dayList
      ensures Valid()
      ensures handled && key != Char('a') && key != Char('A') && key != Enter ==> Shows(today)
      ensures key == Char('<') || key == PageUp ==>
        month == PrevMonth(old(month)) && SelectedCellDate() == BuildTarget(month, None, today)
      ensures key == Char('>') || key == PageDown ==>
        month == NextMonth(old(month)) && SelectedCellDate() == BuildTarget(month, None, today)
      ensures key == Char('t') || key == Char('T') ==> month == MonthOf(today) && SelectedCellDate() == today
      ensures OpensNestedScreen(key) ==>
        && store.items == afterNested && month == old(month)
        && selectedRow == old(selectedRow) && selectedColumn == old(selectedColumn)
      ensures MoveDelta(key).Some? ==> SelectedCellDate() == old(SelectedCellDate()) + MoveDelta(key).value
      ensures key == Enter ==> unchanged(this, store, dayList)
      ensures key != Char('a') && key != Char('A') && !OpensNestedScreen(key) ==> store.items == old(store.items)
      ensures key == Char('a') || key == Char('A') ==>
        month == old(month) && AddedForDay(old(SelectedCellDate()), old(store.items), old(selectedRow), old(selectedColumn), freshId, clicks, today)
      ensures handled <==> GridHandles(key)
    {
      KeyMeaningsDisjoint(key, month, today);
      GridHandlesMeaningfulKeys(key, month, today);
      var jump := MonthJump(key, month, today);
      if jump.Some? {
        ShowMonth(jump.value.0, jump.value.1, today);
        return true;
      }
      if OpensNestedScreen(key) {
        RefreshAfterNested(afterNested, today);
        return true;
      }
      handled := OnDayKey(key, freshId, clicks, today);
    }

    /**
     * The rest of the grid's key handler: `a` adds a task for the selected day; left/`h`,
     * right/`l`, up/`k` and down/`j` move the selection by one day or one week; Enter only
     * moves the focus.
     */
    method OnDayKey(key: Key, freshId: Id, clicks: seq<Form>, today: Date) returns (handled: bool)
      requires Valid()
      modifies this, store, dayList
      ensures Valid()
      ensures MoveDelta(key).Some? ==> Shows(today) && SelectedCellDate() == old(SelectedCellDate()) + MoveDelta(key).value
      ensures key == Enter ==> unchanged(this, store, dayList)
      ensures key != Char('a') && key != Char('A') ==> store.items == old(store.items)
      ensures key == Char('a') || key == Char('A') ==>
        month == old(month) && AddedForDay(old(SelectedCellDate()), old(store.items), old(selectedRow), old(selectedColumn), freshId, clicks, today)
      ensures handled <==> key == Char('a') || key == Char('A') || key == Enter || MoveDelta(key).Some?
    {
      if key == Char('a') || key == Char('A') {
        assert MoveDelta(key).None?;
        AddForSelectedDay(freshId, clicks, today);
        return true;
      }
      var delta := MoveDelta(key);
      if delta.Some? {
        MoveDays(delta.value, today);
        return true;
      }
      return key == Enter;
    }

    /**
     * The common tail of the day list's actions: the list re-reads the store and the grid is
     * repainted with the selection kept, so the badges follow the store.
     */
    method RefreshAfterChange(today: Date)
      requires Valid()
      modifies this, dayList
      ensures Valid() && month == old(month)
      ensures selectedRow == old(selectedRow) && selectedColumn == old(selectedColumn)
      ensures grid == PaintedGrid(start, Some(SelectedCellDate()), today, store.items)
      ensures dayList.ShowsStore(today) && dayList.filter == old(dayList.filter)
    {
      dayList.Refresh(today);
      var d := SelectedDate();
      assert d == Some(SelectedCellDate());
      RepaintCellsWithSelection(d, today);
    }

    /** The day list's add request: the editor on a new task due on the selected day; a save adds it. */
    method AddFromList(freshId: Id, clicks: seq<Form>, today: Date)
      requires Valid()
      modifies this, store, dayList
      ensures Valid() && month == old(month)
      ensures selectedRow == old(selectedRow) && selectedColumn == old(selectedColumn)
      ensures var r := ShowEditDialog(NewTask(freshId, today).(due := Some(old(SelectedCellDate()))), clicks);
        && store.items == old(store.items) + (if r.saved then [r.task] else [])
        && (r.saved ==> grid == PaintedGrid(start, Some(SelectedCellDate()), today, store.items))
        && (r.saved ==> dayList.ShowsStore(today))
    {
      var d := SelectedDate();
      assert d == Some(SelectedCellDate());
      if d.Some? {
        var item := NewTask(freshId, today).(due := d);
        var r := ShowEditDialog(item, clicks);
        if r.saved {
          var added := store.Add(r.task);
          RefreshAfterChange(today);
        }
      }
    }

    /** The day list's edit request: a save writes the edited fields to the shared task. */
    method EditFromList(t: Task, clicks: seq<Form>, today: Date)
      requires Valid()
      modifies this, store, dayList
      ensures Valid() && month == old(month)
      ensures selectedRow == old(selectedRow) && selectedColumn == old(selectedColumn)
      ensures var r := ShowEditDialog(t, clicks);
        && store.items == (if r.saved then Written(old(store.items), r.task) else old(store.items))
        && (r.saved ==> grid == PaintedGrid(start, Some(SelectedCellDate()), today, store.items))
        && (r.saved ==> dayList.ShowsStore(today))
    {
      var r := ShowEditDialog(t, clicks);
      if r.saved {
        store.Write(r.task);
        store.Update(r.task);
        RefreshAfterChange(today);
      }
    }

    /** The day list's toggle request: the shared task's Done flag flips. */
    method ToggleFromList(t: Task, today: Date)
      requires Valid()
      modifies this, store, dayList
      ensures Valid() && month == old(month)
      ensures selectedRow == old(selectedRow) && selectedColumn == old(selectedColumn)
      ensures store.items == Written(old(store.items), t.(done := !t.done))
      ensures grid == PaintedGrid(start, Some(SelectedCellDate()), today, store.items)
      ensures dayList.ShowsStore(today)
    {
      var flipped := t.(done := !t.done);
      store.Write(flipped);
      store.Update(flipped);
      RefreshAfterChange(today);
    }

    /** The day list's delete request: on "Yes" (`answer == 0`) every task with that id is removed. */
    method DeleteFromList(t: Task, answer: int, today: Date)
      requires Valid()
      modifies this, store, dayList
      ensures Valid() && month == old(month)
      ensures selectedRow == old(selectedRow) && selectedColumn == old(selectedColumn)
      ensures store.items == (if answer == 0 then WithoutId(old(store.items), t.id) else old(store.items))
      ensures answer == 0 ==> grid == PaintedGrid(start, Some(SelectedCellDate()), today, store.items)
      ensures answer == 0 ==> dayList.ShowsStore(today)
    {
      if answer != 0 {
        return;
      }
      store.Remove(t.id);
      RefreshAfterChange(today);
    }

    /** The day list's requests, each handled as the main list handles it. */
    method OnListRequest(request: Request, freshId: Id, clicks: seq<Form>, answer: int, today: Date)
      requires Valid()
      modifies this, store, dayList
      ensures Valid() && month == old(month)
      ensures selectedRow == old(selectedRow) && selectedColumn == old(selectedColumn)
      ensures request.AddRequested? ==>
        var r := ShowEditDialog(NewTask(freshId, today).(due := Some(old(SelectedCellDate()))), clicks);
        store.items == old(store.items) + (if r.saved then [r.task] else [])
      ensures request.EditRequested? ==>
        var r := ShowEditDialog(request.task, clicks);
        store.items == (if r.saved then Written(old(store.items), r.task) else old(store.items))
      ensures request.ToggleDoneRequested? ==>
        store.items == Written(old(store.items), request.task.(done := !request.task.done))
      ensures request.DeleteRequested? ==>
        store.items == (if answer == 0 then WithoutId(old(store.items), request.task.id) else old(store.items))
      ensures store.items != old(store.items) ==>
        grid == PaintedGrid(start, Some(SelectedCellDate()), today, store.items) && dayList.ShowsStore(today)
    {
      match request
      case AddRequested => AddFromList(freshId, clicks, today);
      case EditRequested(t) => EditFromList(t, clicks, today);
      case ToggleDoneRequested(t) => ToggleFromList(t, today);
      case DeleteRequested(t) => DeleteFromList(t, answer, today);
    }
  }
}
