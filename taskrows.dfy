/**
 * The row flattener and header cursor shared by `TaskListView` and `TaskListScreen`:
 * (store order, filter, expanded ids) becomes a flat list of header rows, each followed
 * by its detail rows when its task is expanded; the cursor moves between header rows.
 */
module TaskRows {
  import opened Wrappers
  import opened Strings
  import opened Dates
  import opened TaskItem
  import opened Filters

  /** `DisplayRow(Item, IsHeader, Text)`. */
  datatype Row = Row(item: Task, isHeader: bool, text: string)

  /** The list view writes "[ ] 09:00 Title"; the list screen puts one more space before the title. */
  datatype HeaderStyle = ViewStyle | ScreenStyle

  /** `timePrefix` of a header row. */
  function TimePrefix(t: Task): string {
    if t.startTime.Some? || t.endTime.Some? then
      if t.startTime.Some? && t.endTime.Some? then
        FormatTime(t.startTime.value) + "\U{2013}" + FormatTime(t.endTime.value) + " "
      else if t.startTime.Some? then FormatTime(t.startTime.value) + " "
      else FormatTime(t.endTime.value) + " "
    else ""
  }

  /** `when`, the value of the Time detail row. */
  function TimeText(t: Task): Option<string> {
    if t.startTime.Some? || t.endTime.Some? then
      match (t.startTime, t.endTime)
      case (Some(s), Some(e)) => Some(FormatTime(s) + "\U{2013}" + FormatTime(e))
      case (Some(s), None) => Some(FormatTime(s))
      case (None, Some(e)) => Some(FormatTime(e))
      case (None, None) => Some("")
    else None
  }

  /**
   * The header prefix and the Time detail follow one rule: "start–end" when both times are
   * set, the one that is set otherwise, nothing when neither is.
   */
  lemma TimePrefixAgreesWithTimeText(t: Task)
    ensures TimeText(t).None? <==> t.startTime == None && t.endTime == None
    ensures TimePrefix(t) == if TimeText(t).Some? then TimeText(t).value + " " else ""
    ensures TimeText(t).Some? ==> |TimeText(t).value| >= 5 && !IsBlank(TimeText(t).value)
  {
    if TimeText(t).Some? {
      assert TimeText(t).value[0] == FormatTime(if t.startTime.Some? then t.startTime.value else t.endTime.value)[0];
    }
  }

  function DoneMark(t: Task): string {
    if t.done then "[x]" else "[ ]"
  }

  /** `head`, the text of a header row. */
  function HeaderText(t: Task, style: HeaderStyle): string {
    match style
    case ViewStyle => DoneMark(t) + " " + TimePrefix(t) + t.title
    case ScreenStyle => DoneMark(t) + " " + TimePrefix(t) + " " + t.title
  }

  /** A header starts with "[x]" exactly when its task is done, and with "[ ]" otherwise. */
  lemma HeaderShowsDone(t: Task, style: HeaderStyle)
    ensures |HeaderText(t, style)| >= 4
    ensures HeaderText(t, style)[..3] == "[x]" <==> t.done
    ensures HeaderText(t, style)[..3] == "[ ]" <==> !t.done
  {
    var h := HeaderText(t, style);
    assert h[..3] == DoneMark(t);
  }

  /** The screen's header is the view's header with one space inserted before the title. */
  lemma ScreenHeaderHasExtraSpace(t: Task)
    ensures HeaderText(t, ScreenStyle) ==
            HeaderText(t, ViewStyle)[..|HeaderText(t, ViewStyle)| - |t.title|] + " " + t.title
  {
    var v := HeaderText(t, ViewStyle);
    assert v == (DoneMark(t) + " " + TimePrefix(t)) + t.title;
    assert v[..|v| - |t.title|] == DoneMark(t) + " " + TimePrefix(t);
  }

  /** `$"  - {label}: {val}"`. */
  function DetailLine(name: string, value: string): string {
    "  - " + name + ": " + value
  }

  /** The local `AddDetail`: one detail row, or none for a null or blank value. */
  function AddDetail(t: Task, name: string, value: Option<string>): seq<Row> {
    if value.None? || IsBlank(value.value) then [] else [Row(t, false, DetailLine(name, value.value))]
  }

  function TagsValue(t: Task): Option<string> {
    if |t.tags| > 0 then Some(Join(", ", t.tags)) else None
  }

  function NotesValue(t: Task): Option<string> {
    if t.notes.None? || IsBlank(t.notes.value) then None else t.notes
  }

  function DateValue(t: Task): Option<string> {
    if t.due.Some? then Some(FormatIsoDate(t.due.value)) else None
  }

  /** The detail rows of an expanded task: Tags, Priority, Notes, Date, Time, blank ones skipped. */
  function Details(t: Task): seq<Row> {
    AddDetail(t, "Tags", TagsValue(t))
    + AddDetail(t, "Priority", Some(PriorityName(t.priority)))
    + AddDetail(t, "Notes", NotesValue(t))
    + AddDetail(t, "Date", DateValue(t))
    + AddDetail(t, "Time", TimeText(t))
  }

  /**
   * Every detail row belongs to its task, and the Priority row is always there, so an
   * expanded task shows one to five details.
   */
  lemma DetailsShape(t: Task)
    ensures 1 <= |Details(t)| <= 5
    ensures forall k :: 0 <= k < |Details(t)| ==> !Details(t)[k].isHeader && Details(t)[k].item == t
    ensures Row(t, false, DetailLine("Priority", PriorityName(t.priority))) in Details(t)
  {
    var a := AddDetail(t, "Tags", TagsValue(t));
    var p := AddDetail(t, "Priority", Some(PriorityName(t.priority)));
    var n := AddDetail(t, "Notes", NotesValue(t));
    var d := AddDetail(t, "Date", DateValue(t));
    var w := AddDetail(t, "Time", TimeText(t));
    assert p == [Row(t, false, DetailLine("Priority", PriorityName(t.priority)))] by {
      assert !IsWhiteSpace(PriorityName(t.priority)[0]);
    }
    assert Details(t) == a + p + n + d + w;
    AddDetailOfTask(t, "Tags", TagsValue(t));
    AddDetailOfTask(t, "Notes", NotesValue(t));
    AddDetailOfTask(t, "Date", DateValue(t));
    AddDetailOfTask(t, "Time", TimeText(t));
    OfTaskConcat(a, p, t);
    OfTaskConcat(a + p, n, t);
    OfTaskConcat(a + p + n, d, t);
    OfTaskConcat(a + p + n + d, w, t);
    assert Details(t)[|a|] == p[0];
  }

  /** All rows are detail rows of `t`. */
  predicate OfTask(rows: seq<Row>, t: Task) {
    forall k :: 0 <= k < |rows| ==> !rows[k].isHeader && rows[k].item == t
  }

  lemma AddDetailOfTask(t: Task, name: string, value: Option<string>)
    ensures OfTask(AddDetail(t, name, value), t) && |AddDetail(t, name, value)| <= 1
  {
  }

  lemma OfTaskConcat(a: seq<Row>, b: seq<Row>, t: Task)
    requires OfTask(a, t) && OfTask(b, t)
    ensures OfTask(a + b, t)
  {
  }

  /** The detail text `DetailLine(name, _)` is labelled `name`. */
  predicate HasLabel(text: string, name: string) {
    |text| >= |name| + 6 && text[..|name| + 6] == "  - " + name + ": "
  }

  lemma DetailLineHasLabel(name: string, value: string)
    ensures HasLabel(DetailLine(name, value), name)
  {
    assert DetailLine(name, value)[..|name| + 6] == "  - " + name + ": ";
  }

  /** A detail line carries its own label and no other colon-free label. */
  lemma DetailLineLabel(name: string, other: string, value: string)
    requires name != other && ':' !in name && ':' !in other
    ensures HasLabel(DetailLine(name, value), name)
    ensures !HasLabel(DetailLine(name, value), other)
  {
    var text := DetailLine(name, value);
    var prefix := "  - " + other + ": ";
    assert text == "  - " + name + ": " + value;
    if |text| >= |prefix| {
      var k;
      if |other| < |name| {
        k := 4 + |other|;
        assert text[k] == name[|other|] != ':' == prefix[k];
      } else if |other| > |name| {
        k := 4 + |name|;
        assert text[k] == ':' != other[|name|] == prefix[k];
      } else {
        assert !(forall j :: 0 <= j < |name| ==> name[j] == other[j]);
        var j :| 0 <= j < |name| && name[j] != other[j];
        k := 4 + j;
        assert text[k] == name[j] && prefix[k] == other[j];
      }
      assert text[..|prefix|][k] != prefix[k];
    }
  }

  /** A detail row under another label than Time is not labelled Time. */
  lemma NoTimeLabel(t: Task, name: string, value: Option<string>)
    requires name != "Time" && ':' !in name
    ensures forall k :: 0 <= k < |AddDetail(t, name, value)| ==> !HasLabel(AddDetail(t, name, value)[k].text, "Time")
  {
    if value.Some? && !IsBlank(value.value) {
      assert ':' !in "Time";
      DetailLineLabel(name, "Time", value.value);
    }
  }

  /** The detail labels hold no colon, so no label is a prefix of another's line. */
  lemma DetailLabelsColonFree()
    ensures ':' !in "Tags" && ':' !in "Priority" && ':' !in "Notes" && ':' !in "Date" && ':' !in "Time"
  {
  }

  /** None of the details before the Time row is labelled Time. */
  lemma NoTimeLabelBeforeTime(t: Task)
    ensures var front := AddDetail(t, "Tags", TagsValue(t)) + AddDetail(t, "Priority", Some(PriorityName(t.priority)))
        + AddDetail(t, "Notes", NotesValue(t)) + AddDetail(t, "Date", DateValue(t));
      forall k :: 0 <= k < |front| ==> !HasLabel(front[k].text, "Time")
  {
    var a := AddDetail(t, "Tags", TagsValue(t));
    var p := AddDetail(t, "Priority", Some(PriorityName(t.priority)));
    var n := AddDetail(t, "Notes", NotesValue(t));
    var d := AddDetail(t, "Date", DateValue(t));
    var front := a + p + n + d;
    DetailLabelsColonFree();
    NoTimeLabel(t, "Tags", TagsValue(t));
    NoTimeLabel(t, "Priority", Some(PriorityName(t.priority)));
    NoTimeLabel(t, "Notes", NotesValue(t));
    NoTimeLabel(t, "Date", DateValue(t));
    forall k | 0 <= k < |front| ensures !HasLabel(front[k].text, "Time") {
      if k < |a| {
        assert front[k] == a[k];
      } else if k < |a| + |p| {
        assert front[k] == p[k - |a|];
      } else if k < |a| + |p| + |n| {
        assert front[k] == n[k - |a| - |p|];
      } else {
        assert front[k] == d[k - |a| - |p| - |n|];
      }
    }
  }

  /** An expanded task has a Time row exactly when a start or an end time is set, and it is the last detail. */
  lemma TimeRowIffTimeSet(t: Task)
    ensures (exists k :: 0 <= k < |Details(t)| && HasLabel(Details(t)[k].text, "Time"))
              <==> (t.startTime.Some? || t.endTime.Some?)
    ensures t.startTime.Some? || t.endTime.Some? ==>
              Details(t)[|Details(t)| - 1].text == DetailLine("Time", TimeText(t).value)
  {
    TimePrefixAgreesWithTimeText(t);
    var a := AddDetail(t, "Tags", TagsValue(t));
    var p := AddDetail(t, "Priority", Some(PriorityName(t.priority)));
    var n := AddDetail(t, "Notes", NotesValue(t));
    var d := AddDetail(t, "Date", DateValue(t));
    var w := AddDetail(t, "Time", TimeText(t));
    var front := a + p + n + d;
    assert Details(t) == front + w;
    NoTimeLabelBeforeTime(t);
    if t.startTime.Some? || t.endTime.Some? {
      assert w == [Row(t, false, DetailLine("Time", TimeText(t).value))];
      DetailLineHasLabel("Time", TimeText(t).value);
      assert Details(t)[|Details(t)| - 1] == w[0];
    } else {
      assert Details(t) == front;
    }
  }

  /** The rows one task contributes when it passes the filter. */
  function TaskBlock(t: Task, expanded: set<Id>, style: HeaderStyle): seq<Row> {
    [Row(t, true, HeaderText(t, style))] + (if t.id in expanded then Details(t) else [])
  }

  /** The rows `Refresh` builds from the store's items, in store order. */
  function Flatten(items: seq<Task>, filter: Filter, expanded: set<Id>, today: Date, style: HeaderStyle): seq<Row> {
    if items == [] then []
    else
      var t := items[|items| - 1];
      Flatten(items[..|items| - 1], filter, expanded, today, style)
        + (if Accepts(filter, t, today) then TaskBlock(t, expanded, style) else [])
  }

  /** One more store item adds its block, when it passes the filter, after the rows so far. */
  lemma FlattenStep(items: seq<Task>, i: int, filter: Filter, expanded: set<Id>, today: Date, style: HeaderStyle)
    requires 0 <= i < |items|
    ensures Flatten(items[..i + 1], filter, expanded, today, style)
      == Flatten(items[..i], filter, expanded, today, style)
         + (if Accepts(filter, items[i], today) then TaskBlock(items[i], expanded, style) else [])
  {
    assert items[..i + 1][..i] == items[..i];
  }

  /**
   * The `foreach` of `Refresh()`: for each store item the filter accepts, its header row,
   * then its detail rows when it is expanded.
   */
  method BuildRows(items: seq<Task>, filter: Filter, expanded: set<Id>, today: Date, style: HeaderStyle) returns (rows: seq<Row>)
    ensures rows == Flatten(items, filter, expanded, today, style)
  {
    rows := [];
    var i := 0;
    while i < |items|
      invariant 0 <= i <= |items|
      invariant rows == Flatten(items[..i], filter, expanded, today, style)
    {
      var t := items[i];
      FlattenStep(items, i, filter, expanded, today, style);
      if Accepts(filter, t, today) {
        var header := Row(t, true, HeaderText(t, style));
        ghost var before := rows;
        ghost var details := if t.id in expanded then Details(t) else [];
        rows := rows + [header];
        if t.id in expanded {
          rows := rows + Details(t);
        }
        AppendAssoc(before, header, details);
      }
      i := i + 1;
    }
    assert items[..i] == items;
  }

  lemma AppendAssoc(a: seq<Row>, h: Row, d: seq<Row>)
    ensures a + [h] + d == a + ([h] + d)
  {
  }

  /** `store.All().Where(filter)`: the passing tasks in store order. */
  function Passing(items: seq<Task>, filter: Filter, today: Date): seq<Task> {
    if items == [] then []
    else
      var t := items[|items| - 1];
      Passing(items[..|items| - 1], filter, today) + (if Accepts(filter, t, today) then [t] else [])
  }

  /** The tasks of the header rows, in row order. */
  function Headers(rows: seq<Row>): seq<Task> {
    if rows == [] then []
    else
      var r := rows[|rows| - 1];
      Headers(rows[..|rows| - 1]) + (if r.isHeader then [r.item] else [])
  }

  lemma {:induction false} HeadersConcat(a: seq<Row>, b: seq<Row>)
    ensures Headers(a + b) == Headers(a) + Headers(b)
    decreases |b|
  {
    if b == [] {
      assert a + b == a;
    } else {
      HeadersConcat(a, b[..|b| - 1]);
      assert (a + b)[..|a + b| - 1] == a + b[..|b| - 1];
    }
  }

  lemma {:induction false} HeadersOfDetails(rows: seq<Row>)
    requires forall k :: 0 <= k < |rows| ==> !rows[k].isHeader
    ensures Headers(rows) == []
  {
    if rows != [] {
      HeadersOfDetails(rows[..|rows| - 1]);
    }
  }

  lemma HeadersOfBlock(t: Task, expanded: set<Id>, style: HeaderStyle)
    ensures Headers(TaskBlock(t, expanded, style)) == [t]
  {
    var details := if t.id in expanded then Details(t) else [];
    DetailsShape(t);
    HeadersOfDetails(details);
    HeadersConcat([Row(t, true, HeaderText(t, style))], details);
    assert Headers([Row(t, true, HeaderText(t, style))]) == [t] by {
      assert [Row(t, true, HeaderText(t, style))][..0] == [];
    }
  }

  /**
   * Header rows correspond one-to-one, in order, with the store's tasks that pass the
   * filter, whatever the expanded set is.
   */
  lemma {:induction false} HeadersAreThePassingTasks(items: seq<Task>, filter: Filter, expanded: set<Id>, today: Date, style: HeaderStyle)
    ensures Headers(Flatten(items, filter, expanded, today, style)) == Passing(items, filter, today)
  {
    if items != [] {
      var t := items[|items| - 1];
      var init := items[..|items| - 1];
      HeadersAreThePassingTasks(init, filter, expanded, today, style);
      var block := if Accepts(filter, t, today) then TaskBlock(t, expanded, style) else [];
      HeadersConcat(Flatten(init, filter, expanded, today, style), block);
      if Accepts(filter, t, today) {
        HeadersOfBlock(t, expanded, style);
      } else {
        assert Headers(block) == [];
      }
    }
  }

  /** The passing tasks are the store's items that the filter accepts. */
  lemma {:induction false} PassingMembers(items: seq<Task>, filter: Filter, today: Date)
    ensures forall t :: t in Passing(items, filter, today) <==> t in items && Accepts(filter, t, today)
  {
    if items != [] {
      PassingMembers(items[..|items| - 1], filter, today);
      assert items == items[..|items| - 1] + [items[|items| - 1]];
    }
  }

  /**
   * The rows start with a header, and every detail row directly follows a row of the same
   * task (its header or an earlier detail).
   */
  ghost predicate WellFormed(rows: seq<Row>) {
    && (rows != [] ==> rows[0].isHeader)
    && forall k :: 0 < k < |rows| ==> Continues(rows, k)
  }

  /** Row `k` is a header, or a detail row of the task of row `k - 1`. */
  ghost predicate Continues(rows: seq<Row>, k: int)
    requires 0 < k < |rows|
  {
    rows[k].isHeader || rows[k - 1].item == rows[k].item
  }

  /** One task's rows: its header, then only its own detail rows, present only when expanded. */
  lemma BlockShape(t: Task, expanded: set<Id>, style: HeaderStyle)
    ensures var block := TaskBlock(t, expanded, style);
      && block[0].isHeader && WellFormed(block)
      && (forall k :: 0 <= k < |block| ==> block[k].item == t)
      && (forall k :: 0 <= k < |block| && !block[k].isHeader ==> t.id in expanded)
  {
    var details := if t.id in expanded then Details(t) else [];
    DetailsShape(t);
    assert OfTask(details, t);
    var block := TaskBlock(t, expanded, style);
    assert block == [Row(t, true, HeaderText(t, style))] + details;
    assert forall k :: 0 < k < |block| ==> block[k] == details[k - 1];
  }

  lemma WellFormedAppend(a: seq<Row>, b: seq<Row>)
    requires WellFormed(a) && WellFormed(b)
    ensures WellFormed(a + b)
  {
    var rows := a + b;
    forall k | 0 < k < |rows|
      ensures Continues(rows, k)
    {
      if k > |a| {
        assert Continues(b, k - |a|);
        assert rows[k] == b[k - |a|] && rows[k - 1] == b[k - 1 - |a|];
      } else if k < |a| {
        assert Continues(a, k);
        assert rows[k] == a[k] && rows[k - 1] == a[k - 1];
      } else {
        assert rows[k] == b[0];
      }
    }
  }

  /** Flattening yields well-formed rows: a header first, each detail row after a row of its task. */
  lemma {:induction false} FlattenWellFormed(items: seq<Task>, filter: Filter, expanded: set<Id>, today: Date, style: HeaderStyle)
    ensures WellFormed(Flatten(items, filter, expanded, today, style))
  {
    if items != [] {
      var t := items[|items| - 1];
      var init := items[..|items| - 1];
      FlattenWellFormed(init, filter, expanded, today, style);
      var block := if Accepts(filter, t, today) then TaskBlock(t, expanded, style) else [];
      BlockShape(t, expanded, style);
      WellFormedAppend(Flatten(init, filter, expanded, today, style), block);
    }
  }

  /** Every row belongs to a store task that passes the filter; detail rows only to expanded tasks. */
  ghost predicate RowsBelong(rows: seq<Row>, items: seq<Task>, filter: Filter, expanded: set<Id>, today: Date) {
    forall k :: 0 <= k < |rows| ==>
      && rows[k].item in items
      && Accepts(filter, rows[k].item, today)
      && (!rows[k].isHeader ==> rows[k].item.id in expanded)
  }

  lemma {:induction false} FlattenMembers(items: seq<Task>, filter: Filter, expanded: set<Id>, today: Date, style: HeaderStyle)
    ensures RowsBelong(Flatten(items, filter, expanded, today, style), items, filter, expanded, today)
  {
    if items != [] {
      var t := items[|items| - 1];
      var init := items[..|items| - 1];
      var prev := Flatten(init, filter, expanded, today, style);
      FlattenMembers(init, filter, expanded, today, style);
      assert items == init + [t];
      RowsBelongGrow(prev, init, items, filter, expanded, today);
      if Accepts(filter, t, today) {
        BlockBelongs(t, items, filter, expanded, today, style);
        RowsBelongAppend(prev, TaskBlock(t, expanded, style), items, filter, expanded, today);
      }
    }
  }

  lemma RowsBelongGrow(rows: seq<Row>, items: seq<Task>, items': seq<Task>, filter: Filter, expanded: set<Id>, today: Date)
    requires RowsBelong(rows, items, filter, expanded, today)
    requires forall t :: t in items ==> t in items'
    ensures RowsBelong(rows, items', filter, expanded, today)
  {
  }

  lemma RowsBelongAppend(a: seq<Row>, b: seq<Row>, items: seq<Task>, filter: Filter, expanded: set<Id>, today: Date)
    requires RowsBelong(a, items, filter, expanded, today) && RowsBelong(b, items, filter, expanded, today)
    ensures RowsBelong(a + b, items, filter, expanded, today)
  {
    forall k | 0 <= k < |a + b|
      ensures var r := (a + b)[k];
        r.item in items && Accepts(filter, r.item, today) && (!r.isHeader ==> r.item.id in expanded)
    {
      if k < |a| {
        assert (a + b)[k] == a[k];
      } else {
        assert (a + b)[k] == b[k - |a|];
      }
    }
  }

  lemma BlockBelongs(t: Task, items: seq<Task>, filter: Filter, expanded: set<Id>, today: Date, style: HeaderStyle)
    requires t in items && Accepts(filter, t, today)
    ensures RowsBelong(TaskBlock(t, expanded, style), items, filter, expanded, today)
  {
    BlockShape(t, expanded, style);
  }

  /** An expanded task that passes the filter shows its detail rows, its Priority row among them. */
  lemma {:induction false} ExpandedTaskShowsDetails(items: seq<Task>, filter: Filter, expanded: set<Id>, today: Date, style: HeaderStyle, t: Task)
    requires t in items && Accepts(filter, t, today) && t.id in expanded
    ensures Row(t, false, DetailLine("Priority", PriorityName(t.priority))) in Flatten(items, filter, expanded, today, style)
  {
    var last := items[|items| - 1];
    var init := items[..|items| - 1];
    if t == last {
      DetailsShape(t);
    } else {
      assert items == init + [last];
      ExpandedTaskShowsDetails(init, filter, expanded, today, style, t);
    }
  }

  /** No header in rows[lo..hi]. */
  ghost predicate NoHeaderIn(rows: seq<Row>, lo: int, hi: int) {
    forall j :: lo <= j < hi && 0 <= j < |rows| ==> !rows[j].isHeader
  }

  /** The first header at or after `i`, or |rows| (the forward `while` of `MoveToHeader`). */
  function FirstHeaderFrom(rows: seq<Row>, i: nat): (r: int)
    requires i <= |rows|
    ensures i <= r <= |rows| && NoHeaderIn(rows, i, r)
    ensures r < |rows| ==> rows[r].isHeader
    decreases |rows| - i
  {
    if i == |rows| || rows[i].isHeader then i else FirstHeaderFrom(rows, i + 1)
  }

  /** The last header at or before `i`, or -1 (the backward `while` of `MoveToHeader`). */
  function LastHeaderUpTo(rows: seq<Row>, i: int): (r: int)
    requires -1 <= i < |rows|
    ensures -1 <= r <= i && NoHeaderIn(rows, r + 1, i + 1)
    ensures r >= 0 ==> rows[r].isHeader
    decreases i
  {
    if i == -1 || rows[i].isHeader then i else LastHeaderUpTo(rows, i - 1)
  }

  function Min(a: int, b: int): int { if a <= b then a else b }
  function Max(a: int, b: int): int { if a >= b then a else b }

  /**
   * The row `MoveToHeader(dir)` selects: the nearest header strictly after (dir > 0) or
   * strictly before (dir <= 0) the current row; the current row when there is none.
   * It never leaves the rows and never wraps.
   */
  function HeaderStep(rows: seq<Row>, sel: int, dir: int): (r: int)
    requires 0 <= sel < |rows|
    ensures 0 <= r < |rows|
    ensures r == sel || rows[r].isHeader
    ensures dir > 0 ==>
      if exists j :: sel < j < |rows| && rows[j].isHeader
      then sel < r && rows[r].isHeader && NoHeaderIn(rows, sel + 1, r)
      else r == sel
    ensures dir <= 0 ==>
      if exists j :: 0 <= j < sel && rows[j].isHeader
      then r < sel && rows[r].isHeader && NoHeaderIn(rows, r + 1, sel)
      else r == sel
  {
    if dir > 0 then
      var i := FirstHeaderFrom(rows, Min(|rows| - 1, sel + 1));
      if i < |rows| then i else sel
    else
      var i := LastHeaderUpTo(rows, Max(0, sel - 1));
      if i >= 0 then i else sel
  }

  /** `MoveToHeader`'s index computation: the two `while` loops stepping a row at a time. */
  method StepToHeader(rows: seq<Row>, sel: int, dir: int) returns (r: int)
    requires 0 <= sel < |rows|
    ensures r == HeaderStep(rows, sel, dir)
  {
    var i := sel;
    if dir > 0 {
      i := Min(|rows| - 1, i + 1);
      ghost var start := i;
      while i < |rows| && !rows[i].isHeader
        invariant start <= i <= |rows|
        invariant FirstHeaderFrom(rows, start) == FirstHeaderFrom(rows, i)
      {
        i := i + 1;
      }
      r := if i < |rows| then i else sel;
    } else {
      i := Max(0, i - 1);
      ghost var start := i;
      while i >= 0 && !rows[i].isHeader
        invariant -1 <= i <= start
        invariant LastHeaderUpTo(rows, start) == LastHeaderUpTo(rows, i)
      {
        i := i - 1;
      }
      r := if i >= 0 then i else sel;
    }
  }

  /** `rows.FindIndex(r => r.IsHeader)`. */
  method FirstHeaderIndex(rows: seq<Row>) returns (r: int)
    ensures r == -1 || (0 <= r < |rows| && rows[r].isHeader)
    ensures NoHeaderIn(rows, 0, if r == -1 then |rows| else r)
  {
    r := 0;
    while r < |rows| && !rows[r].isHeader
      invariant 0 <= r <= |rows| && NoHeaderIn(rows, 0, r)
    {
      r := r + 1;
    }
    if r == |rows| {
      r := -1;
    }
  }

  /** `rows.FindLastIndex(r => r.IsHeader)`. */
  method LastHeaderIndex(rows: seq<Row>) returns (r: int)
    ensures r == LastHeaderUpTo(rows, |rows| - 1)
  {
    r := |rows| - 1;
    while r >= 0 && !rows[r].isHeader
      invariant -1 <= r < |rows|
      invariant LastHeaderUpTo(rows, |rows| - 1) == LastHeaderUpTo(rows, r)
    {
      r := r - 1;
    }
  }

  /** `rows.FindIndex(r => r.Item.Id == id && r.IsHeader)`. */
  method HeaderIndexOf(rows: seq<Row>, id: Id) returns (r: int)
    ensures r == -1 <==> forall j :: 0 <= j < |rows| ==> !(rows[j].isHeader && rows[j].item.id == id)
    ensures r != -1 ==> 0 <= r < |rows| && rows[r].isHeader && rows[r].item.id == id
    ensures r != -1 ==> forall j :: 0 <= j < r ==> !(rows[j].isHeader && rows[j].item.id == id)
  {
    r := 0;
    while r < |rows| && !(rows[r].isHeader && rows[r].item.id == id)
      invariant 0 <= r <= |rows|
      invariant forall j :: 0 <= j < r ==> !(rows[j].isHeader && rows[j].item.id == id)
    {
      r := r + 1;
    }
    if r == |rows| {
      r := -1;
    }
  }

  /**
   * Flipping expansion leaves the headers where they are: every task that has a row under
   * one expanded set still has a header under any other.
   */
  lemma RowTaskKeepsHeader(items: seq<Task>, filter: Filter, expanded: set<Id>, expanded': set<Id>, today: Date, style: HeaderStyle, k: int)
    requires 0 <= k < |Flatten(items, filter, expanded, today, style)|
    ensures var t := Flatten(items, filter, expanded, today, style)[k].item;
            exists j :: 0 <= j < |Flatten(items, filter, expanded', today, style)|
              && Flatten(items, filter, expanded', today, style)[j].isHeader
              && Flatten(items, filter, expanded', today, style)[j].item == t
  {
    var t := Flatten(items, filter, expanded, today, style)[k].item;
    FlattenMembers(items, filter, expanded, today, style);
    PassingMembers(items, filter, today);
    HeadersAreThePassingTasks(items, filter, expanded', today, style);
    HeaderInRows(Flatten(items, filter, expanded', today, style), t);
  }

  lemma {:induction false} HeaderInRows(rows: seq<Row>, t: Task)
    requires t in Headers(rows)
    ensures exists j :: 0 <= j < |rows| && rows[j].isHeader && rows[j].item == t
  {
    var init := rows[..|rows| - 1];
    if t in Headers(init) {
      HeaderInRows(init, t);
      var j :| 0 <= j < |init| && init[j].isHeader && init[j].item == t;
      assert rows[j] == init[j];
    }
  }

  /**
   * `SelectedItem()` of both list widgets: the task of the selected row, none when the
   * selection is off the rows.
   */
  function SelectedRowTask(rows: seq<Row>, selected: int): (r: Option<Task>)
    ensures r.Some? <==> 0 <= selected < |rows|
    ensures r.Some? ==> r.value == rows[selected].item
  {
    if |rows| == 0 || selected < 0 || selected >= |rows| then None else Some(rows[selected].item)
  }

  /** What the table widget keeps its selected row at: within the rows, 0 when there are none. */
  function ClampRow(v: int, count: int): (r: int)
    ensures 0 <= r && (count > 0 ==> r < count) && (count <= 0 ==> r == 0)
    ensures 0 <= v < count ==> r == v
  {
    if count <= 0 then 0 else Min(count - 1, Max(0, v))
  }
}
