/**
 * `TaskListView`: the reusable list widget. It shows the store's tasks that pass its filter
 * as header rows, with detail rows under expanded tasks, keeps a selected row, moves the
 * selection between headers and turns the action keys into requests for its host.
 */
module ListView {
  import opened Wrappers
  import opened Strings
  import opened Dates
  import opened TaskItem
  import opened TaskStore
  import opened Filters
  import opened TaskRows
  import opened Keys

  /** The widget's events: `AddRequested`, `EditRequested`, `ToggleDoneRequested`, `DeleteRequested`. */
  datatype Request = AddRequested | EditRequested(task: Task) | ToggleDoneRequested(task: Task) | DeleteRequested(task: Task)

  class TaskListView {
    const store: InMemoryTaskStore
    const showFilterBar: bool
    /** `_rows`, mirrored one to one by the table's data. */
    var rows: seq<Row>
    /** `_expanded`: ids of the tasks whose details are shown. */
    var expanded: set<Id>
    var filter: Filter
    var filterLabel: string
    /** The filter bar's text. */
    var filterBarText: string
    /** The table's `SelectedRow`. */
    var selected: int

    /** The table keeps its selected row on a row (on 0 when there are none); the rows are well formed. */
    ghost predicate Valid()
      reads this
    {
      && 0 <= selected
      && (rows == [] ==> selected == 0)
      && (rows != [] ==> selected < |rows|)
      && WellFormed(rows)
    }

    /** The rows show the store as it is now, under the filter and the expanded set. */
    ghost predicate ShowsStore(today: Date)
      reads this, store
    {
      rows == Flatten(store.items, filter, expanded, today, ViewStyle)
    }

    constructor (store: InMemoryTaskStore, showFilterBar: bool, today: Date)
      ensures this.store == store && this.showFilterBar == showFilterBar
      ensures filter == All && filterLabel == "All" && filterBarText == "Filter: All"
      ensures expanded == {} && selected == 0
      ensures Valid() && ShowsStore(today)
    {
      this.store := store;
      this.showFilterBar := showFilterBar;
      filter := All;
      filterLabel := "All";
      filterBarText := "Filter: All";
      expanded := {};
      rows := [];
      selected := 0;
      new;
      Refresh(today);
    }

    /** `SelectedItem()`: the task of the selected row; none only when there are no rows. */
    function SelectedItem(): (r: Option<Task>)
      reads this
      ensures r.Some? ==> 0 <= selected < |rows| && r.value == rows[selected].item
      ensures Valid() ==> (r.None? <==> rows == [])
    {
      SelectedRowTask(rows, selected)
    }

    /**
     * `Refresh()`: rebuilds the rows from the store, keeping the filter and the expanded set;
     * the table then pulls its selection back onto the rows.
     */
    method Refresh(today: Date)
      modifies this
      ensures ShowsStore(today) && Valid()
      ensures selected == ClampRow(old(selected), |rows|)
      ensures expanded == old(expanded) && filter == old(filter)
      ensures filterLabel == old(filterLabel) && filterBarText == old(filterBarText)
    {
      var items := store.All();
      rows := BuildRows(items, filter, expanded, today, ViewStyle);
      FlattenWellFormed(items, filter, expanded, today, ViewStyle);
      selected := ClampRow(selected, |rows|);
    }

    /**
     * `SetFilter(filter, label)`: a null filter accepts everything, a blank label reads
     * "Custom"; the bar shows the label when it is visible; every task collapses.
     */
    method SetFilter(f: Option<Filter>, caption: string, today: Date)
      modifies this
      ensures filter == f.GetOr(All)
      ensures filterLabel == if IsBlank(caption) then "Custom" else caption
      ensures filterBarText == if showFilterBar then "Filter: " + filterLabel else old(filterBarText)
      ensures expanded == {}
      ensures ShowsStore(today) && Valid()
      ensures selected == ClampRow(old(selected), |rows|)
    {
      filter := f.GetOr(All);
      filterLabel := if IsBlank(caption) then "Custom" else caption;
      if showFilterBar {
        filterBarText := "Filter: " + filterLabel;
      }
      expanded := {};
      Refresh(today);
    }

    /**
     * The state after Enter on the task `id`: `id` is flipped in the expanded set, the rows show
     * the store, and when they showed it before the selection is on the task's first header.
     */
    ghost predicate ExpansionToggled(id: Id, before: set<Id>, wasFresh: bool, today: Date)
      reads this, store
    {
      && expanded == (if id in before then before - {id} else before + {id})
      && ShowsStore(today)
      && (wasFresh ==>
            && 0 <= selected < |rows| && rows[selected].isHeader && rows[selected].item.id == id
            && forall j :: 0 <= j < selected ==> !(rows[j].isHeader && rows[j].item.id == id))
    }

    /**
     * `ToggleExpandSelected()`: flips the selected task's expansion and keeps the selection
     * on that task's header; with no rows nothing happens.
     */
    method ToggleExpandSelected(today: Date)
      requires Valid()
      modifies this
      ensures Valid()
      ensures filter == old(filter) && filterLabel == old(filterLabel) && filterBarText == old(filterBarText)
      ensures old(rows) == [] ==> rows == old(rows) && selected == old(selected) && expanded == old(expanded)
      ensures old(rows) != [] ==> ExpansionToggled(old(rows)[old(selected)].item.id, old(expanded), old(ShowsStore(today)), today)
    {
      if |rows| == 0 || selected < 0 || selected >= |rows| {
        return;
      }
      ghost var wasFresh := ShowsStore(today);
      ghost var oldExpanded := expanded;
      var row := rows[selected];
      var id := row.item.id;
      if id in expanded {
        expanded := expanded - {id};
      } else {
        expanded := expanded + {id};
      }
      Refresh(today);
      var headerIdx := HeaderIndexOf(rows, id);
      if headerIdx >= 0 {
        selected := headerIdx;
      }
      if wasFresh {
        RowTaskKeepsHeader(store.items, filter, oldExpanded, expanded, today, ViewStyle, old(selected));
        assert headerIdx >= 0;
      }
    }

    /**
     * `MoveToHeader(dir)`: selects the nearest header after (dir > 0) or before the selected
     * row, staying put when there is none; with no rows nothing happens.
     */
    method MoveToHeader(dir: int, today: Date)
      requires Valid()
      modifies this
      ensures Valid()
      ensures expanded == old(expanded) && filter == old(filter)
      ensures filterLabel == old(filterLabel) && filterBarText == old(filterBarText)
      ensures old(rows) == [] ==> rows == old(rows) && selected == old(selected)
      ensures old(rows) != [] ==>
        ShowsStore(today) && selected == ClampRow(HeaderStep(old(rows), old(selected), dir), |rows|)
      ensures old(rows) != [] && old(ShowsStore(today)) ==>
        rows == old(rows) && selected == HeaderStep(rows, old(selected), dir)
    {
      if |rows| == 0 {
        return;
      }
      var i := StepToHeader(rows, selected, dir);
      selected := i;
      Refresh(today);
    }

    /** Key `g`: selects the first header, which is the first row. */
    method SelectFirstHeader(today: Date)
      requires Valid()
      modifies this
      ensures Valid() && ShowsStore(today)
      ensures expanded == old(expanded) && filter == old(filter)
      ensures filterLabel == old(filterLabel) && filterBarText == old(filterBarText)
      ensures selected == 0 && (rows != [] ==> rows[selected].isHeader)
    {
      if |rows| > 0 {
        var first := FirstHeaderIndex(rows);
        selected := ClampRow(first, |rows|);
      }
      Refresh(today);
    }

    /** Key `G`: selects the last header. */
    method SelectLastHeader(today: Date)
      requires Valid()
      modifies this
      ensures Valid() && ShowsStore(today)
      ensures expanded == old(expanded) && filter == old(filter)
      ensures filterLabel == old(filterLabel) && filterBarText == old(filterBarText)
      ensures selected == ClampRow(if old(rows) != [] then LastHeaderUpTo(old(rows), |old(rows)| - 1) else old(selected), |rows|)
      ensures old(rows) != [] && old(ShowsStore(today)) ==> OnLastHeader()
    {
      if |rows| > 0 {
        var last := LastHeaderIndex(rows);
        if last >= 0 {
          selected := last;
        }
      }
      Refresh(today);
    }

    /**
     * `OnKeyPress`: Enter expands or collapses, Down/`j` and Up/`k` move between headers,
     * `g`/`G` jump to the first/last header; `a` always, and `e`, Space/`x` and `d` when a
     * row is selected, raise a request for the host and change nothing here.
     */
    method OnKeyPress(key: Key, today: Date) returns (handled: bool, request: Option<Request>)
      requires Valid()
      modifies this
      ensures Valid()
      ensures request.Some? ==> handled
      ensures request.Some? || !handled ==> rows == old(rows) && selected == old(selected) && expanded == old(expanded)
      ensures filter == old(filter) && filterLabel == old(filterLabel) && filterBarText == old(filterBarText)
      ensures key == Char('a') ==> request == Some(AddRequested)
      ensures key == Char('e') ==> request == (if old(rows) == [] then None else Some(EditRequested(old(rows)[old(selected)].item)))
      ensures key == Char('x') || key == Char(' ') ==>
        request == (if old(rows) == [] then None else Some(ToggleDoneRequested(old(rows)[old(selected)].item)))
      ensures key == Char('d') ==> request == (if old(rows) == [] then None else Some(DeleteRequested(old(rows)[old(selected)].item)))
      ensures NavigationKey(key) ==> handled && request.None?
      ensures (key == CursorDown || key == Char('j')) && old(rows) != [] && old(ShowsStore(today)) ==>
        selected == HeaderStep(old(rows), old(selected), 1)
      ensures (key == CursorUp || key == Char('k')) && old(rows) != [] && old(ShowsStore(today)) ==>
        selected == HeaderStep(old(rows), old(selected), -1)
      ensures key == Char('g') ==> selected == 0
      ensures key == Char('G') && old(rows) != [] && old(ShowsStore(today)) ==> OnLastHeader()
      ensures key == Enter && old(rows) != [] ==>
        ExpansionToggled(old(rows)[old(selected)].item.id, old(expanded), old(ShowsStore(today)), today)
    {
      if NavigationKey(key) {
        OnNavigationKey(key, today);
        return true, None;
      }
      handled, request := false, None;
      var cur := SelectedItem();
      if key == Char('a') {
        return true, Some(AddRequested);
      }
      if key == Char('e') && cur.Some? {
        return true, Some(EditRequested(cur.value));
      }
      if (key == Char(' ') || key == Char('x')) && cur.Some? {
        return true, Some(ToggleDoneRequested(cur.value));
      }
      if key == Char('d') && cur.Some? {
        return true, Some(DeleteRequested(cur.value));
      }
    }

    /** The selection is on a header and no header follows it: the last header. */
    ghost predicate OnLastHeader()
      reads this
    {
      0 <= selected < |rows| && rows[selected].isHeader && NoHeaderIn(rows, selected + 1, |rows|)
    }

    /** The navigation keys of `OnKeyPress`, each handled by its own operation. */
    method OnNavigationKey(key: Key, today: Date)
      requires Valid() && NavigationKey(key)
      modifies this
      ensures Valid()
      ensures filter == old(filter) && filterLabel == old(filterLabel) && filterBarText == old(filterBarText)
      ensures (key == CursorDown || key == Char('j')) && old(rows) != [] && old(ShowsStore(today)) ==>
        selected == HeaderStep(old(rows), old(selected), 1)
      ensures (key == CursorUp || key == Char('k')) && old(rows) != [] && old(ShowsStore(today)) ==>
        selected == HeaderStep(old(rows), old(selected), -1)
      ensures key == Char('g') ==> selected == 0
      ensures key == Char('G') && old(rows) != [] && old(ShowsStore(today)) ==> OnLastHeader()
      ensures key == Enter && old(rows) != [] ==>
        ExpansionToggled(old(rows)[old(selected)].item.id, old(expanded), old(ShowsStore(today)), today)
    {
      if key == Enter {
        ToggleExpandSelected(today);
      } else if key == CursorDown || key == Char('j') {
        MoveToHeader(1, today);
      } else if key == CursorUp || key == Char('k') {
        MoveToHeader(-1, today);
      } else if key == Char('g') {
        SelectFirstHeader(today);
      } else {
        SelectLastHeader(today);
      }
    }
  }
}
