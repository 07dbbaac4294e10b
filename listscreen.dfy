/**
 * `TaskListScreen`: the full-window list. It flattens and navigates like `TaskListView` but
 * writes one more space before each title, always shows its filter bar, starts with the
 * label "Today" over an accept-all filter, has separate expand and collapse operations and
 * handles only navigation keys.
 */
module ListScreen {
  import opened Wrappers
  import opened Strings
  import opened Dates
  import opened TaskItem
  import opened TaskStore
  import opened Filters
  import opened TaskRows
  import opened Keys

  class TaskListScreen {
    const store: InMemoryTaskStore
    var rows: seq<Row>
    var expanded: set<Id>
    var filter: Filter
    var filterLabel: string
    var filterBarText: string
    var selected: int

    ghost predicate Valid()
      reads this
    {
      && 0 <= selected
      && (rows == [] ==> selected == 0)
      && (rows != [] ==> selected < |rows|)
      && WellFormed(rows)
    }

    ghost predicate ShowsStore(today: Date)
      reads this, store
    {
      rows == Flatten(store.items, filter, expanded, today, ScreenStyle)
    }

    /**
     * A new screen's bar reads "Filter: Today" while its filter accepts every task: each
     * store task gets a header.
     */
    constructor (store: InMemoryTaskStore, today: Date)
      ensures this.store == store
      ensures filter == All && filterLabel == "Today" && filterBarText == "Filter: Today"
      ensures expanded == {} && selected == 0
      ensures Valid() && ShowsStore(today)
      ensures Headers(rows) == store.items
    {
      this.store := store;
      filter := All;
      filterLabel := "Today";
      filterBarText := "Filter: Today";
      expanded := {};
      rows := [];
      selected := 0;
      new;
      Refresh(today);
      HeadersAreThePassingTasks(store.items, All, {}, today, ScreenStyle);
      PassingAll(store.items, today);
    }

    function SelectedItem(): (r: Option<Task>)
      reads this
      ensures r.Some? ==> 0 <= selected < |rows| && r.value == rows[selected].item
      ensures Valid() ==> (r.None? <==> rows == [])
    {
      SelectedRowTask(rows, selected)
    }

    method Refresh(today: Date)
      modifies this
      ensures ShowsStore(today) && Valid()
      ensures selected == ClampRow(old(selected), |rows|)
      ensures expanded == old(expanded) && filter == old(filter)
      ensures filterLabel == old(filterLabel) && filterBarText == old(filterBarText)
    {
      var items := store.All();
      rows := BuildRows(items, filter, expanded, today, ScreenStyle);
      FlattenWellFormed(items, filter, expanded, today, ScreenStyle);
      selected := ClampRow(selected, |rows|);
    }

    /** `SetFilter(filter, label)`: as in the list view, and the bar always shows the label. */
    method SetFilter(f: Option<Filter>, caption: string, today: Date)
      modifies this
      ensures filter == f.GetOr(All)
      ensures filterLabel == (if IsBlank(caption) then "Custom" else caption)
      ensures filterBarText == "Filter: " + filterLabel
      ensures expanded == {}
      ensures ShowsStore(today) && Valid()
      ensures selected == ClampRow(old(selected), |rows|)
    {
      filter := f.GetOr(All);
      filterLabel := if IsBlank(caption) then "Custom" else caption;
      filterBarText := "Filter: " + filterLabel;
      expanded := {};
      Refresh(today);
    }

    /** Refreshes, then puts the selection on the first header of task `id` when there is one. */
    method RefreshAndSelectHeader(id: Id, today: Date)
      modifies this
      ensures ShowsStore(today) && Valid()
      ensures expanded == old(expanded) && filter == old(filter)
      ensures filterLabel == old(filterLabel) && filterBarText == old(filterBarText)
      ensures (exists j :: 0 <= j < |rows| && rows[j].isHeader && rows[j].item.id == id) ==>
        && rows[selected].isHeader && rows[selected].item.id == id
        && forall j :: 0 <= j < selected ==> !(rows[j].isHeader && rows[j].item.id == id)
    {
      Refresh(today);
      var headerIdx := HeaderIndexOf(rows, id);
      if headerIdx >= 0 {
        selected := headerIdx;
      }
    }

    /**
     * The state after Enter on the task `id`: `id` is flipped in the expanded set, the rows show
     * the store, and when they showed it before the selection is on the task's first header.
     */
    ghost predicate ExpansionToggled(id: Id, before: set<Id>, wasFresh: bool, today: Date)
      reads this, store
    {
      && expanded == (if id in before then before - {id} else before + {id})
      && ShowsStore(today)
      && (wasFresh ==>
            && 0 <= selected < |rows| && rows[selected].isHeader && rows[selected].item.id == id
            && forall j :: 0 <= j < selected ==> !(rows[j].isHeader && rows[j].item.id == id))
    }

    /** The selection is on a header and no header follows it: the last header. */
    ghost predicate OnLastHeader()
      reads this
    {
      0 <= selected < |rows| && rows[selected].isHeader && NoHeaderIn(rows, selected + 1, |rows|)
    }

    /** `ToggleExpandSelected()`: flips the selected task's expansion and reselects its header. */
    method ToggleExpandSelected(today: Date)
      requires Valid()
      modifies this
      ensures Valid()
      ensures filter == old(filter) && filterLabel == old(filterLabel) && filterBarText == old(filterBarText)
      ensures old(rows) == [] ==> rows == old(rows) && selected == old(selected) && expanded == old(expanded)
      ensures old(rows) != [] ==> ExpansionToggled(old(rows)[old(selected)].item.id, old(expanded), old(ShowsStore(today)), today)
    {
      if |rows| == 0 || selected < 0 || selected >= |rows| {
        return;
      }
      ghost var wasFresh := ShowsStore(today);
      ghost var oldExpanded := expanded;
      var row := rows[selected];
      var id := row.item.id;
      if id in expanded {
        expanded := expanded - {id};
      } else {
        expanded := expanded + {id};
      }
      RefreshAndSelectHeader(id, today);
      if wasFresh {
        RowTaskKeepsHeader(store.items, filter, oldExpanded, expanded, today, ScreenStyle, old(selected));
      }
    }

    /**
     * `ExpandSelected()`: expands the selected task and reselects its header; nothing happens
     * when there are no rows or the task is already expanded.
     */
    method ExpandSelected(today: Date)
      requires Valid()
      modifies this
      ensures Valid()
      ensures filter == old(filter) && filterLabel == old(filterLabel) && filterBarText == old(filterBarText)
      ensures old(rows) == [] || old(rows)[old(selected)].item.id in old(expanded) ==>
        rows == old(rows) && selected == old(selected) && expanded == old(expanded)
      ensures old(rows) != [] && old(rows)[old(selected)].item.id !in old(expanded) ==>
        var id := old(rows)[old(selected)].item.id;
        && expanded == old(expanded) + {id}
        && ShowsStore(today)
        && (old(ShowsStore(today)) ==>
              && 0 <= selected < |rows| && rows[selected].isHeader && rows[selected].item.id == id
              && forall j :: 0 <= j < selected ==> !(rows[j].isHeader && rows[j].item.id == id))
    {
      if |rows| == 0 || selected < 0 || selected >= |rows| {
        return;
      }
      var row := rows[selected];
      var id := row.item.id;
      if id in expanded {
        return;
      }
      ghost var wasFresh := ShowsStore(today);
      ghost var oldExpanded := expanded;
      expanded := expanded + {id};
      RefreshAndSelectHeader(id, today);
      if wasFresh {
        RowTaskKeepsHeader(store.items, filter, oldExpanded, expanded, today, ScreenStyle, old(selected));
      }
    }

    /**
     * `CollapseSelected()`: collapses the selected task and reselects its header; nothing
     * happens when there are no rows or the task is not expanded.
     */
    method CollapseSelected(today: Date)
      requires Valid()
      modifies this
      ensures Valid()
      ensures filter == old(filter) && filterLabel == old(filterLabel) && filterBarText == old(filterBarText)
      ensures old(rows) == [] || old(rows)[old(selected)].item.id !in old(expanded) ==>
        rows == old(rows) && selected == old(selected) && expanded == old(expanded)
      ensures old(rows) != [] && old(rows)[old(selected)].item.id in old(expanded) ==>
        var id := old(rows)[old(selected)].item.id;
        && expanded == old(expanded) - {id}
        && ShowsStore(today)
        && (old(ShowsStore(today)) ==>
              && 0 <= selected < |rows| && rows[selected].isHeader && rows[selected].item.id == id
              && forall j :: 0 <= j < selected ==> !(rows[j].isHeader && rows[j].item.id == id))
    {
      if |rows| == 0 || selected < 0 || selected >= |rows| {
        return;
      }
      var row := rows[selected];
      var id := row.item.id;
      if id !in expanded {
        return;
      }
      ghost var wasFresh := ShowsStore(today);
      ghost var oldExpanded := expanded;
      expanded := expanded - {id};
      RefreshAndSelectHeader(id, today);
      if wasFresh {
        RowTaskKeepsHeader(store.items, filter, oldExpanded, expanded, today, ScreenStyle, old(selected));
      }
    }

    /** `MoveToHeader(dir)`: nearest header after or before the selection, else stay; no-op on no rows. */
    method MoveToHeader(dir: int, today: Date)
      requires Valid()
      modifies this
      ensures Valid()
      ensures expanded == old(expanded) && filter == old(filter)
      ensures filterLabel == old(filterLabel) && filterBarText == old(filterBarText)
      ensures old(rows) == [] ==> rows == old(rows) && selected == old(selected)
      ensures old(rows) != [] ==>
        ShowsStore(today) && selected == ClampRow(HeaderStep(old(rows), old(selected), dir), |rows|)
      ensures old(rows) != [] && old(ShowsStore(today)) ==>
        rows == old(rows) && selected == HeaderStep(rows, old(selected), dir)
    {
      if |rows| == 0 {
        return;
      }
      var i := StepToHeader(rows, selected, dir);
      selected := i;
      Refresh(today);
    }

    /** Key `g`: the first row, a header, is selected. */
    method SelectFirstHeader(today: Date)
      requires Valid()
      modifies this
      ensures Valid() && ShowsStore(today)
      ensures expanded == old(expanded) && filter == old(filter)
      ensures filterLabel == old(filterLabel) && filterBarText == old(filterBarText)
      ensures selected == 0 && (rows != [] ==> rows[selected].isHeader)
    {
      if |rows| > 0 {
        var first := FirstHeaderIndex(rows);
        selected := ClampRow(first, |rows|);
      }
      Refresh(today);
    }

    /** Key `G`: the last header is selected. */
    method SelectLastHeader(today: Date)
      requires Valid()
      modifies this
      ensures Valid() && ShowsStore(today)
      ensures expanded == old(expanded) && filter == old(filter)
      ensures filterLabel == old(filterLabel) && filterBarText == old(filterBarText)
      ensures selected == ClampRow(if old(rows) != [] then LastHeaderUpTo(old(rows), |old(rows)| - 1) else old(selected), |rows|)
      ensures old(rows) != [] && old(ShowsStore(today)) ==> OnLastHeader()
    {
      if |rows| > 0 {
        var last := LastHeaderIndex(rows);
        if last >= 0 {
          selected := last;
        }
      }
      Refresh(today);
    }

    /**
     * The key handler: Enter toggles expansion, Down/`j` and Up/`k` move between headers,
     * `g` selects the first header and `G` the last; other keys are left to the window.
     */
    method OnKeyPress(key: Key, today: Date) returns (handled: bool)
      requires Valid()
      modifies this
      ensures Valid()
      ensures handled <==> NavigationKey(key)
      ensures !handled ==> rows == old(rows) && selected == old(selected) && expanded == old(expanded)
      ensures filter == old(filter) && filterLabel == old(filterLabel) && filterBarText == old(filterBarText)
      ensures (key == CursorDown || key == Char('j')) && old(rows) != [] && old(ShowsStore(today)) ==>
        selected == HeaderStep(old(rows), old(selected), 1)
      ensures (key == CursorUp || key == Char('k')) && old(rows) != [] && old(ShowsStore(today)) ==>
        selected == HeaderStep(old(rows), old(selected), -1)
      ensures key == Char('g') ==> selected == 0 && (rows != [] ==> rows[0].isHeader)
      ensures key == Char('G') && old(rows) != [] && old(ShowsStore(today)) ==> OnLastHeader()
      ensures key == Enter && old(rows) != [] ==>
        ExpansionToggled(old(rows)[old(selected)].item.id, old(expanded), old(ShowsStore(today)), today)
    {
      handled := true;
      if key == Enter {
        ToggleExpandSelected(today);
      } else if key == CursorDown || key == Char('j') {
        MoveToHeader(1, today);
      } else if key == CursorUp || key == Char('k') {
        MoveToHeader(-1, today);
      } else if key == Char('g') {
        SelectFirstHeader(today);
      } else if key == Char('G') {
        SelectLastHeader(today);
      } else {
        handled := false;
      }
    }
  }

  /** Under the accept-all filter every store task passes. */
  lemma {:induction false} PassingAll(items: seq<Task>, today: Date)
    ensures Passing(items, All, today) == items
  {
    if items != [] {
      PassingAll(items[..|items| - 1], today);
      assert items == items[..|items| - 1] + [items[|items| - 1]];
    }
  }
}
