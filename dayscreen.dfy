/**
 * `DayScreen`: a gutter of 24 hour labels beside a task list that shows the tasks due on the
 * screen's date. `a` in the gutter (or the list's add request) opens the editor on a new task
 * due that day and starting at the selected hour.
 */
module DayScreen {
  import opened Wrappers
  import opened Strings
  import opened Dates
  import opened TaskItem
  import opened TaskStore
  import opened Filters
  import opened TaskRows
  import opened TaskDialogs
  import opened Keys
  import opened ListView

  const HOURS: int := 24

  /** The gutter's lines: `h:00` in two-digit form for every hour of the day. */
  function HourLabels(): (r: seq<string>)
    ensures |r| == HOURS
  {
    seq(HOURS, h requires 0 <= h < HOURS => TwoDigits(h) + ":00")
  }

  /** The labels are the hours' `HH:mm` texts in order, and each reads back as its hour. */
  lemma HourLabelsAreHours(h: int)
    requires 0 <= h < HOURS
    ensures HourLabels()[h] == FormatTime(h * 60)
    ensures ParseTime(HourLabels()[h]) == Some(h * 60)
  {
    assert TwoDigits(0) == "00";
    ParseTimeIffFormat(HourLabels()[h], h * 60);
  }

  /** The labels are pairwise different, so the gutter index determines the hour. */
  lemma HourLabelsDistinct(h: int, h': int)
    requires 0 <= h < HOURS && 0 <= h' < HOURS && h != h'
    ensures HourLabels()[h] != HourLabels()[h']
  {
    HourLabelsAreHours(h);
    HourLabelsAreHours(h');
  }

  /** `Math.Clamp(hour, 0, 23)`. */
  function ClampHour(hour: int): (r: int)
    ensures 0 <= r < HOURS
    ensures 0 <= hour < HOURS ==> r == hour
    ensures hour < 0 ==> r == 0
    ensures hour >= HOURS ==> r == HOURS - 1
  {
    Min(Max(hour, 0), HOURS - 1)
  }

  /**
   * The task `QuickAddAtHour(hour)` hands to the editor: a new task due on `date` that starts
   * at the clamped hour.
   */
  function QuickAddTask(freshId: Id, today: Date, date: Date, hour: int): (t: Task)
    ensures t == NewTask(freshId, today).(due := Some(date), startTime := Some(ClampHour(hour) * 60))
  {
    NewTask(freshId, today).(due := Some(date), startTime := Some(ClampHour(hour) * 60))
  }

  /**
   * Typing only a title in the quick-add editor and saving keeps the day and the hour: the
   * saved task is due on `date`, starts at the clamped hour and has no end time.
   */
  lemma QuickAddKeepsDayAndHour(freshId: Id, today: Date, date: Date, hour: int, title: string)
    requires !IsBlank(title)
    requires 1 <= MonthOf(date).year <= 9999
    ensures var t := QuickAddTask(freshId, today, date, hour);
      Save(t, InitialForm(t, today).(title := title)) == Saved(t.(title := title, notes := Some("")))
    ensures var t := QuickAddTask(freshId, today, date, hour);
      var u := Save(t, InitialForm(t, today).(title := title)).task;
      u.due == Some(date) && u.startTime == Some(ClampHour(hour) * 60) && u.endTime == None && !u.done
  {
    var t := QuickAddTask(freshId, today, date, hour);
    var titled := t.(title := title);
    assert InitialForm(titled, today) == InitialForm(t, today).(title := title);
    assert TagsWellFormed(titled.tags);
    SaveUntouchedForm(titled, today);
  }

  /** The day list's rows: every one belongs to a store task due on the screen's date. */
  lemma DayRowsAreDueThatDay(items: seq<Task>, date: Date, expanded: set<Id>, today: Date)
    ensures var rows := Flatten(items, DueOn(date), expanded, today, ViewStyle);
      forall k :: 0 <= k < |rows| ==> rows[k].item in items && rows[k].item.due == Some(date)
    ensures Headers(Flatten(items, DueOn(date), expanded, today, ViewStyle)) == Passing(items, DueOn(date), today)
  {
    var rows := Flatten(items, DueOn(date), expanded, today, ViewStyle);
    FlattenMembers(items, DueOn(date), expanded, today, ViewStyle);
    forall k | 0 <= k < |rows| ensures rows[k].item in items && rows[k].item.due == Some(date) {
      assert Accepts(DueOn(date), rows[k].item, today);
    }
    HeadersAreThePassingTasks(items, DueOn(date), expanded, today, ViewStyle);
  }

  /** The keys the hour list's handler marks handled. */
  predicate HourListHandles(key: Key) {
    || key == CursorDown || key == CursorUp || key == Tab || key == Enter || key == Esc
    || key == Char('j') || key == Char('k') || key == Char('a') || key == Char('A') || key == Char('l')
  }

  class DayScreen {
    const store: InMemoryTaskStore
    /** `_date`: a day number, so it has no time of day. */
    const date: Date
    /** `_list`, a task list without a filter bar. */
    const list: TaskListView
    /** `_hours.SelectedItem`: the selected gutter line. */
    var hour: int

    /** The list reads this screen's store and is filtered to this screen's date; the hour is a gutter line. */
    ghost predicate Valid()
      reads this, list
    {
      && list.store == store
      && !list.showFilterBar
      && list.filter == DueOn(date)
      && list.Valid()
      && 0 <= hour < HOURS
    }

    /**
     * `new DayScreen(store, date)`. `caption` is the date's short culture text the list is
     * labelled with.
     */
    constructor (store: InMemoryTaskStore, date: Date, caption: string, today: Date)
      ensures this.store == store && this.date == date && fresh(list)
      ensures Valid() && list.ShowsStore(today)
      ensures hour == 0 && list.expanded == {}
      ensures list.filterLabel == if IsBlank(caption) then "Custom" else caption
    {
      this.store := store;
      this.date := date;
      hour := 0;
      var l := new TaskListView(store, false, today);
      l.SetFilter(Some(DueOn(date)), caption, today);
      l.Refresh(today);
      list := l;
    }

    /**
     * `QuickAddAtHour(hour)`: the editor runs on `QuickAddTask`; only a save adds the task to
     * the store, and then the list is refreshed.
     */
    method QuickAddAtHour(h: int, freshId: Id, today: Date, clicks: seq<Form>)
      requires Valid()
      modifies store, list
      ensures Valid()
      ensures var r := ShowEditDialog(QuickAddTask(freshId, today, date, h), clicks);
        if r.saved then
          store.items == old(store.items) + [r.task] && list.ShowsStore(today)
        else
          store.items == old(store.items) && list.rows == old(list.rows) && list.selected == old(list.selected)
      ensures list.expanded == old(list.expanded)
    {
      var t := QuickAddTask(freshId, today, date, h);
      var r := ShowEditDialog(t, clicks);
      if r.saved {
        var added := store.Add(r.task);
        list.Refresh(today);
      }
    }

    /**
     * The gutter's key handler: down and `j` go one hour later and up and `k` one hour
     * earlier, stopping at 23:00 and 00:00; `a` quick-adds at the selected hour; Tab, Enter,
     * `l` (focus the list) and Esc (close the screen) change nothing modelled here.
     */
    method OnHourKey(key: Key, freshId: Id, today: Date, clicks: seq<Form>) returns (handled: bool)
      requires Valid()
      modifies this, store, list
      ensures Valid()
      ensures key == CursorDown || key == Char('j') ==> hour == Min(old(hour) + 1, HOURS - 1)
      ensures key == CursorUp || key == Char('k') ==> hour == Max(old(hour) - 1, 0)
      ensures key == Char('a') || key == Char('A') ==>
        var r := ShowEditDialog(QuickAddTask(freshId, today, date, old(hour)), clicks);
        store.items == old(store.items) + (if r.saved then [r.task] else [])
      ensures key != Char('a') && key != Char('A') ==>
        store.items == old(store.items) && list.rows == old(list.rows) && list.selected == old(list.selected)
      ensures key != CursorDown && key != Char('j') && key != CursorUp && key != Char('k') ==> hour == old(hour)
      ensures handled <==> HourListHandles(key)
    {
      if key == CursorDown || key == Char('j') {
        hour := Min(hour + 1, HOURS - 1);
        return true;
      }
      if key == CursorUp || key == Char('k') {
        hour := Max(hour - 1, 0);
        return true;
      }
      if key == Char('a') || key == Char('A') {
        QuickAddAtHour(hour, freshId, today, clicks);
        return true;
      }
      handled := key == Tab || key == Enter || key == Char('l') || key == Esc;
    }

    /** The list's edit request: only a save writes the task and refreshes the list. */
    method Edit(t: Task, clicks: seq<Form>, today: Date)
      requires Valid()
      modifies store, list
      ensures Valid()
      ensures var r := ShowEditDialog(t, clicks);
        if r.saved then store.items == Written(old(store.items), r.task) && list.ShowsStore(today)
        else store.items == old(store.items) && list.rows == old(list.rows)
    {
      var r := ShowEditDialog(t, clicks);
      if r.saved {
        store.Write(r.task);
        store.Update(r.task);
        list.Refresh(today);
      }
    }

    /** The list's toggle request: Done flips, the store is updated, the list refreshed. */
    method Toggle(t: Task, today: Date)
      requires Valid()
      modifies store, list
      ensures Valid() && list.ShowsStore(today)
      ensures store.items == Written(old(store.items), t.(done := !t.done))
    {
      var flipped := t.(done := !t.done);
      store.Write(flipped);
      store.Update(flipped);
      list.Refresh(today);
    }

    /** The list's delete request: only the answer "Yes" (0) removes the task. */
    method Delete(t: Task, answer: int, today: Date)
      requires Valid()
      modifies store, list
      ensures Valid()
      ensures answer == 0 ==> store.items == WithoutId(old(store.items), t.id) && list.ShowsStore(today)
      ensures answer != 0 ==> store.items == old(store.items) && list.rows == old(list.rows)
    {
      if answer != 0 {
        return;
      }
      store.Remove(t.id);
      list.Refresh(today);
    }

    /** The list's requests as this screen wires them; an add request quick-adds at the selected hour. */
    method OnListRequest(request: Request, freshId: Id, clicks: seq<Form>, answer: int, today: Date)
      requires Valid()
      modifies store, list
      ensures Valid()
      ensures request.AddRequested? ==>
        var r := ShowEditDialog(QuickAddTask(freshId, today, date, hour), clicks);
        store.items == old(store.items) + (if r.saved then [r.task] else [])
      ensures request.ToggleDoneRequested? ==>
        store.items == Written(old(store.items), request.task.(done := !request.task.done))
      ensures request.DeleteRequested? ==>
        store.items == if answer == 0 then WithoutId(old(store.items), request.task.id) else old(store.items)
      ensures request.EditRequested? ==>
        var r := ShowEditDialog(request.task, clicks);
        store.items == if r.saved then Written(old(store.items), r.task) else old(store.items)
    {
      match request
      case AddRequested => QuickAddAtHour(hour, freshId, today, clicks);
      case EditRequested(t) => Edit(t, clicks, today);
      case ToggleDoneRequested(t) => Toggle(t, today);
      case DeleteRequested(t) => Delete(t, answer, today);
    }
  }
}
