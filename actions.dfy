/**
 * `TaskListActions.AttachHandlers`: the four handlers a host attaches to a `TaskListView`'s
 * requests. Each changes the store, then refreshes the view, then reports the change to the
 * optional `afterChange` callback. The callback is modelled as a log of notifications, each
 * holding the rows the view showed when the callback ran.
 */
module Actions {
  import opened Wrappers
  import opened Dates
  import opened TaskItem
  import opened TaskStore
  import opened TaskRows
  import opened TaskDialogs
  import opened ListView

  datatype ChangeKind = Added | Edited | Toggled | Deleted

  /** One `afterChange(kind, task)` call, with the view's rows at that moment. */
  datatype Notification = Notification(kind: ChangeKind, task: Task, rowsSeen: seq<Row>)

  /** What the user does in the Add dialog: a fresh id, today's date and the Save clicks. */
  datatype AddSession = AddSession(freshId: Id, today: Date, clicks: seq<Form>)

  /** `t.Done = !t.Done`. */
  function ToggledTask(t: Task): (r: Task)
    ensures r.done != t.done && r.(done := t.done) == t
  {
    t.(done := !t.done)
  }

  /** The "Yes" button of the delete confirmation is answer 0. */
  const YES: int := 0

  /**
   * A `HandlerSet` and the subscriptions `AttachHandlers` makes. A missing factory or edit
   * handler means the Add and Edit dialogs are used.
   */
  class HandlerSet {
    const view: TaskListView
    const store: InMemoryTaskStore
    /** A `newItemFactory` was passed; otherwise `TaskDialogs.ShowAddDialog` is used. */
    const customFactory: bool
    /** An `editHandler` was passed; otherwise `TaskDialogs.ShowEditDialog` is used. */
    const customEditor: bool
    /** An `afterChange` callback was passed. */
    const hasAfterChange: bool
    /** The `afterChange` calls so far. */
    var notifications: seq<Notification>

    /** `AttachHandlers(view, store, newItemFactory, editHandler, afterChange)`. */
    constructor AttachHandlers(view: TaskListView, store: InMemoryTaskStore, customFactory: bool, customEditor: bool, hasAfterChange: bool)
      ensures this.view == view && this.store == store
      ensures this.customFactory == customFactory && this.customEditor == customEditor
      ensures this.hasAfterChange == hasAfterChange
      ensures notifications == []
    {
      this.view := view;
      this.store := store;
      this.customFactory := customFactory;
      this.customEditor := customEditor;
      this.hasAfterChange := hasAfterChange;
      notifications := [];
    }

    /** The factory's result: the Add dialog's new task unless a custom factory was given. */
    function NewItem(session: AddSession, produced: Option<Task>): Option<Task>
      reads this
    {
      if customFactory then produced else ShowAddDialog(session.freshId, session.today, session.clicks)
    }

    /** The edit handler's result: the Edit dialog's unless a custom handler was given. */
    function EditResult(task: Task, clicks: seq<Form>, custom: EditorOutcome): EditorOutcome
      reads this
    {
      if customEditor then custom else ShowEditDialog(task, clicks)
    }

    /** `InvokeAfter(kind, task)`: the view is refreshed before the callback sees it. */
    method InvokeAfter(kind: ChangeKind, task: Task, today: Date)
      modifies view, this
      ensures view.ShowsStore(today) && view.Valid()
      ensures view.expanded == old(view.expanded) && view.filter == old(view.filter)
      ensures notifications == old(notifications) + if hasAfterChange then [Notification(kind, task, view.rows)] else []
    {
      view.Refresh(today);
      if hasAfterChange {
        notifications := notifications + [Notification(kind, task, view.rows)];
      }
    }

    /** `Add()`: nothing happens when the factory gives null; otherwise append, refresh, notify. */
    method Add(session: AddSession, produced: Option<Task>, today: Date)
      modifies store, view, this
      ensures var item := old(NewItem(session, produced));
        if item.None? then
          store.items == old(store.items) && notifications == old(notifications)
          && view.rows == old(view.rows) && view.selected == old(view.selected)
        else
          && store.items == old(store.items) + [item.value]
          && view.ShowsStore(today)
          && notifications == old(notifications) + if hasAfterChange then [Notification(Added, item.value, view.rows)] else []
    {
      var item := NewItem(session, produced);
      if item.None? {
        return;
      }
      var added := store.Add(item.value);
      InvokeAfter(Added, item.value, today);
    }

    /**
     * `Edit(task)`: when the edit handler reports a save, the edited fields are in the store
     * (the store shares the task), then refresh and notify; otherwise nothing happens.
     */
    method Edit(task: Task, clicks: seq<Form>, custom: EditorOutcome, today: Date)
      modifies store, view, this
      ensures var r := old(EditResult(task, clicks, custom));
        if !r.saved then
          store.items == old(store.items) && notifications == old(notifications)
          && view.rows == old(view.rows) && view.selected == old(view.selected)
        else
          && store.items == Written(old(store.items), r.task)
          && view.ShowsStore(today)
          && notifications == old(notifications) + if hasAfterChange then [Notification(Edited, r.task, view.rows)] else []
    {
      var r := EditResult(task, clicks, custom);
      if !r.saved {
        return;
      }
      store.Write(r.task);
      store.Update(r.task);
      InvokeAfter(Edited, r.task, today);
    }

    /** `Toggle(task)`: flips Done in place, then refresh and notify. */
    method Toggle(task: Task, today: Date)
      modifies store, view, this
      ensures store.items == Written(old(store.items), ToggledTask(task))
      ensures view.ShowsStore(today)
      ensures notifications == old(notifications) + if hasAfterChange then [Notification(Toggled, ToggledTask(task), view.rows)] else []
    {
      var flipped := ToggledTask(task);
      store.Write(flipped);
      store.Update(flipped);
      InvokeAfter(Toggled, flipped, today);
    }

    /** `Delete(task)`: only the answer "Yes" removes the task, then refresh and notify. */
    method Delete(task: Task, answer: int, today: Date)
      modifies store, view, this
      ensures answer != YES ==>
        store.items == old(store.items) && notifications == old(notifications)
        && view.rows == old(view.rows) && view.selected == old(view.selected)
      ensures answer == YES ==>
        && store.items == WithoutId(old(store.items), task.id)
        && view.ShowsStore(today)
        && notifications == old(notifications) + if hasAfterChange then [Notification(Deleted, task, view.rows)] else []
    {
      if answer != YES {
        return;
      }
      store.Remove(task.id);
      InvokeAfter(Deleted, task, today);
    }

    /**
     * The subscriptions `view.AddRequested += Add` and so on: each request runs its handler.
     * `session`, `produced`, `clicks`, `custom` and `answer` are what the dialogs, the factory,
     * the edit handler and the confirmation give.
     */
    method OnRequest(request: Request, session: AddSession, produced: Option<Task>, clicks: seq<Form>,
                     custom: EditorOutcome, answer: int, today: Date)
      modifies store, view, this
      ensures request.AddRequested? && old(NewItem(session, produced)).Some? ==>
        store.items == old(store.items) + [old(NewItem(session, produced)).value]
      ensures request.EditRequested? && old(EditResult(request.task, clicks, custom)).saved ==>
        store.items == Written(old(store.items), old(EditResult(request.task, clicks, custom)).task)
      ensures request.ToggleDoneRequested? ==> store.items == Written(old(store.items), ToggledTask(request.task))
      ensures request.DeleteRequested? && answer == YES ==> store.items == WithoutId(old(store.items), request.task.id)
      ensures (request.AddRequested? && old(NewItem(session, produced)).None?)
              || (request.EditRequested? && !old(EditResult(request.task, clicks, custom)).saved)
              || (request.DeleteRequested? && answer != YES)
              ==> store.items == old(store.items) && notifications == old(notifications)
    {
      match request
      case AddRequested => Add(session, produced, today);
      case EditRequested(t) => Edit(t, clicks, custom, today);
      case ToggleDoneRequested(t) => Toggle(t, today);
      case DeleteRequested(t) => Delete(t, answer, today);
    }
  }

  /**
   * Toggling a task twice puts the store back: the second toggle writes the task with its
   * original Done value over every copy the first one wrote.
   */
  lemma {:induction false} ToggleTwiceRestores(items: seq<Task>, t: Task)
    requires forall i :: 0 <= i < |items| && items[i].id == t.id ==> items[i] == t
    ensures Written(Written(items, ToggledTask(t)), ToggledTask(ToggledTask(t))) == items
  {
    var once := Written(items, ToggledTask(t));
    var twice := Written(once, ToggledTask(ToggledTask(t)));
    assert ToggledTask(ToggledTask(t)) == t;
    forall i | 0 <= i < |items| ensures twice[i] == items[i] {
      assert once[i].id == items[i].id;
    }
  }

  /**
   * A later write of a task replaces an earlier write of the same task: after an edit or a
   * toggle, only the last written fields of that task remain.
   */
  lemma {:induction false} LastWriteWins(items: seq<Task>, u: Task, v: Task)
    requires u.id == v.id
    ensures Written(Written(items, u), v) == Written(items, v)
  {
    var a := Written(Written(items, u), v);
    var b := Written(items, v);
    forall i | 0 <= i < |items| ensures a[i] == b[i] {
      assert Written(items, u)[i].id == items[i].id;
    }
  }

  /** After a confirmed delete no task with that id is left, and the others keep their order. */
  lemma DeleteLeavesNoCopy(items: seq<Task>, id: Id)
    ensures forall t :: t in WithoutId(items, id) ==> t.id != id
    ensures forall t :: t in items && t.id != id ==> t in WithoutId(items, id)
  {
    WithoutIdMembers(items, id);
  }
}
