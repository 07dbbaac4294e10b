/** `ITaskStore` and its in-memory implementation: an ordered list of tasks. */
module TaskStore {
  import opened TaskItem

  /** The list after `RemoveAll(i => i.Id == id)`. */
  function WithoutId(items: seq<Task>, id: Id): seq<Task> {
    if items == [] then []
    else
      var rest := WithoutId(items[..|items| - 1], id);
      if items[|items| - 1].id == id then rest else rest + [items[|items| - 1]]
  }

  /** Removal by id keeps exactly the items with another id. */
  lemma {:induction false} WithoutIdMembers(items: seq<Task>, id: Id)
    ensures forall t :: t in WithoutId(items, id) <==> t in items && t.id != id
    ensures |WithoutId(items, id)| <= |items|
  {
    if items != [] {
      var init := items[..|items| - 1];
      WithoutIdMembers(init, id);
      assert items == init + [items[|items| - 1]];
    }
  }

  /** Removal by id distributes over concatenation, so the kept items keep their relative order. */
  lemma {:induction false} WithoutIdConcat(a: seq<Task>, b: seq<Task>, id: Id)
    ensures WithoutId(a + b, id) == WithoutId(a, id) + WithoutId(b, id)
    decreases |b|
  {
    if b == [] {
      assert a + b == a;
    } else {
      var init := b[..|b| - 1];
      WithoutIdConcat(a, init, id);
      assert (a + b)[..|a + b| - 1] == a + init;
    }
  }

  /** Removing an id no item carries changes nothing. */
  lemma {:induction false} WithoutAbsentId(items: seq<Task>, id: Id)
    requires forall i :: 0 <= i < |items| ==> items[i].id != id
    ensures WithoutId(items, id) == items
  {
    if items != [] {
      WithoutAbsentId(items[..|items| - 1], id);
    }
  }

  /**
   * The list after a caller writes fields of a task object the list holds: every element
   * with the same identity now shows the new field values.
   */
  function Written(items: seq<Task>, t: Task): (r: seq<Task>)
    ensures |r| == |items|
    ensures forall i :: 0 <= i < |r| ==> r[i] == if items[i].id == t.id then t else items[i]
  {
    seq(|items|, i requires 0 <= i < |items| => if items[i].id == t.id then t else items[i])
  }

  class InMemoryTaskStore {
    /** `_items`, in insertion order. */
    var items: seq<Task>

    constructor ()
      ensures items == []
    {
      items := [];
    }

    /** `All()`: the current items in insertion order. */
    function All(): seq<Task>
      reads this
    {
      items
    }

    /** `Add(t)`: appends `t` and returns it. */
    method Add(t: Task) returns (r: Task)
      modifies this
      ensures items == old(items) + [t]
      ensures r == t
    {
      items := items + [t];
      r := t;
    }

    /** `Update(t)`: nothing to do for an in-memory list. */
    method Update(t: Task)
      ensures items == old(items)
    {
    }

    /** `Remove(id)`: drops every item with that id, compacting the list in place. */
    method Remove(id: Id)
      modifies this
      ensures items == WithoutId(old(items), id)
    {
      var kept: seq<Task> := [];
      var i := 0;
      while i < |items|
        invariant 0 <= i <= |items|
        invariant kept == WithoutId(items[..i], id)
      {
        assert items[..i + 1][..i] == items[..i];
        if items[i].id != id {
          kept := kept + [items[i]];
        }
        i := i + 1;
      }
      assert items[..i] == items;
      items := kept;
    }

    /**
     * A field write (`t.Done = !t.Done`, the editor's commit) to a task object this
     * store shares with its caller, which the list then reflects.
     */
    method Write(t: Task)
      modifies this
      ensures items == Written(old(items), t)
    {
      items := Written(items, t);
    }
  }
}
