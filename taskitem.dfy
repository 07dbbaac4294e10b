/** A task record (`TaskItem`) and its priority. */
module TaskItem {
  import opened Wrappers
  import opened Dates

  /** `Guid`: only equality of identifiers is ever used. */
  type Id = nat

  datatype Priority = Low | Medium | High

  /** `Priority.ToString()`. */
  function PriorityName(p: Priority): string {
    match p
    case Low => "Low"
    case Medium => "Medium"
    case High => "High"
  }

  /**
   * A task. `due` and `createdAt` carry only their date; `notes` is `None` for a null
   * string; `startTime`/`endTime` are `None` for a null `TimeOnly?`.
   */
  datatype Task = Task(
    id: Id,
    done: bool,
    title: string,
    due: Option<Date>,
    createdAt: Date,
    priority: Priority,
    notes: Option<string>,
    tags: seq<string>,
    startTime: Option<Minute>,
    endTime: Option<Minute>)

  /**
   * `new TaskItem()`: every property at its initialiser. `Guid.NewGuid()` and
   * `DateTime.Today` are the parameters `freshId` and `today`.
   */
  function NewTask(freshId: Id, today: Date): (t: Task)
    ensures t.id == freshId && t.createdAt == today
    ensures !t.done && t.title == ""
    ensures t.priority == Medium
    ensures t.due == None && t.notes == None && t.startTime == None && t.endTime == None
    ensures t.tags == []
  {
    Task(freshId, false, "", None, today, Medium, None, [], None, None)
  }

  /** The names `Enum.GetNames<Priority>()` lists, in declaration order. */
  function PriorityNames(): seq<string> {
    ["Low", "Medium", "High"]
  }

  /** Priority has exactly three values and each has its own name. */
  lemma PriorityNamesDistinct(p: Priority, q: Priority)
    ensures PriorityName(p) in PriorityNames()
    ensures PriorityName(p) == PriorityName(q) ==> p == q
  {
  }
}
