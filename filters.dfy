/**
 * The filter catalogue (`Filters`) plus the two filters the calendar, week and day views
 * build inline. A filter is a closed set of cases; `Accepts` is the predicate each case
 * stands for. `today` is the clock reading at the moment the predicate runs, because the
 * predicates read `DateTime.Today` each time they are applied.
 */
module Filters {
  import opened Wrappers
  import opened Strings
  import opened Dates
  import opened TaskItem

  datatype Filter =
    | All
    | Open
    | Done
    | Today
    | DueToday
    | Overdue
    | DueWithinDays(n: int)
    | TitleContains(q: string)
    | TagContains(q: string)
      /** `t => t.Due.HasValue && t.Due.Value.Date == date` (calendar, week and day views). */
    | DueOn(date: Date)
      /** `_ => false` (a calendar or week panel with no selected day). */
    | NoDay

  /** `tags.Any(tag => tag.IndexOf(q, OrdinalIgnoreCase) >= 0)`. */
  function AnyTagContains(tags: seq<string>, q: string): bool {
    if tags == [] then false
    else IndexOfIgnoreCase(tags[0], q) >= 0 || AnyTagContains(tags[1..], q)
  }

  predicate Accepts(f: Filter, t: Task, today: Date) {
    match f
    case All => true
    case Open => !t.done
    case Done => t.done
    case Today => t.createdAt == today
    case DueToday => t.due.Some? && t.due.value == today
    case Overdue => t.due.Some? && t.due.value < today && !t.done
    case DueWithinDays(n) => t.due.Some? && t.due.value <= today + n
    case TitleContains(q) => !IsBlank(q) && IndexOfIgnoreCase(t.title, q) >= 0
    case TagContains(q) => !IsBlank(q) && AnyTagContains(t.tags, q)
    case DueOn(date) => t.due.Some? && t.due.value == date
    case NoDay => false
  }

  /** Case-insensitive substring containment, stated independently of any search. */
  predicate ContainsIgnoreCase(s: string, q: string) {
    exists i :: 0 <= i <= |s| && MatchesAt(s, q, i)
  }

  lemma AllAcceptsEverything(t: Task, today: Date)
    ensures Accepts(All, t, today)
    ensures !Accepts(NoDay, t, today)
  {
  }

  /** Exactly one of Open and Done holds. */
  lemma OpenDoneComplement(t: Task, today: Date)
    ensures Accepts(Open, t, today) <==> !Accepts(Done, t, today)
  {
  }

  /** Overdue: due strictly before today and not done; hence Overdue implies Open. */
  lemma OverdueIsOpenAndPastDue(t: Task, today: Date)
    ensures Accepts(Overdue, t, today) <==> t.due.Some? && t.due.value < today && !t.done
    ensures Accepts(Overdue, t, today) ==> Accepts(Open, t, today)
  {
  }

  /**
   * DueWithinDays(n) looks only at the due date, not at Done, and takes past-due tasks
   * too: every overdue task is due within any n >= 0 days, and so is a done task due today.
   */
  lemma DueWithinDaysIncludesPastDue(t: Task, today: Date, n: int)
    ensures Accepts(DueWithinDays(n), t, today) <==> t.due.Some? && t.due.value <= today + n
    ensures n >= 0 && Accepts(Overdue, t, today) ==> Accepts(DueWithinDays(n), t, today)
    ensures n >= 0 && Accepts(DueToday, t, today) ==> Accepts(DueWithinDays(n), t, today)
  {
  }

  /** A task without a due date passes none of the due-date filters. */
  lemma NoDueDateNoDueFilter(t: Task, today: Date, n: int, d: Date)
    requires t.due == None
    ensures !Accepts(DueToday, t, today) && !Accepts(Overdue, t, today)
    ensures !Accepts(DueWithinDays(n), t, today) && !Accepts(DueOn(d), t, today)
  {
  }

  /** "Today" is about the creation date: the due date plays no part. */
  lemma TodayIgnoresDue(t: Task, today: Date, due: Option<Date>)
    ensures Accepts(Today, t, today) <==> t.createdAt == today
    ensures Accepts(Today, t, today) == Accepts(Today, t.(due := due), today)
  {
  }

  /** TitleContains(q): false for a blank q, otherwise case-insensitive containment in the title. */
  lemma TitleContainsMeaning(q: string, t: Task, today: Date)
    ensures Accepts(TitleContains(q), t, today) <==> !IsBlank(q) && ContainsIgnoreCase(t.title, q)
  {
    var r := IndexOfIgnoreCase(t.title, q);
    if r >= 0 {
      assert MatchesAt(t.title, q, r);
    }
  }

  lemma {:induction false} AnyTagContainsMeaning(tags: seq<string>, q: string)
    ensures AnyTagContains(tags, q) <==> exists i :: 0 <= i < |tags| && ContainsIgnoreCase(tags[i], q)
  {
    if tags != [] {
      AnyTagContainsMeaning(tags[1..], q);
      var r := IndexOfIgnoreCase(tags[0], q);
      if r >= 0 {
        assert MatchesAt(tags[0], q, r);
      }
      if exists i :: 0 <= i < |tags| && ContainsIgnoreCase(tags[i], q) {
        var i :| 0 <= i < |tags| && ContainsIgnoreCase(tags[i], q);
        if i > 0 {
          assert tags[1..][i - 1] == tags[i];
        }
      }
      if exists i :: 0 <= i < |tags[1..]| && ContainsIgnoreCase(tags[1..][i], q) {
        var i :| 0 <= i < |tags[1..]| && ContainsIgnoreCase(tags[1..][i], q);
        assert tags[i + 1] == tags[1..][i];
      }
    }
  }

  /**
   * TagContains(q): false for a blank q and for a task without tags, otherwise true
   * exactly when some tag contains q case-insensitively.
   */
  lemma TagContainsMeaning(q: string, t: Task, today: Date)
    ensures Accepts(TagContains(q), t, today) <==>
              !IsBlank(q) && exists i :: 0 <= i < |t.tags| && ContainsIgnoreCase(t.tags[i], q)
    ensures t.tags == [] ==> !Accepts(TagContains(q), t, today)
  {
    AnyTagContainsMeaning(t.tags, q);
  }
}
