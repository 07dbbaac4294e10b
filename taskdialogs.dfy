/**
 * The Add/Edit task editor (`TaskDialogs`). The modal dialog is modelled by what it
 * decides: the field texts at each click of Save, in order, until one Save passes
 * validation (the task is written and the dialog closes) or the clicks run out (Cancel or
 * Esc: nothing is written).
 */
module TaskDialogs {
  import opened Wrappers
  import opened Strings
  import opened Dates
  import opened TaskItem

  /** The editor's fields: title, due text, Done box, start, end, priority combo, tags, notes. */
  datatype Form = Form(
    title: string,
    dueText: string,
    done: bool,
    startText: string,
    endText: string,
    priorityText: string,
    tagsText: string,
    notesText: string)

  /**
   * The fields as the dialog opens on `t`: an empty due date shows today's date, empty
   * times and notes show empty text, tags are joined with ",".
   */
  function InitialForm(t: Task, today: Date): Form {
    Form(
      t.title,
      FormatIsoDate(t.due.GetOr(today)),
      t.done,
      if t.startTime.Some? then FormatTime(t.startTime.value) else "",
      if t.endTime.Some? then FormatTime(t.endTime.value) else "",
      PriorityName(t.priority),
      Join(",", t.tags),
      t.notes.GetOr(""))
  }

  /** The validation messages, in the order the Save handler checks them. */
  datatype Rejection = TitleRequired | InvalidStart | InvalidEnd | EndBeforeStart

  datatype SaveOutcome = Saved(task: Task) | Rejected(reason: Rejection)

  /** An optional time field: blank is no time, otherwise it must parse as `HH:mm` (None: invalid). */
  function OptionalTime(text: string): Option<Option<Minute>> {
    if IsBlank(text) then Some(None)
    else match ParseTime(text)
      case Some(m) => Some(Some(m))
      case None => None
  }

  /**
   * `Enum.TryParse<Priority>`: the trimmed text is a member name (case-sensitive) or the
   * decimal number of a member.
   */
  function ParsePriority(text: string): (r: Option<Priority>)
    ensures r.Some? ==> Trim(text) == PriorityName(r.value) || (AllDigits(Trim(text)) && Trim(text) != [])
  {
    var x := Trim(text);
    if x == "Low" then Some(Low)
    else if x == "Medium" then Some(Medium)
    else if x == "High" then Some(High)
    else if x != [] && AllDigits(x) then
      match DigitsValue(x)
      case 0 => Some(Low)
      case 1 => Some(Medium)
      case 2 => Some(High)
      case _ => None
    else None
  }

  /** The combo box's text for a priority parses back to that priority. */
  lemma ParsePriorityOfName(p: Priority)
    ensures ParsePriority(PriorityName(p)) == Some(p)
  {
    var name := PriorityName(p);
    assert !IsWhiteSpace(name[0]) && !IsWhiteSpace(name[|name| - 1]);
    TrimOfTrimmed(name);
  }

  /** Tags as the editor stores them: not empty, no white space at either end, no comma. */
  predicate IsTag(x: string) {
    x != [] && Trim(x) == x && ',' !in x
  }

  predicate TagsWellFormed(tags: seq<string>) {
    forall i :: 0 <= i < |tags| ==> IsTag(tags[i])
  }

  /** A trimmed comma-free piece is a tag unless it is empty. */
  lemma TrimmedPieceIsTag(piece: string)
    requires ',' !in piece
    ensures Trim(piece) != [] ==> IsTag(Trim(piece))
  {
    TrimIsTrimmed(piece);
  }

  /** `TrimEntries | RemoveEmptyEntries` applied to the comma-free pieces of a split. */
  function CleanTags(parts: seq<string>): (tags: seq<string>)
    requires forall i :: 0 <= i < |parts| ==> ',' !in parts[i]
    ensures TagsWellFormed(tags)
    ensures |tags| <= |parts|
  {
    if parts == [] then []
    else
      assert forall i :: 0 <= i < |parts[1..]| ==> parts[1..][i] == parts[i + 1];
      var rest := CleanTags(parts[1..]);
      var x := Trim(parts[0]);
      if x == [] then rest else TagCons(parts[0], rest); [x] + rest
  }

  lemma TagCons(piece: string, rest: seq<string>)
    requires ',' !in piece && Trim(piece) != [] && TagsWellFormed(rest)
    ensures TagsWellFormed([Trim(piece)] + rest)
  {
    TrimmedPieceIsTag(piece);
    var tags := [Trim(piece)] + rest;
    forall i | 0 <= i < |tags| ensures IsTag(tags[i]) {
      if i > 0 {
        assert tags[i] == rest[i - 1];
      }
    }
  }

  /** The tags field: `Split(',', RemoveEmptyEntries | TrimEntries)`; no tag is empty, untrimmed or holds a comma. */
  function SplitTags(text: string): (tags: seq<string>)
    ensures TagsWellFormed(tags)
  {
    CleanTags(Split(text, ','))
  }

  lemma {:induction false} CleanTagsOfWellFormed(tags: seq<string>)
    requires TagsWellFormed(tags)
    ensures CleanTags(tags) == tags
  {
    if tags != [] {
      WellFormedTail(tags);
      CleanTagsOfWellFormed(tags[1..]);
      CleanTagsKeepsTag(tags);
      assert tags == [tags[0]] + tags[1..];
    }
  }

  lemma WellFormedTail(tags: seq<string>)
    requires tags != [] && TagsWellFormed(tags)
    ensures TagsWellFormed(tags[1..])
  {
    assert forall i :: 0 <= i < |tags[1..]| ==> tags[1..][i] == tags[i + 1];
  }

  /** A leading piece that is already a tag is kept as it is. */
  lemma CleanTagsKeepsTag(tags: seq<string>)
    requires tags != [] && TagsWellFormed(tags)
    ensures CleanTags(tags) == [tags[0]] + CleanTags(tags[1..])
  {
    assert IsTag(tags[0]);
  }

  /** The tags text the editor shows for well-formed tags gives the same tags back. */
  lemma SplitTagsOfJoin(tags: seq<string>)
    requires TagsWellFormed(tags)
    ensures SplitTags(Join(",", tags)) == tags
  {
    if tags == [] {
      assert Split("", ',') == [""];
      assert Trim("") == [];
    } else {
      assert forall i :: 0 <= i < |tags| ==> IsTag(tags[i]);
      SplitJoin(tags, ',');
      CleanTagsOfWellFormed(tags);
    }
  }

  /** A start and an end time, when both are set, are in order (an equal end is accepted). */
  predicate TimesOrdered(t: Task) {
    t.startTime.Some? && t.endTime.Some? ==> t.startTime.value <= t.endTime.value
  }

  /**
   * The Save handler. The title is checked first, then the start time, the end time and their
   * order; only a form that passes all four is written to the task.
   */
  function Save(t: Task, f: Form): (r: SaveOutcome)
    ensures IsBlank(f.title) ==> r == Rejected(TitleRequired)
    ensures r.Saved? ==> !IsBlank(r.task.title) && TimesOrdered(r.task)
    ensures r.Saved? ==> r.task.id == t.id && r.task.createdAt == t.createdAt
  {
    if IsBlank(f.title) then Rejected(TitleRequired)
    else match (OptionalTime(f.startText), OptionalTime(f.endText))
      case (None, _) => Rejected(InvalidStart)
      case (_, None) => Rejected(InvalidEnd)
      case (Some(start), Some(end)) =>
        if start.Some? && end.Some? && end.value < start.value then Rejected(EndBeforeStart)
        else Saved(t.(
          startTime := start,
          endTime := end,
          title := f.title,
          done := f.done,
          due := ParseIsoDate(f.dueText),
          priority := ParsePriority(f.priorityText).GetOr(t.priority),
          tags := SplitTags(f.tagsText),
          notes := Some(f.notesText)))
  }

  /**
   * The checks after the title, in order: a start text that is neither blank nor `HH:mm` is
   * rejected, then such an end text, then an end before the start; an end equal to the start
   * passes.
   */
  lemma SaveChecksInOrder(t: Task, f: Form)
    requires !IsBlank(f.title)
    ensures !IsBlank(f.startText) && ParseTime(f.startText).None? ==> Save(t, f) == Rejected(InvalidStart)
    ensures (IsBlank(f.startText) || ParseTime(f.startText).Some?) && !IsBlank(f.endText) && ParseTime(f.endText).None? ==>
      Save(t, f) == Rejected(InvalidEnd)
    ensures ParseTime(f.startText).Some? && ParseTime(f.endText).Some? && ParseTime(f.endText).value < ParseTime(f.startText).value ==>
      Save(t, f) == Rejected(EndBeforeStart)
    ensures ParseTime(f.startText).Some? && f.endText == f.startText ==> Save(t, f).Saved?
  {
    if ParseTime(f.startText).Some? {
      ParseTimeIffFormat(f.startText, ParseTime(f.startText).value);
      NotBlankFormatTime(ParseTime(f.startText).value);
    }
    if ParseTime(f.endText).Some? {
      ParseTimeIffFormat(f.endText, ParseTime(f.endText).value);
      NotBlankFormatTime(ParseTime(f.endText).value);
    }
  }

  /**
   * What a successful Save stores: each time is the one its text spells in `HH:mm`, or none
   * when its text is blank; the due date is the one its text spells in `yyyy-MM-dd`, or none;
   * the priority keeps its old value unless the combo text names one; the notes become the
   * text, even when empty; the tags are well formed.
   */
  lemma SavedFields(t: Task, f: Form)
    requires Save(t, f).Saved?
    ensures var u := Save(t, f).task;
      && (u.startTime.None? <==> IsBlank(f.startText))
      && (u.startTime.Some? ==> FormatTime(u.startTime.value) == f.startText)
      && (u.endTime.None? <==> IsBlank(f.endText))
      && (u.endTime.Some? ==> FormatTime(u.endTime.value) == f.endText)
      && (u.due.Some? ==> FormatIsoDate(u.due.value) == f.dueText)
      && (u.priority != t.priority ==> ParsePriority(f.priorityText) == Some(u.priority))
      && u.notes == Some(f.notesText)
      && u.title == f.title && u.done == f.done
      && TagsWellFormed(u.tags)
  {
    assert OptionalTime(f.startText).Some? && OptionalTime(f.endText).Some?;
    SaveParsed(t, f, OptionalTime(f.startText).value, OptionalTime(f.endText).value);
    OptionalTimeReadsBack(f.startText);
    OptionalTimeReadsBack(f.endText);
    if ParseIsoDate(f.dueText).Some? {
      ParseThenFormatDate(f.dueText);
    }
  }

  /** A time text the editor accepts is blank exactly when it reads as no time, and otherwise spells its time. */
  lemma OptionalTimeReadsBack(text: string)
    requires OptionalTime(text).Some?
    ensures OptionalTime(text).value.None? <==> IsBlank(text)
    ensures OptionalTime(text).value.Some? ==> FormatTime(OptionalTime(text).value.value) == text
  {
    if !IsBlank(text) {
      ParseTimeIffFormat(text, ParseTime(text).value);
    }
  }

  /** A blank due text saves as no due date. */
  lemma BlankDueClearsDate(t: Task, f: Form)
    requires Save(t, f).Saved? && IsBlank(f.dueText)
    ensures Save(t, f).task.due == None
  {
    SavedDue(t, f);
    if f.dueText != [] {
      assert IsWhiteSpace(f.dueText[0]);
      assert !IsDigit(f.dueText[0]);
    }
  }

  /** A successful Save stores the date its due text spells, or none. */
  lemma SavedDue(t: Task, f: Form)
    requires Save(t, f).Saved?
    ensures Save(t, f).task.due == ParseIsoDate(f.dueText)
  {
  }

  /**
   * Saving the form exactly as it opened keeps the task, except that a task without a due
   * date gets today's date and a task without notes gets empty notes.
   */
  lemma SaveUntouchedForm(t: Task, today: Date)
    requires !IsBlank(t.title) && TimesOrdered(t) && TagsWellFormed(t.tags)
    requires 1 <= MonthOf(t.due.GetOr(today)).year <= 9999
    ensures Save(t, InitialForm(t, today)) == Saved(t.(due := Some(t.due.GetOr(today)), notes := Some(t.notes.GetOr(""))))
  {
    var f := InitialForm(t, today);
    OptionalTimeOfFormatted(t.startTime);
    OptionalTimeOfFormatted(t.endTime);
    SaveParsed(t, f, t.startTime, t.endTime);
    FormatThenParseDate(t.due.GetOr(today));
    ParsePriorityOfName(t.priority);
    SplitTagsOfJoin(t.tags);
  }

  /** Save on a form with a title and with time texts that read as ordered times. */
  lemma SaveParsed(t: Task, f: Form, start: Option<Minute>, end: Option<Minute>)
    requires !IsBlank(f.title)
    requires OptionalTime(f.startText) == Some(start) && OptionalTime(f.endText) == Some(end)
    requires !(start.Some? && end.Some? && end.value < start.value)
    ensures Save(t, f) == Saved(t.(startTime := start, endTime := end, title := f.title, done := f.done,
      due := ParseIsoDate(f.dueText), priority := ParsePriority(f.priorityText).GetOr(t.priority),
      tags := SplitTags(f.tagsText), notes := Some(f.notesText)))
  {
  }

  /** The editor's text for a time reads back as that time, and an empty text as none. */
  lemma OptionalTimeOfFormatted(m: Option<Minute>)
    ensures OptionalTime(if m.Some? then FormatTime(m.value) else "") == Some(m)
  {
    if m.Some? {
      var text := FormatTime(m.value);
      ParseTimeIffFormat(text, m.value);
      NotBlankFormatTime(m.value);
      assert ParseTime(text) == Some(m.value);
      assert !IsBlank(text);
    }
  }

  lemma NotBlankFormatTime(m: Minute)
    ensures !IsBlank(FormatTime(m))
  {
    assert FormatTime(m)[2] == ':';
  }

  /** How the editor closes: whether Save went through, and the task as it then stands. */
  datatype EditorOutcome = EditorOutcome(saved: bool, task: Task)

  /**
   * `ShowEditor`: each rejected Save leaves the dialog open and the task untouched; the first
   * Save that passes validation writes the task and closes the dialog.
   */
  function RunEditor(t: Task, clicks: seq<Form>): (r: EditorOutcome)
    ensures !r.saved <==> forall i :: 0 <= i < |clicks| ==> Save(t, clicks[i]).Rejected?
    ensures !r.saved ==> r.task == t
    ensures r.saved ==>
      exists i :: 0 <= i < |clicks| && Save(t, clicks[i]) == Saved(r.task)
        && forall j :: 0 <= j < i ==> Save(t, clicks[j]).Rejected?
  {
    if clicks == [] then EditorOutcome(false, t)
    else match Save(t, clicks[0])
      case Saved(u) => EditorOutcome(true, u)
      case Rejected(_) =>
        var r := RunEditor(t, clicks[1..]);
        assert forall i :: 1 <= i < |clicks| ==> clicks[i] == clicks[1..][i - 1];
        if r.saved then
          var k :| 0 <= k < |clicks[1..]| && Save(t, clicks[1..][k]) == Saved(r.task)
                   && forall j :: 0 <= j < k ==> Save(t, clicks[1..][j]).Rejected?;
          assert Save(t, clicks[k + 1]) == Saved(r.task);
          r
        else r
  }

  /** A task the editor saved has a title and ordered times, and is still the same task. */
  lemma EditorKeepsTaskValid(t: Task, clicks: seq<Form>)
    requires RunEditor(t, clicks).saved
    ensures var u := RunEditor(t, clicks).task;
      !IsBlank(u.title) && TimesOrdered(u) && u.id == t.id && u.createdAt == t.createdAt
  {
    var i :| 0 <= i < |clicks| && Save(t, clicks[i]) == Saved(RunEditor(t, clicks).task);
  }

  /** `ShowEditDialog(task)`: whether the task was saved, and the task after the dialog. */
  function ShowEditDialog(t: Task, clicks: seq<Form>): (r: EditorOutcome)
    ensures r.saved ==> r.task.id == t.id && !IsBlank(r.task.title)
    ensures !r.saved ==> r.task == t
  {
    var r := RunEditor(t, clicks);
    if r.saved then
      EditorKeepsTaskValid(t, clicks);
      r
    else r
  }

  /**
   * `ShowAddDialog()`: a new task (fresh id, created today) edited in the dialog; the task
   * when it was saved, None when the dialog was cancelled.
   */
  function ShowAddDialog(freshId: Id, today: Date, clicks: seq<Form>): (r: Option<Task>)
    ensures r.Some? ==> r.value.id == freshId && r.value.createdAt == today
    ensures r.Some? ==> !IsBlank(r.value.title) && TimesOrdered(r.value)
    ensures r.None? <==> forall i :: 0 <= i < |clicks| ==> Save(NewTask(freshId, today), clicks[i]).Rejected?
  {
    var t := NewTask(freshId, today);
    var e := RunEditor(t, clicks);
    if e.saved then
      EditorKeepsTaskValid(t, clicks);
      Some(e.task)
    else None
  }
}
