/**
 * The text helpers the calendar and the week strip share: `PadCenter` and `FitRightPad`
 * (each screen has an identical private copy), the due-task count behind a day's badge, and
 * the right-aligned day number.
 */
module Cells {
  import opened Wrappers
  import opened Strings
  import opened Dates
  import opened TaskItem
  import opened Filters
  import opened TaskRows

  /** `PadCenter(s, width)`: `s` centred in `width` columns, truncated when it does not fit. */
  function PadCenter(s: string, width: nat): (r: string)
    ensures |r| == width
    ensures |s| >= width ==> r == s[..width]
    ensures |s| < width ==>
      var left := (width - |s|) / 2;
      && r[left..left + |s|] == s
      && (forall i :: 0 <= i < width && (i < left || left + |s| <= i) ==> r[i] == ' ')
      && left <= width - |s| - left <= left + 1
  {
    if |s| >= width then s[..width]
    else
      var pad := width - |s|;
      var left := pad / 2;
      var right := pad - left;
      var r := Spaces(left) + s + Spaces(right);
      assert r[left..left + |s|] == s;
      r
  }

  /** `FitRightPad(s, width)`: `s` left-aligned in `width` columns, truncated when it does not fit. */
  function FitRightPad(s: string, width: nat): (r: string)
    ensures |r| == width
    ensures |s| >= width ==> r == s[..width]
    ensures |s| < width ==> r[..|s|] == s && forall i :: |s| <= i < width ==> r[i] == ' '
  {
    if |s| >= width then s[..width] else PadRight(s, width)
  }

  /** Fitting never moves a character: the first `k` characters of a fitted text are those of `s`. */
  lemma FitRightPadKeepsPrefix(s: string, width: nat, k: nat)
    requires k <= |s| && k <= width
    ensures FitRightPad(s, width)[..k] == s[..k]
  {
    var r := FitRightPad(s, width);
    if |s| < width {
      assert r[..k] == r[..|s|][..k];
    }
  }

  /** `store.All().Count(t => t.Due.HasValue && t.Due.Value.Date == d)`. */
  function DueCount(items: seq<Task>, d: Date): nat {
    if items == [] then 0
    else
      DueCount(items[..|items| - 1], d) + (if items[|items| - 1].due == Some(d) then 1 else 0)
  }

  /** The count is zero exactly when no task is due on that day. */
  lemma {:induction false} DueCountZeroIff(items: seq<Task>, d: Date)
    ensures DueCount(items, d) == 0 <==> forall i :: 0 <= i < |items| ==> items[i].due != Some(d)
  {
    if items != [] {
      var init := items[..|items| - 1];
      DueCountZeroIff(init, d);
      assert forall i :: 0 <= i < |init| ==> init[i] == items[i];
    }
  }

  /**
   * A day's badge and its task list agree: the count is the number of header rows the list
   * shows when filtered to that day, whatever is expanded.
   */
  lemma {:induction false} DueCountIsDayListLength(items: seq<Task>, d: Date, expanded: set<Id>, today: Date, style: HeaderStyle)
    ensures DueCount(items, d) == |Headers(Flatten(items, DueOn(d), expanded, today, style))|
  {
    HeadersAreThePassingTasks(items, DueOn(d), expanded, today, style);
    PassingCount(items, d, today);
  }

  lemma {:induction false} PassingCount(items: seq<Task>, d: Date, today: Date)
    ensures DueCount(items, d) == |Passing(items, DueOn(d), today)|
  {
    if items != [] {
      PassingCount(items[..|items| - 1], d, today);
    }
  }

  /** The badge a day with due tasks carries. */
  const BADGE: string := "  \U{2022}"

  /** `d.Day.ToString().PadLeft(2)`. */
  function DayText(d: Date): (r: string)
    ensures |r| == 2 && IsDigit(r[1]) && (r[0] == ' ' || IsDigit(r[0]))
  {
    PadLeft(NatToString(DayOfMonth(d)), 2)
  }
}
