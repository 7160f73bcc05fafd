/**
 * The small decision rules of the application shell: which theme to use,
 * whether dark mode is on, and what the app badge shows. The system theme,
 * the theme list and the browser's capabilities are parameters.
 */
module AppShell {
  import opened Tasks
  import opened Sequences
  import BulkActions

  /** What the operating system reports as its colour scheme. */
  datatype SystemTheme = Dark | Light | Unknown

  /** `Themes.find` by name: the first index whose theme is called `name`, or -1. */
  function FindTheme(names: seq<string>, name: string): (k: int)
    ensures -1 <= k < |names|
    ensures k == -1 <==> name !in names
    ensures k >= 0 ==> names[k] == name && forall j :: 0 <= j < k ==> names[j] != name
  {
    if names == [] then -1
    else if names[0] == name then 0
    else
      var k := FindTheme(names[1..], name);
      if k == -1 then -1 else k + 1
  }

  /**
   * Lines 129-138: the index into the theme list of the theme to use. An
   * unknown system theme gives the first theme; "system" gives the first
   * (dark) or the second theme; any other name gives the first theme of
   * that name, or the first theme when there is none.
   */
  function SelectTheme(names: seq<string>, system: SystemTheme, userTheme: string): (i: nat)
    requires |names| >= 2
    ensures i < |names|
    ensures system == Unknown ==> i == 0
    ensures system != Unknown && userTheme == "system" ==> i == if system == Dark then 0 else 1
    ensures system != Unknown && userTheme != "system" && userTheme in names ==>
              names[i] == userTheme && forall j :: 0 <= j < i ==> names[j] != userTheme
    ensures system != Unknown && userTheme != "system" && userTheme !in names ==> i == 0
  {
    if system == Unknown then 0
    else if userTheme == "system" then (if system == Dark then 0 else 1)
    else
      var k := FindTheme(names, userTheme);
      if k == -1 then 0 else k
  }

  /** Line 153: dark mode is on when chosen outright, or when automatic and the system is dark. */
  predicate Darkmode(darkmode: string, system: SystemTheme) {
    darkmode == "dark" || (darkmode == "auto" && system == Dark)
  }

  /** Dark mode never depends on the system theme unless the choice is "auto", and "auto" follows it. */
  lemma DarkmodeFollowsSystemOnlyOnAuto(darkmode: string, a: SystemTheme, b: SystemTheme)
    ensures darkmode != "auto" ==> Darkmode(darkmode, a) == Darkmode(darkmode, b)
    ensures darkmode == "auto" ==> (Darkmode(darkmode, a) <==> a == Dark)
  {
  }

  /** Line 114: the number of tasks that are not done. */
  function IncompleteCount(tasks: seq<Task>): (n: nat)
    ensures n <= |tasks|
    ensures n + |Filter(tasks, IsDone)| == |tasks|
    ensures n == 0 <==> forall i :: 0 <= i < |tasks| ==> tasks[i].done
  {
    FilterSplit(tasks, IsNotDone, IsDone);
    assert |multiset(Filter(tasks, IsNotDone))| + |multiset(Filter(tasks, IsDone))| == |multiset(tasks)|;
    if forall i :: 0 <= i < |tasks| ==> tasks[i].done then
      FilterNone(tasks, IsNotDone);
      |Filter(tasks, IsNotDone)|
    else
      var i :| 0 <= i < |tasks| && !tasks[i].done;
      FilterContains(tasks, IsNotDone, tasks[i]);
      |Filter(tasks, IsNotDone)|
  }

  /** Marking the selection done lowers the count to the open tasks that were not selected. */
  lemma {:induction false} MarkSelectedDoneCount(tasks: seq<Task>, selected: seq<TaskId>, now: int)
    ensures IncompleteCount(BulkActions.MarkSelectedDone(tasks, selected, now))
         == |Filter(tasks, (t: Task) => !t.done && t.id !in selected)|
  {
    if tasks != [] {
      var marked := BulkActions.MarkSelectedDone(tasks, selected, now);
      assert marked[1..] == BulkActions.MarkSelectedDone(tasks[1..], selected, now);
      MarkSelectedDoneCount(tasks[1..], selected, now);
    }
  }

  /** What the badge effect does (lines 111-126). */
  datatype BadgeAction = SetBadge(count: nat) | ClearBadge | NoAction

  /**
   * Lines 111-126: without badge support nothing happens; with the setting
   * off the badge is cleared; with it on and notifications permitted the
   * badge shows the incomplete count; otherwise nothing happens.
   */
  function Badge(supported: bool, appBadge: bool, permitted: bool, tasks: seq<Task>): (a: BadgeAction)
    ensures a.SetBadge? <==> supported && appBadge && permitted
    ensures a.SetBadge? ==> a.count == |tasks| - |Filter(tasks, IsDone)|
    ensures a.ClearBadge? <==> supported && !appBadge
  {
    if !supported then NoAction
    else if appBadge then (if permitted then SetBadge(IncompleteCount(tasks)) else NoAction)
    else ClearBadge
  }
}
