/**
 * The selection handlers of the task list: mark the selected tasks done,
 * delete the selected tasks with tombstones, deselect one id, and the
 * single-task delete of the context menu. Each maps the collection and the
 * id lists to their new values.
 */
module BulkActions {
  import opened Wrappers
  import opened Tasks
  import opened Sequences
  import Overdue

  /** Lines 233-239: each selected task becomes done with a fresh `lastSave`; the others stay as they were. */
  function MarkSelectedDone(tasks: seq<Task>, selected: seq<TaskId>, now: int): (r: seq<Task>)
    ensures |r| == |tasks|
    ensures forall i :: 0 <= i < |tasks| ==>
              && r[i].id == tasks[i].id
              && (r[i].done <==> tasks[i].done || tasks[i].id in selected)
              && (tasks[i].id in selected ==> r[i].lastSave == now && r[i].(done := false, lastSave := 0) == tasks[i].(done := false, lastSave := 0))
              && (tasks[i].id !in selected ==> r[i] == tasks[i])
  {
    seq(|tasks|, i requires 0 <= i < |tasks| =>
      if tasks[i].id in selected then tasks[i].(done := true, lastSave := now) else tasks[i])
  }

  /** Line 599: the tasks whose id is not selected, in their original order. */
  function RemainingAfterDelete(tasks: seq<Task>, selected: seq<TaskId>): (r: seq<Task>)
    ensures forall t :: t in r <==> t in tasks && t.id !in selected
    ensures IsSubsequence(r, tasks)
    ensures multiset(r) <= multiset(tasks)
    ensures UniqueIds(tasks) ==> UniqueIds(r)
  {
    FilterUniqueIds(tasks, (t: Task) => t.id !in selected);
    FilterContainsAll(tasks, (t: Task) => t.id !in selected);
    FilterSubMultiset(tasks, (t: Task) => t.id !in selected);
    FilterSubsequence(tasks, (t: Task) => t.id !in selected);
    Filter(tasks, (t: Task) => t.id !in selected)
  }

  /** Lines 600-603: the tombstones with the selected ids that are not yet among them appended, in selection order. */
  function TombstonesAfterDelete(deleted: seq<TaskId>, selected: seq<TaskId>): (r: seq<TaskId>)
    ensures |deleted| <= |r| && r[..|deleted|] == deleted
    ensures forall k :: |deleted| <= k < |r| ==> r[k] in selected && r[k] !in deleted
    ensures forall id :: id in r <==> id in deleted || id in selected
    ensures IsSubsequence(r[|deleted|..], selected)
    ensures NoDuplicates(selected) ==> NoDuplicates(r[|deleted|..])
    ensures NoDuplicates(deleted) && NoDuplicates(selected) ==> NoDuplicates(r)
  {
    var added := Filter(selected, id => id !in deleted);
    FilterContainsAll(selected, id => id !in deleted);
    FilterSubsequence(selected, id => id !in deleted);
    assert (deleted + added)[|deleted|..] == added;
    assert NoDuplicates(selected) ==> NoDuplicates(added) by {
      if NoDuplicates(selected) {
        FilterNoDuplicates(selected, id => id !in deleted);
      }
    }
    assert NoDuplicates(deleted) && NoDuplicates(added) ==> NoDuplicates(deleted + added) by {
      if NoDuplicates(deleted) && NoDuplicates(added) {
        ConcatNoDuplicates(deleted, added);
      }
    }
    deleted + added
  }

  /** Lines 455-456: the selection without `id`, otherwise in the same order. */
  function Deselect(selected: seq<TaskId>, id: TaskId): (r: seq<TaskId>)
    ensures forall x :: x in r <==> x in selected && x != id
    ensures |r| <= |selected|
    ensures IsSubsequence(r, selected)
  {
    FilterContainsAll(selected, x => x != id);
    FilterSubsequence(selected, x => x != id);
    Filter(selected, x => x != id)
  }

  /** Line 203: the collection without the task whose id is `id`. */
  function RemainingAfterSingleDelete(tasks: seq<Task>, id: TaskId): (r: seq<Task>)
    ensures forall t :: t in r <==> t in tasks && t.id != id
    ensures IsSubsequence(r, tasks)
    ensures multiset(r) <= multiset(tasks)
    ensures UniqueIds(tasks) ==> UniqueIds(r)
  {
    FilterUniqueIds(tasks, (t: Task) => t.id != id);
    FilterContainsAll(tasks, (t: Task) => t.id != id);
    FilterSubMultiset(tasks, (t: Task) => t.id != id);
    FilterSubsequence(tasks, (t: Task) => t.id != id);
    Filter(tasks, (t: Task) => t.id != id)
  }

  /** Line 200: the menu's task id is a JavaScript falsy value when it is missing or the empty string. */
  predicate HasSelectedTaskId(selectedTaskId: Option<TaskId>) {
    selectedTaskId.Some? && selectedTaskId.value != ""
  }

  /** Marking the selection done drops exactly the selected tasks from the overdue list. */
  lemma {:induction false} MarkSelectedDoneOverdue(tasks: seq<Task>, selected: seq<TaskId>, saved: int, now: int)
    ensures Overdue.OverdueTasks(MarkSelectedDone(tasks, selected, saved), now)
         == Filter(Overdue.OverdueTasks(tasks, now), (t: Task) => t.id !in selected)
  {
    var overdue := (t: Task) => Overdue.IsOverdue(now, t);
    var unselected := (t: Task) => t.id !in selected;
    if tasks != [] {
      var marked := MarkSelectedDone(tasks, selected, saved);
      assert marked[1..] == MarkSelectedDone(tasks[1..], selected, saved);
      MarkSelectedDoneOverdue(tasks[1..], selected, saved, now);
      var head := if overdue(tasks[0]) then [tasks[0]] else [];
      assert Filter(tasks, overdue) == head + Filter(tasks[1..], overdue);
      FilterConcat(head, Filter(tasks[1..], overdue), unselected);
    }
  }

  /** Filtering a collection with unique ids leaves a collection with unique ids. */
  lemma {:induction false} FilterUniqueIds(s: seq<Task>, keep: Task -> bool)
    ensures UniqueIds(s) ==> UniqueIds(Filter(s, keep))
  {
    if s != [] && UniqueIds(s) {
      assert UniqueIds(s[1..]) by {
        forall i, j | 0 <= i < |s[1..]| && 0 <= j < |s[1..]| && s[1..][i].id == s[1..][j].id ensures i == j {
          assert s[i + 1].id == s[j + 1].id;
        }
      }
      FilterUniqueIds(s[1..], keep);
      var tail := Filter(s[1..], keep);
      if keep(s[0]) {
        forall k | 0 <= k < |tail| ensures tail[k].id != s[0].id {
          FilterContains(s[1..], keep, tail[k]);
          var m :| 0 <= m < |s[1..]| && s[1..][m] == tail[k];
          assert s[m + 1] == tail[k];
        }
        assert Filter(s, keep) == [s[0]] + tail;
      }
    }
  }
}
