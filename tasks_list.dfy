/**
 * The task-list component's state and its event handlers. The collection and
 * the tombstone list belong to the user record; the multi-selection and the
 * context menu's task id are component state. Each handler reassigns the
 * fields it changes.
 */
module TasksList {
  import opened Wrappers
  import opened Tasks
  import opened Sequences
  import opened Ordering
  import opened DragReorder
  import opened BulkActions

  /** `DragWriteBack` for a drag over the displayed order of `tasks`. */
  lemma DisplayedDragWriteBack(tasks: seq<Task>, opt: SortOption, collate: (string, string) -> int, doneToBottom: bool,
                               from: nat, to: nat, now: int)
    requires UniqueIds(tasks)
    requires var ordered := Reorder(tasks, opt, collate, doneToBottom); from < |ordered| && to < |ordered|
    ensures var ordered := Reorder(tasks, opt, collate, doneToBottom);
            var r := AssignPositions(tasks, ArrayMove(ordered, from, to), now);
            && |r| == |tasks|
            && (forall i :: 0 <= i < |r| ==> r[i].id == tasks[i].id && r[i].lastSave == now)
            && DensePlacement(r)
            && UniqueIds(r)
            && (forall i :: 0 <= i < |r| && r[i].id == ordered[from].id ==> r[i].position == Some(to))
  {
    ReorderPermutation(tasks, opt, collate, doneToBottom);
    DragWriteBack(tasks, Reorder(tasks, opt, collate, doneToBottom), from, to, now);
  }

  class TasksListState {
    /** The user's tasks, in stored order. */
    var tasks: seq<Task>
    /** Ids of deleted tasks, kept so that a sync does not bring them back. */
    var deletedTasks: seq<TaskId>
    /** The ids ticked in multi-select mode, in the order they were ticked. */
    var selected: seq<TaskId>
    /** The task the context menu was opened on. */
    var selectedTaskId: Option<TaskId>
    var sortOption: SortOption
    var doneToBottom: bool
    /** The collation used by the alphabetical mode (`localeCompare`). */
    const collate: (string, string) -> int

    /** The invariant every handler keeps: task ids are unique. */
    ghost predicate Valid()
      reads this
    {
      UniqueIds(tasks)
    }

    /** The order the list is displayed in (`orderedTasks`). */
    function Ordered(): seq<Task>
      reads this
    {
      Reorder(tasks, sortOption, collate, doneToBottom)
    }

    constructor (tasks: seq<Task>, deletedTasks: seq<TaskId>, selected: seq<TaskId>,
                 selectedTaskId: Option<TaskId>, sortOption: SortOption, doneToBottom: bool,
                 collate: (string, string) -> int)
      requires UniqueIds(tasks)
      ensures Valid()
      ensures this.tasks == tasks && this.deletedTasks == deletedTasks
      ensures this.selected == selected && this.selectedTaskId == selectedTaskId
      ensures this.sortOption == sortOption && this.doneToBottom == doneToBottom && this.collate == collate
    {
      this.tasks := tasks;
      this.deletedTasks := deletedTasks;
      this.selected := selected;
      this.selectedTaskId := selectedTaskId;
      this.sortOption := sortOption;
      this.doneToBottom := doneToBottom;
      this.collate := collate;
    }

    /**
     * Lines 338-354: nothing happens when the drop has no target, the target
     * is the dragged task, or either is missing from the displayed order.
     * Otherwise the displayed order is rearranged by moving the dragged task
     * to the target's index, and every task gets its index in that order as
     * its position. The positions are then 0 .. n-1, each used once, and the
     * dragged task's position is the target's former index.
     */
    method DragEnd(activeId: TaskId, overId: Option<TaskId>, now: int)
      requires Valid()
      modifies this
      ensures Valid()
      ensures deletedTasks == old(deletedTasks) && selected == old(selected) && selectedTaskId == old(selectedTaskId)
      ensures sortOption == old(sortOption) && doneToBottom == old(doneToBottom)
      ensures var from := FindIndex(old(Ordered()), activeId);
              var to := if overId.Some? then FindIndex(old(Ordered()), overId.value) else -1;
              if overId.None? || overId.value == activeId || from == -1 || to == -1 then
                tasks == old(tasks)
              else
                && tasks == AssignPositions(old(tasks), ArrayMove(old(Ordered()), from, to), now)
                && (forall i :: 0 <= i < |tasks| ==> tasks[i].id == old(tasks)[i].id && tasks[i].lastSave == now)
                && DensePlacement(tasks)
                && (forall i :: 0 <= i < |tasks| && tasks[i].id == activeId ==> tasks[i].position == Some(to))
    {
      if overId.None? || overId.value == activeId {
        return;
      }
      var ordered := Ordered();
      var oldIndex := FindIndex(ordered, activeId);
      var newIndex := FindIndex(ordered, overId.value);
      if oldIndex == -1 || newIndex == -1 {
        return;
      }
      var newOrdered := ArrayMove(ordered, oldIndex, newIndex);
      DisplayedDragWriteBack(tasks, sortOption, collate, doneToBottom, oldIndex, newIndex, now);
      assert ordered[oldIndex].id == activeId;
      tasks := AssignPositions(tasks, newOrdered, now);
    }

    /** Lines 230-242: the selected tasks become done and the selection is cleared. */
    method MarkSelectedAsDone(now: int)
      requires Valid()
      modifies this
      ensures Valid()
      ensures tasks == MarkSelectedDone(old(tasks), old(selected), now)
      ensures selected == []
      ensures deletedTasks == old(deletedTasks) && selectedTaskId == old(selectedTaskId)
      ensures sortOption == old(sortOption) && doneToBottom == old(doneToBottom)
    {
      tasks := MarkSelectedDone(tasks, selected, now);
      selected := [];
    }

    /**
     * Lines 595-607: the selected tasks leave the collection, their ids join
     * the tombstones unless already there, and the selection is cleared.
     */
    method DeleteSelected()
      requires Valid()
      modifies this
      ensures Valid()
      ensures tasks == RemainingAfterDelete(old(tasks), old(selected))
      ensures IsSubsequence(tasks, old(tasks))
      ensures deletedTasks == TombstonesAfterDelete(old(deletedTasks), old(selected))
      ensures selected == []
      ensures selectedTaskId == old(selectedTaskId)
      ensures sortOption == old(sortOption) && doneToBottom == old(doneToBottom)
    {
      tasks := RemainingAfterDelete(tasks, selected);
      deletedTasks := TombstonesAfterDelete(deletedTasks, selected);
      selected := [];
    }

    /** Lines 454-457: one id leaves the selection. */
    method DeselectTask(id: TaskId)
      modifies this
      ensures selected == Deselect(old(selected), id)
      ensures tasks == old(tasks) && deletedTasks == old(deletedTasks) && selectedTaskId == old(selectedTaskId)
      ensures sortOption == old(sortOption) && doneToBottom == old(doneToBottom)
    {
      selected := Deselect(selected, id);
    }

    /** Line 407: the cancel button empties the selection. */
    method ClearSelection()
      modifies this
      ensures selected == []
      ensures tasks == old(tasks) && deletedTasks == old(deletedTasks) && selectedTaskId == old(selectedTaskId)
      ensures sortOption == old(sortOption) && doneToBottom == old(doneToBottom)
    {
      selected := [];
    }

    /**
     * Lines 113-133: a click on a task's options button opens the menu on
     * that task, unless the click landed inside the task's description link,
     * which keeps the browser's own menu. Whether it did is the parameter
     * `onDescriptionLink`.
     */
    method OpenMenu(taskId: TaskId, onDescriptionLink: bool)
      modifies this
      ensures selectedTaskId == if onDescriptionLink then old(selectedTaskId) else Some(taskId)
      ensures tasks == old(tasks) && deletedTasks == old(deletedTasks) && selected == old(selected)
      ensures sortOption == old(sortOption) && doneToBottom == old(doneToBottom)
    {
      if onDescriptionLink {
        return;
      }
      selectedTaskId := Some(taskId);
    }

    /**
     * Lines 199-208: without a menu task id (missing or empty) nothing
     * happens; otherwise that task leaves the collection and its id is
     * appended to the tombstones, whether or not it is already there.
     */
    method ConfirmDeleteTask()
      requires Valid()
      modifies this
      ensures Valid()
      ensures if HasSelectedTaskId(old(selectedTaskId)) then
                && tasks == RemainingAfterSingleDelete(old(tasks), old(selectedTaskId).value)
                && IsSubsequence(tasks, old(tasks))
                && deletedTasks == old(deletedTasks) + [old(selectedTaskId).value]
              else
                tasks == old(tasks) && deletedTasks == old(deletedTasks)
      ensures selected == old(selected) && selectedTaskId == old(selectedTaskId)
      ensures sortOption == old(sortOption) && doneToBottom == old(doneToBottom)
    {
      if !HasSelectedTaskId(selectedTaskId) {
        return;
      }
      var id := selectedTaskId.value;
      tasks := RemainingAfterSingleDelete(tasks, id);
      deletedTasks := deletedTasks + [id];
    }
  }
}
