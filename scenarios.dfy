/** Worked examples of the task-list rules on small collections. */
module Scenarios {
  import opened Wrappers
  import opened Tasks
  import opened Sequences
  import opened Ordering
  import opened DragReorder
  import opened Overdue

  /** A collection with no pinned task is displayed as its one sorted group. */
  lemma UnpinnedOnly(s: seq<Task>, opt: SortOption, collate: (string, string) -> int)
    requires forall i :: 0 <= i < |s| ==> !s[i].pinned
    ensures Reorder(s, opt, collate, false) == SortGroup(opt, collate, s)
  {
    FilterNone(s, IsPinned);
    FilterAll(s, IsUnpinned);
  }

  lemma SortOne(opt: SortOption, collate: (string, string) -> int, a: Task)
    requires !opt.Other?
    ensures InsertionSort(opt, collate, [a]) == [a]
  {
    assert [a][..0] == [];
  }

  /** Sorting a sequence with one more task at the end inserts that task into the sorted rest. */
  lemma InsertionSortSnoc(opt: SortOption, collate: (string, string) -> int, s: seq<Task>, x: Task)
    requires !opt.Other?
    ensures InsertionSort(opt, collate, s + [x]) == Insert(opt, collate, x, InsertionSort(opt, collate, s))
  {
    var t := s + [x];
    assert t[..|t| - 1] == s && t[|t| - 1] == x;
  }

  lemma SortTwo(opt: SortOption, collate: (string, string) -> int, a: Task, b: Task)
    requires !opt.Other?
    ensures InsertionSort(opt, collate, [a, b]) == Insert(opt, collate, b, [a])
  {
    assert [a, b] == [a] + [b];
    InsertionSortSnoc(opt, collate, [a], b);
    SortOne(opt, collate, a);
  }

  lemma SortThree(opt: SortOption, collate: (string, string) -> int, a: Task, b: Task, c: Task)
    requires !opt.Other?
    ensures InsertionSort(opt, collate, [a, b, c]) == Insert(opt, collate, c, Insert(opt, collate, b, [a]))
  {
    var ab := [a, b];
    SortTwo(opt, collate, a, b);
    InsertionSortSnoc(opt, collate, ab, c);
    assert ab + [c] == [a, b, c];
  }

  /** A task that compares below the head of a sorted group goes in front of it. */
  lemma InsertFront(opt: SortOption, collate: (string, string) -> int, x: Task, s: seq<Task>)
    requires !opt.Other? && s != [] && Compare(opt, collate, x, s[0]) < 0
    ensures Insert(opt, collate, x, s) == [x] + s
  {
  }

  /** A task that does not compare below the head of a sorted group goes behind it. */
  lemma InsertBehind(opt: SortOption, collate: (string, string) -> int, x: Task, s: seq<Task>)
    requires !opt.Other? && s != [] && Compare(opt, collate, x, s[0]) >= 0
    ensures Insert(opt, collate, x, s) == [s[0]] + Insert(opt, collate, x, s[1..])
  {
  }

  /** Sorting A, B, C with positions 2, 0, 1 in custom mode gives B, C, A. */
  lemma CustomSortExample(collate: (string, string) -> int, a: Task, b: Task, c: Task)
    requires a.position == Some(2) && b.position == Some(0) && c.position == Some(1)
    ensures SortGroup(Custom, collate, [a, b, c]) == [b, c, a]
  {
    SortThree(Custom, collate, a, b, c);
    CustomStep1(collate, a, b);
    CustomStep2(collate, a, b, c);
  }

  /** Custom mode: position 0 goes in front of position 2. */
  lemma CustomStep1(collate: (string, string) -> int, a: Task, b: Task)
    requires a.position == Some(2) && b.position == Some(0)
    ensures Insert(Custom, collate, b, [a]) == [b, a]
  {
    InsertFront(Custom, collate, b, [a]);
  }
  /** Custom mode: position 1 goes between positions 0 and 2. */
  lemma CustomStep2(collate: (string, string) -> int, a: Task, b: Task, c: Task)
    requires a.position == Some(2) && b.position == Some(0) && c.position == Some(1)
    ensures Insert(Custom, collate, c, [b, a]) == [b, c, a]
  {
    InsertBehind(Custom, collate, c, [b, a]);
    assert [b, a][1..] == [a];
    InsertFront(Custom, collate, c, [a]);
  }

  /** Custom mode with positions 2, 0, 1 on A, B, C shows B, C, A. */
  lemma CustomPositionsExample(collate: (string, string) -> int, a: Task, b: Task, c: Task)
    requires !a.pinned && !b.pinned && !c.pinned
    requires a.position == Some(2) && b.position == Some(0) && c.position == Some(1)
    ensures Reorder([a, b, c], Custom, collate, false) == [b, c, a]
  {
    UnpinnedOnly([a, b, c], Custom, collate);
    CustomSortExample(collate, a, b, c);
  }

  /** Due-date mode on A (no deadline), B (2025-01-01) and C (2024-01-01) shows C, B, A. */
  lemma DueDateExample(collate: (string, string) -> int, a: Task, b: Task, c: Task)
    requires !a.pinned && !b.pinned && !c.pinned
    requires a.deadline == None && b.deadline == Some(1735689600000) && c.deadline == Some(1704067200000)
    ensures Reorder([a, b, c], DueDate, collate, false) == [c, b, a]
  {
    UnpinnedOnly([a, b, c], DueDate, collate);
    DueDateSortExample(collate, a, b, c);
  }

  /** Sorting A (no deadline), B (2025-01-01), C (2024-01-01) in due-date mode gives C, B, A. */
  lemma DueDateSortExample(collate: (string, string) -> int, a: Task, b: Task, c: Task)
    requires a.deadline == None && b.deadline == Some(1735689600000) && c.deadline == Some(1704067200000)
    ensures SortGroup(DueDate, collate, [a, b, c]) == [c, b, a]
  {
    SortThree(DueDate, collate, a, b, c);
    DueDateStep1(collate, a, b);
    DueDateStep2(collate, a, b, c);
  }

  /** Due-date mode: a dated task goes in front of one without a deadline. */
  lemma DueDateStep1(collate: (string, string) -> int, a: Task, b: Task)
    requires a.deadline == None && b.deadline == Some(1735689600000)
    ensures Insert(DueDate, collate, b, [a]) == [b, a]
  {
    InsertFront(DueDate, collate, b, [a]);
  }

  /** Due-date mode: the earlier deadline goes in front of the later one. */
  lemma DueDateStep2(collate: (string, string) -> int, a: Task, b: Task, c: Task)
    requires b.deadline == Some(1735689600000) && c.deadline == Some(1704067200000)
    ensures Insert(DueDate, collate, c, [b, a]) == [c, b, a]
  {
    InsertFront(DueDate, collate, c, [b, a]);
  }

  /** Dragging the first of four (A, B, C, D) onto the third shows B, C, A, D. */
  lemma DragMoveExample<T>(s: seq<T>)
    requires |s| == 4
    ensures ArrayMove(s, 0, 2) == [s[1], s[2], s[0], s[3]]
  {
    ArrayMoveShifts(s, 0, 2);
  }

  /** Writing back the order B, C, A, D stores positions A=2, B=0, C=1, D=3. */
  lemma DragPositionsExample(a: Task, b: Task, c: Task, d: Task, now: int)
    requires UniqueIds([b, c, a, d])
    ensures AssignPositions([a, b, c, d], [b, c, a, d], now)
         == [a.(position := Some(2), lastSave := now), b.(position := Some(0), lastSave := now),
             c.(position := Some(1), lastSave := now), d.(position := Some(3), lastSave := now)]
  {
    var moved := [b, c, a, d];
    FindIndexUnique(moved, 0);
    FindIndexUnique(moved, 1);
    FindIndexUnique(moved, 2);
    FindIndexUnique(moved, 3);
  }

  /** X past its deadline and open, Y past its deadline and done: one notice naming X alone. */
  lemma OverdueExample(x: Task, y: Task, now: int, path: string)
    requires path != "/share"
    requires x.deadline == Some(now - 86400000) && !x.done
    requires y.deadline == Some(now - 86400000) && y.done
    ensures CheckOverdue([x, y], now, path) == Some(Notice([x.name], false))
  {
    var keep := (t: Task) => IsOverdue(now, t);
    assert [x, y][1..] == [y] && [y][1..] == [];
    assert Filter([y], keep) == [];
    assert OverdueTasks([x, y], now) == [x];
    assert Names([x]) == [x.name];
  }
}
