/**
 * The write-back of a drag-and-drop reorder (`handleDragEnd`): look both
 * tasks up in the displayed order, move the dragged one, and give every task
 * the index it now has as its `position`.
 */
module DragReorder {
  import opened Wrappers
  import opened Tasks

  /** `findIndex` by id: the first index whose task carries `id`, or -1 when there is none. */
  function FindIndex(s: seq<Task>, id: TaskId): (k: int)
    ensures -1 <= k < |s|
    ensures k == -1 <==> forall i :: 0 <= i < |s| ==> s[i].id != id
    ensures k >= 0 ==> s[k].id == id && forall i :: 0 <= i < k ==> s[i].id != id
  {
    if s == [] then -1
    else if s[0].id == id then 0
    else
      var k := FindIndex(s[1..], id);
      if k == -1 then -1 else k + 1
  }

  /** In a collection with unique ids, a task's id is found at that task's index. */
  lemma FindIndexUnique(s: seq<Task>, p: int)
    requires UniqueIds(s) && 0 <= p < |s|
    ensures FindIndex(s, s[p].id) == p
  {
  }

  /** The sequence without its element at `i`. */
  function RemoveAt<T>(s: seq<T>, i: nat): (r: seq<T>)
    requires i < |s|
    ensures |r| == |s| - 1
    ensures multiset(r) + multiset{s[i]} == multiset(s)
  {
    assert s == s[..i] + [s[i]] + s[i + 1..];
    s[..i] + s[i + 1..]
  }

  /**
   * `arrayMove` of dnd-kit: the element at `from` is taken out and put back
   * so that it ends up at index `to`; the other elements keep their order.
   */
  function ArrayMove<T>(s: seq<T>, from: nat, to: nat): (r: seq<T>)
    requires from < |s| && to < |s|
    ensures |r| == |s| && r[to] == s[from]
    ensures RemoveAt(r, to) == RemoveAt(s, from)
    ensures multiset(r) == multiset(s)
  {
    var rest := RemoveAt(s, from);
    var r := rest[..to] + [s[from]] + rest[to..];
    assert r[..to] == rest[..to] && r[to + 1..] == rest[to..];
    assert rest == rest[..to] + rest[to..];
    r
  }

  /** Elements outside the span between `from` and `to` stay put; those inside shift by one towards `from`. */
  lemma ArrayMoveShifts<T>(s: seq<T>, from: nat, to: nat)
    requires from < |s| && to < |s|
    ensures var r := ArrayMove(s, from, to);
            && (forall k :: 0 <= k < |s| && ((k < from && k < to) || (k > from && k > to)) ==> r[k] == s[k])
            && (from < to ==> forall k :: from <= k < to ==> r[k] == s[k + 1])
            && (to < from ==> forall k :: to < k <= from ==> r[k] == s[k - 1])
  {
    var r := ArrayMove(s, from, to);
    var rest := RemoveAt(s, from);
    assert rest == s[..from] + s[from + 1..];
    assert forall k :: 0 <= k < from ==> rest[k] == s[k];
    assert forall k :: from <= k < |rest| ==> rest[k] == s[k + 1];
    assert r == rest[..to] + [s[from]] + rest[to..];
    assert forall k :: 0 <= k < to ==> r[k] == rest[k];
    assert forall k :: to < k < |r| ==> r[k] == rest[k - 1];
  }

  /** The task with the position it has in `ordered` and a fresh `lastSave`, or the task itself when `ordered` lacks it. */
  function Place(t: Task, ordered: seq<Task>, now: int): Task
  {
    var idx := FindIndex(ordered, t.id);
    if idx != -1 then t.(position := Some(idx), lastSave := now) else t
  }

  /** Lines 348-351: every task of the collection, in the collection's own order, placed by `ordered`. */
  function AssignPositions(tasks: seq<Task>, ordered: seq<Task>, now: int): (r: seq<Task>)
    ensures |r| == |tasks|
  {
    seq(|tasks|, i requires 0 <= i < |tasks| => Place(tasks[i], ordered, now))
  }

  /** `b` is `a` with at most its `position` and `lastSave` changed. */
  predicate SameExceptPlacement(a: Task, b: Task) {
    b == a.(position := b.position, lastSave := b.lastSave)
  }

  /**
   * The write-back keeps the collection's order and every field but
   * `position` and `lastSave`; a task found in `ordered` gets the index of its
   * id there and a fresh `lastSave` whether or not its position moved, and a
   * task not found is left as it was.
   */
  lemma AssignPositionsEffect(tasks: seq<Task>, ordered: seq<Task>, now: int)
    ensures var r := AssignPositions(tasks, ordered, now);
            forall i :: 0 <= i < |tasks| ==>
              && SameExceptPlacement(tasks[i], r[i])
              && (if exists k :: 0 <= k < |ordered| && ordered[k].id == tasks[i].id
                  then r[i].lastSave == now && r[i].position.Some?
                       && 0 <= r[i].position.value < |ordered|
                       && ordered[r[i].position.value].id == tasks[i].id
                  else r[i] == tasks[i])
  {
  }

  /** Every task has a position, no two share one, and together they are 0 .. n-1. */
  ghost predicate DensePlacement(r: seq<Task>) {
    && (forall i :: 0 <= i < |r| ==> r[i].position.Some? && 0 <= r[i].position.value < |r|)
    && (forall i, j :: 0 <= i < |r| && 0 <= j < |r| && r[i].position == r[j].position ==> i == j)
    && (forall p :: 0 <= p < |r| ==> PositionTaken(r, p))
  }

  /** Some task of `r` has position `p`. */
  ghost predicate PositionTaken(r: seq<Task>, p: int) {
    exists i :: 0 <= i < |r| && r[i].position == Some(p)
  }

  /**
   * When `ordered` is a rearrangement of a collection with unique ids, the
   * write-back gives every task a position, the positions are pairwise
   * distinct, and together they are exactly 0 .. n-1.
   */
  lemma DensePositions(tasks: seq<Task>, ordered: seq<Task>, now: int)
    requires UniqueIds(tasks) && multiset(ordered) == multiset(tasks)
    ensures var r := AssignPositions(tasks, ordered, now);
            && |ordered| == |r|
            && DensePlacement(r)
            && (forall i :: 0 <= i < |r| ==>
                  r[i].lastSave == now && ordered[r[i].position.value].id == tasks[i].id)
  {
    var r := AssignPositions(tasks, ordered, now);
    assert |ordered| == |tasks| by {
      assert |multiset(ordered)| == |multiset(tasks)|;
    }
    PlacedAtOwnSlot(tasks, ordered, now);
    PlacementOnto(tasks, ordered, now);
  }

  /** Each task of a rearranged collection is placed at the slot that holds its id. */
  lemma PlacedAtOwnSlot(tasks: seq<Task>, ordered: seq<Task>, now: int)
    requires multiset(ordered) == multiset(tasks)
    ensures var r := AssignPositions(tasks, ordered, now);
            forall i :: 0 <= i < |r| ==>
              && r[i].position.Some? && 0 <= r[i].position.value < |ordered| && r[i].lastSave == now
              && ordered[r[i].position.value].id == tasks[i].id
  {
    var r := AssignPositions(tasks, ordered, now);
    forall i | 0 <= i < |r|
      ensures r[i].position.Some? && 0 <= r[i].position.value < |ordered| && r[i].lastSave == now
      ensures ordered[r[i].position.value].id == tasks[i].id
    {
      assert tasks[i] in multiset(ordered);
      var k :| 0 <= k < |ordered| && ordered[k] == tasks[i];
    }
  }

  /** Every slot of a rearranged collection with unique ids is some task's position. */
  lemma PlacementOnto(tasks: seq<Task>, ordered: seq<Task>, now: int)
    requires UniqueIds(tasks) && multiset(ordered) == multiset(tasks)
    ensures forall p :: 0 <= p < |ordered| ==> PositionTaken(AssignPositions(tasks, ordered, now), p)
  {
    var r := AssignPositions(tasks, ordered, now);
    UniqueIdsPermutation(tasks, ordered);
    forall p | 0 <= p < |ordered| ensures PositionTaken(r, p) {
      assert ordered[p] in multiset(tasks);
      var i :| 0 <= i < |tasks| && tasks[i] == ordered[p];
      FindIndexUnique(ordered, p);
      assert r[i].position == Some(p);
    }
  }

  /** After the move, the dragged task's `position` is the index it was dropped at. */
  lemma DraggedTaskLandsAtTarget(tasks: seq<Task>, ordered: seq<Task>, from: nat, to: nat, now: int)
    requires UniqueIds(tasks) && multiset(ordered) == multiset(tasks)
    requires from < |ordered| && to < |ordered|
    ensures var r := AssignPositions(tasks, ArrayMove(ordered, from, to), now);
            forall i :: 0 <= i < |tasks| && tasks[i].id == ordered[from].id ==> r[i].position == Some(to)
  {
    var moved := ArrayMove(ordered, from, to);
    UniqueIdsPermutation(tasks, moved);
    DensePositions(tasks, moved, now);
  }

  /**
   * What a completed drag writes back: the same tasks with the same ids,
   * all saved now, with dense positions, ids still unique, and the dragged
   * task placed at the drop index.
   */
  lemma DragWriteBack(tasks: seq<Task>, ordered: seq<Task>, from: nat, to: nat, now: int)
    requires UniqueIds(tasks) && multiset(ordered) == multiset(tasks)
    requires from < |ordered| && to < |ordered|
    ensures var r := AssignPositions(tasks, ArrayMove(ordered, from, to), now);
            && |r| == |tasks|
            && (forall i :: 0 <= i < |r| ==> r[i].id == tasks[i].id && r[i].lastSave == now)
            && DensePlacement(r)
            && UniqueIds(r)
            && (forall i :: 0 <= i < |r| && r[i].id == ordered[from].id ==> r[i].position == Some(to))
  {
    var moved := ArrayMove(ordered, from, to);
    DensePositions(tasks, moved, now);
    DraggedTaskLandsAtTarget(tasks, ordered, from, to, now);
    AssignPositionsEffect(tasks, moved, now);
  }
}
