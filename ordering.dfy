/**
 * The display order of the task list (`reorderTasks`): pinned tasks first,
 * each group sorted by the selected sort option, and, when `doneToBottom` is
 * set, the done tasks of the unpinned group moved to its end.
 */
module Ordering {
  import opened Wrappers
  import opened Tasks
  import opened Sequences

  /** The sort preference; `Other` is any value the comparator switch does not recognise. */
  datatype SortOption = DateCreated | DueDate | Alphabetical | Custom | Other(name: string)

  /**
   * What the ordering needs of the string comparison that stands for
   * `localeCompare`: its sign is antisymmetric and "not after" is transitive.
   */
  ghost predicate IsCollation(collate: (string, string) -> int) {
    && (forall a, b :: collate(a, b) >= 0 ==> collate(b, a) <= 0)
    && (forall a, b, c :: collate(a, b) <= 0 && collate(b, c) <= 0 ==> collate(a, c) <= 0)
  }

  /** The sort option may be used with `collate`: only the alphabetical mode reads it. */
  ghost predicate Admissible(opt: SortOption, collate: (string, string) -> int) {
    opt.Alphabetical? ==> IsCollation(collate)
  }

  /**
   * The comparator passed to `Array.prototype.sort` for each recognised sort
   * option: negative puts `a` first, positive puts `b` first.
   */
  function Compare(opt: SortOption, collate: (string, string) -> int, a: Task, b: Task): int
    requires !opt.Other?
  {
    match opt
    case DateCreated => a.date - b.date
    case DueDate =>
      if a.deadline.None? then 1
      else if b.deadline.None? then -1
      else a.deadline.value - b.deadline.value
    case Alphabetical => collate(a.name, b.name)
    case Custom =>
      if a.position.Some? && b.position.Some? then a.position.value - b.position.value
      else if a.position.None? && b.position.Some? then 1
      else if a.position.Some? && b.position.None? then -1
      else a.date - b.date
  }

  /**
   * The order each sort option promises: `a` may come before `b`.
   *  - dateCreated: ascending creation date;
   *  - dueDate: a task with a deadline before one without, ascending deadlines,
   *    and two tasks without a deadline in either order;
   *  - alphabetical: ascending by `collate`;
   *  - custom: ascending position, a defined position before an undefined one,
   *    and ascending creation date between two undefined positions;
   *  - an unrecognised option promises nothing.
   */
  predicate InOrder(opt: SortOption, collate: (string, string) -> int, a: Task, b: Task) {
    match opt
    case DateCreated => a.date <= b.date
    case DueDate => b.deadline.None? || (a.deadline.Some? && a.deadline.value <= b.deadline.value)
    case Alphabetical => collate(a.name, b.name) <= 0
    case Custom =>
      if a.position.Some? && b.position.Some? then a.position.value <= b.position.value
      else if a.position.Some? then true
      else if b.position.Some? then false
      else a.date <= b.date
    case Other(_) => true
  }

  ghost predicate Sorted(opt: SortOption, collate: (string, string) -> int, s: seq<Task>) {
    forall i, j :: 0 <= i < j < |s| ==> InOrder(opt, collate, s[i], s[j])
  }

  /** A negative comparison places `a` in order before `b`; a non-negative one places `b` in order before `a`. */
  lemma CompareAgrees(opt: SortOption, collate: (string, string) -> int, a: Task, b: Task)
    requires !opt.Other? && Admissible(opt, collate)
    ensures Compare(opt, collate, a, b) < 0 ==> InOrder(opt, collate, a, b)
    ensures Compare(opt, collate, a, b) >= 0 ==> InOrder(opt, collate, b, a)
  {
  }

  lemma InOrderTransitive(opt: SortOption, collate: (string, string) -> int, a: Task, b: Task, c: Task)
    requires Admissible(opt, collate)
    requires InOrder(opt, collate, a, b) && InOrder(opt, collate, b, c)
    ensures InOrder(opt, collate, a, c)
  {
  }

  /**
   * Stable insertion of `x` into the sorted prefix `s`: `x` goes in front of
   * the first element it compares strictly below, so it stays behind every
   * element it ties with.
   */
  function Insert(opt: SortOption, collate: (string, string) -> int, x: Task, s: seq<Task>): (r: seq<Task>)
    requires !opt.Other?
    ensures multiset(r) == multiset(s) + multiset{x}
  {
    if s == [] then [x]
    else if Compare(opt, collate, x, s[0]) < 0 then [x] + s
    else
      assert s == [s[0]] + s[1..];
      [s[0]] + Insert(opt, collate, x, s[1..])
  }

  /**
   * A stable sort with the comparator of `opt`. For a consistent comparator
   * every stable sort, JavaScript's included, gives this result.
   */
  function InsertionSort(opt: SortOption, collate: (string, string) -> int, s: seq<Task>): (r: seq<Task>)
    requires !opt.Other?
    ensures multiset(r) == multiset(s)
  {
    if s == [] then []
    else
      assert s == s[..|s| - 1] + [s[|s| - 1]];
      Insert(opt, collate, s[|s| - 1], InsertionSort(opt, collate, s[..|s| - 1]))
  }

  /** `sortTasks`: sort one group; an unrecognised option returns the group as it is. */
  function SortGroup(opt: SortOption, collate: (string, string) -> int, s: seq<Task>): (r: seq<Task>)
    ensures multiset(r) == multiset(s) && |r| == |s|
    ensures opt.Other? ==> r == s
  {
    assert |multiset(s)| == |s|;
    if opt.Other? then s else InsertionSort(opt, collate, s)
  }

  lemma {:induction false} InsertSorted(opt: SortOption, collate: (string, string) -> int, x: Task, s: seq<Task>)
    requires !opt.Other? && Admissible(opt, collate)
    requires Sorted(opt, collate, s)
    ensures Sorted(opt, collate, Insert(opt, collate, x, s))
  {
    var r := Insert(opt, collate, x, s);
    if s == [] {
    } else if Compare(opt, collate, x, s[0]) < 0 {
      CompareAgrees(opt, collate, x, s[0]);
      forall j | 0 < j < |r| ensures InOrder(opt, collate, r[0], r[j]) {
        if j > 1 {
          InOrderTransitive(opt, collate, x, s[0], s[j - 1]);
        }
      }
    } else {
      var tail := Insert(opt, collate, x, s[1..]);
      assert Sorted(opt, collate, s[1..]) by {
        forall i, j | 0 <= i < j < |s[1..]| ensures InOrder(opt, collate, s[1..][i], s[1..][j]) {
          assert s[1..][i] == s[i + 1] && s[1..][j] == s[j + 1];
        }
      }
      InsertSorted(opt, collate, x, s[1..]);
      CompareAgrees(opt, collate, x, s[0]);
      forall j | 0 <= j < |tail| ensures InOrder(opt, collate, s[0], tail[j]) {
        assert tail[j] in multiset(tail);
        if tail[j] != x {
          assert tail[j] in multiset(s[1..]);
          var k :| 0 <= k < |s[1..]| && s[1..][k] == tail[j];
          assert s[k + 1] == tail[j];
        }
      }
      assert r == [s[0]] + tail;
    }
  }

  lemma {:induction false} InsertionSortSorted(opt: SortOption, collate: (string, string) -> int, s: seq<Task>)
    requires !opt.Other? && Admissible(opt, collate)
    ensures Sorted(opt, collate, InsertionSort(opt, collate, s))
  {
    if s != [] {
      InsertionSortSorted(opt, collate, s[..|s| - 1]);
      InsertSorted(opt, collate, s[|s| - 1], InsertionSort(opt, collate, s[..|s| - 1]));
    }
  }

  /** Each group comes out in the order its sort option promises, and holds the same tasks as before. */
  lemma SortGroupSorted(opt: SortOption, collate: (string, string) -> int, s: seq<Task>)
    requires Admissible(opt, collate)
    ensures Sorted(opt, collate, SortGroup(opt, collate, s))
    ensures multiset(SortGroup(opt, collate, s)) == multiset(s)
  {
    if !opt.Other? {
      InsertionSortSorted(opt, collate, s);
    }
  }

  /** Keeping only some elements of a sorted sequence leaves it sorted. */
  lemma {:induction false} FilterSorted(opt: SortOption, collate: (string, string) -> int, s: seq<Task>, keep: Task -> bool)
    requires Sorted(opt, collate, s)
    ensures Sorted(opt, collate, Filter(s, keep))
  {
    if s != [] {
      assert Sorted(opt, collate, s[1..]) by {
        forall i, j | 0 <= i < j < |s[1..]| ensures InOrder(opt, collate, s[1..][i], s[1..][j]) {
          assert s[1..][i] == s[i + 1] && s[1..][j] == s[j + 1];
        }
      }
      FilterSorted(opt, collate, s[1..], keep);
      var tail := Filter(s[1..], keep);
      forall j | 0 <= j < |tail| ensures InOrder(opt, collate, s[0], tail[j]) {
        FilterContains(s[1..], keep, tail[j]);
        var k :| 0 <= k < |s[1..]| && s[1..][k] == tail[j];
        assert s[k + 1] == tail[j];
      }
    }
  }

  /** Lines 186-190: the not-done tasks of a group, then its done tasks, each in the order they had. */
  function MoveDoneToBottom(s: seq<Task>): (r: seq<Task>)
    ensures multiset(r) == multiset(s)
  {
    FilterSplit(s, IsNotDone, IsDone);
    Filter(s, IsNotDone) + Filter(s, IsDone)
  }

  /** The pinned tasks, sorted (line 183). */
  function PinnedGroup(tasks: seq<Task>, opt: SortOption, collate: (string, string) -> int): seq<Task>
  {
    SortGroup(opt, collate, Filter(tasks, IsPinned))
  }

  /** The unpinned tasks, sorted (line 182), then done-to-bottom when the setting is on (lines 186-190). */
  function UnpinnedGroup(tasks: seq<Task>, opt: SortOption, collate: (string, string) -> int, doneToBottom: bool): seq<Task>
  {
    var unpinned := SortGroup(opt, collate, Filter(tasks, IsUnpinned));
    if doneToBottom then MoveDoneToBottom(unpinned) else unpinned
  }

  /** `reorderTasks`: the pinned group, then the unpinned group. */
  function Reorder(tasks: seq<Task>, opt: SortOption, collate: (string, string) -> int, doneToBottom: bool): seq<Task>
  {
    PinnedGroup(tasks, opt, collate) + UnpinnedGroup(tasks, opt, collate, doneToBottom)
  }

  /** Every element of `s` satisfies `p`. */
  ghost predicate All(s: seq<Task>, p: Task -> bool) {
    forall i :: 0 <= i < |s| ==> p(s[i])
  }

  lemma AllPermutation(a: seq<Task>, b: seq<Task>, p: Task -> bool)
    requires All(a, p) && multiset(a) == multiset(b)
    ensures All(b, p)
  {
    forall i | 0 <= i < |b| ensures p(b[i]) {
      assert b[i] in multiset(a);
    }
  }

  /** The reordered list holds exactly the input tasks, each as often as before. */
  lemma ReorderPermutation(tasks: seq<Task>, opt: SortOption, collate: (string, string) -> int, doneToBottom: bool)
    ensures multiset(Reorder(tasks, opt, collate, doneToBottom)) == multiset(tasks)
    ensures |Reorder(tasks, opt, collate, doneToBottom)| == |tasks|
  {
    FilterSplit(tasks, IsPinned, IsUnpinned);
    assert |multiset(Reorder(tasks, opt, collate, doneToBottom))| == |multiset(tasks)|;
  }

  /** The pinned group holds every pinned task and only those; the unpinned group only unpinned tasks. */
  lemma GroupsShape(tasks: seq<Task>, opt: SortOption, collate: (string, string) -> int, doneToBottom: bool)
    ensures |PinnedGroup(tasks, opt, collate)| == |Filter(tasks, IsPinned)|
    ensures multiset(PinnedGroup(tasks, opt, collate)) == multiset(Filter(tasks, IsPinned))
    ensures multiset(UnpinnedGroup(tasks, opt, collate, doneToBottom)) == multiset(Filter(tasks, IsUnpinned))
    ensures All(PinnedGroup(tasks, opt, collate), IsPinned)
    ensures All(UnpinnedGroup(tasks, opt, collate, doneToBottom), IsUnpinned)
  {
    var unpinned := SortGroup(opt, collate, Filter(tasks, IsUnpinned));
    AllPermutation(Filter(tasks, IsPinned), PinnedGroup(tasks, opt, collate), IsPinned);
    AllPermutation(Filter(tasks, IsUnpinned), unpinned, IsUnpinned);
    AllPermutation(unpinned, UnpinnedGroup(tasks, opt, collate, doneToBottom), IsUnpinned);
  }

  /** Every pinned task comes before every unpinned task, for every sort option and flag. */
  lemma ReorderPinnedFirst(tasks: seq<Task>, opt: SortOption, collate: (string, string) -> int, doneToBottom: bool)
    ensures var out := Reorder(tasks, opt, collate, doneToBottom);
            forall i, j :: 0 <= i < j < |out| && out[j].pinned ==> out[i].pinned
  {
    GroupsShape(tasks, opt, collate, doneToBottom);
    PinnedBeforeUnpinned(PinnedGroup(tasks, opt, collate), UnpinnedGroup(tasks, opt, collate, doneToBottom));
  }

  lemma PinnedBeforeUnpinned(p: seq<Task>, r: seq<Task>)
    requires All(p, IsPinned) && All(r, IsUnpinned)
    ensures forall i, j :: 0 <= i < j < |p + r| && (p + r)[j].pinned ==> (p + r)[i].pinned
  {
    forall j | |p| <= j < |p + r| ensures !(p + r)[j].pinned {
      assert (p + r)[j] == r[j - |p|];
    }
    forall i | 0 <= i < |p| ensures (p + r)[i].pinned {
      assert (p + r)[i] == p[i];
    }
  }

  /** With `doneToBottom`, no unpinned not-done task follows an unpinned done task. */
  lemma ReorderDoneToBottom(tasks: seq<Task>, opt: SortOption, collate: (string, string) -> int)
    ensures var out := Reorder(tasks, opt, collate, true);
            forall i, j :: 0 <= i < j < |out| && !out[i].pinned && out[i].done ==> !out[j].pinned && out[j].done
  {
    var unpinned := SortGroup(opt, collate, Filter(tasks, IsUnpinned));
    var n, d := Filter(unpinned, IsNotDone), Filter(unpinned, IsDone);
    GroupsShape(tasks, opt, collate, true);
    assert UnpinnedGroup(tasks, opt, collate, true) == n + d;
    DoneAfterNotDone(PinnedGroup(tasks, opt, collate), n, d);
  }

  lemma DoneAfterNotDone(p: seq<Task>, n: seq<Task>, d: seq<Task>)
    requires All(p, IsPinned) && All(n + d, IsUnpinned) && All(n, IsNotDone) && All(d, IsDone)
    ensures var out := p + (n + d);
            forall i, j :: 0 <= i < j < |out| && !out[i].pinned && out[i].done ==> !out[j].pinned && out[j].done
  {
    var out := p + (n + d);
    forall i | 0 <= i < |p| ensures out[i].pinned {
      assert out[i] == p[i];
    }
    forall i | |p| <= i < |p| + |n| ensures !out[i].done {
      assert out[i] == n[i - |p|];
    }
    forall j | |p| + |n| <= j < |out| ensures out[j].done && !out[j].pinned {
      assert out[j] == d[j - |p| - |n|] == (n + d)[j - |p|];
    }
  }

  /** Two tasks that the ordering keeps in one group: same pin state and, under `doneToBottom`, unpinned ones with the same done state. */
  predicate SameGroup(doneToBottom: bool, a: Task, b: Task) {
    a.pinned == b.pinned && (doneToBottom && !a.pinned ==> a.done == b.done)
  }

  /** Any two tasks of one group appear in the order the sort option promises. */
  ghost predicate GroupsSorted(opt: SortOption, collate: (string, string) -> int, doneToBottom: bool, s: seq<Task>) {
    forall i, j :: 0 <= i < j < |s| && SameGroup(doneToBottom, s[i], s[j]) ==> InOrder(opt, collate, s[i], s[j])
  }

  /** Within each group the reordered list follows the order its sort option promises. */
  lemma ReorderGroupsSorted(tasks: seq<Task>, opt: SortOption, collate: (string, string) -> int, doneToBottom: bool)
    requires Admissible(opt, collate)
    ensures GroupsSorted(opt, collate, doneToBottom, Reorder(tasks, opt, collate, doneToBottom))
  {
    GroupsShape(tasks, opt, collate, doneToBottom);
    SortGroupSorted(opt, collate, Filter(tasks, IsPinned));
    var unpinned := SortGroup(opt, collate, Filter(tasks, IsUnpinned));
    SortGroupSorted(opt, collate, Filter(tasks, IsUnpinned));
    if doneToBottom {
      AllPermutation(Filter(tasks, IsUnpinned), unpinned, IsUnpinned);
      PartitionGroupsSorted(unpinned, opt, collate);
    }
    ConcatGroupsSorted(PinnedGroup(tasks, opt, collate), UnpinnedGroup(tasks, opt, collate, doneToBottom), opt, collate, doneToBottom);
  }

  lemma ConcatGroupsSorted(p: seq<Task>, r: seq<Task>, opt: SortOption, collate: (string, string) -> int, doneToBottom: bool)
    requires All(p, IsPinned) && All(r, IsUnpinned)
    requires Sorted(opt, collate, p) && GroupsSorted(opt, collate, doneToBottom, r)
    ensures GroupsSorted(opt, collate, doneToBottom, p + r)
  {
    var out := p + r;
    forall i, j | 0 <= i < j < |out| && SameGroup(doneToBottom, out[i], out[j])
      ensures InOrder(opt, collate, out[i], out[j])
    {
      if j < |p| {
        assert out[i] == p[i] && out[j] == p[j];
      } else if |p| <= i {
        assert out[i] == r[i - |p|] && out[j] == r[j - |p|];
      }
    }
  }

  /** The done-to-bottom partition of a sorted unpinned group keeps the group order on each side. */
  lemma PartitionGroupsSorted(s: seq<Task>, opt: SortOption, collate: (string, string) -> int)
    requires Sorted(opt, collate, s) && All(s, IsUnpinned)
    ensures GroupsSorted(opt, collate, true, MoveDoneToBottom(s))
  {
    var n, d := Filter(s, IsNotDone), Filter(s, IsDone);
    var r := MoveDoneToBottom(s);
    FilterSorted(opt, collate, s, IsNotDone);
    FilterSorted(opt, collate, s, IsDone);
    assert r == n + d;
    AllPermutation(s, r, IsUnpinned);
    forall i, j | 0 <= i < j < |r| && SameGroup(true, r[i], r[j])
      ensures InOrder(opt, collate, r[i], r[j])
    {
      if j < |n| {
        assert r[i] == n[i] && r[j] == n[j];
      } else if |n| <= i {
        assert r[i] == d[i - |n|] && r[j] == d[j - |n|];
      }
    }
  }

  /**
   * `doneToBottom` changes nothing about the pinned group, and turns the
   * unpinned group into its stable partition: not-done tasks, then done tasks.
   */
  lemma ReorderDoneFlag(tasks: seq<Task>, opt: SortOption, collate: (string, string) -> int)
    ensures var on, off := Reorder(tasks, opt, collate, true), Reorder(tasks, opt, collate, false);
            var k := |Filter(tasks, IsPinned)|;
            && k <= |on| && k <= |off|
            && on[..k] == off[..k]
            && on[k..] == Filter(off[k..], IsNotDone) + Filter(off[k..], IsDone)
  {
    var pinned := PinnedGroup(tasks, opt, collate);
    var unpinned := SortGroup(opt, collate, Filter(tasks, IsUnpinned));
    GroupsShape(tasks, opt, collate, true);
    var on, off := Reorder(tasks, opt, collate, true), Reorder(tasks, opt, collate, false);
    assert on == pinned + MoveDoneToBottom(unpinned) && off == pinned + unpinned;
    assert on[..|pinned|] == pinned == off[..|pinned|];
    assert on[|pinned|..] == MoveDoneToBottom(unpinned);
    assert off[|pinned|..] == unpinned;
  }

  /** An unrecognised sort option leaves each group in input order. */
  lemma ReorderUnrecognised(tasks: seq<Task>, name: string, collate: (string, string) -> int)
    ensures Reorder(tasks, Other(name), collate, false) == Filter(tasks, IsPinned) + Filter(tasks, IsUnpinned)
  {
  }
}
