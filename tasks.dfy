/** The task record that every task-list operation reads and writes. */
module Tasks {
  import opened Wrappers

  type TaskId = string

  /**
   * A task. Timestamps (`date`, `deadline`, `lastSave`) are integers, in the
   * milliseconds that `Date.getTime()` gives. `position` is the manual order
   * used by the "custom" sort mode.
   */
  datatype Task = Task(
    id: TaskId,
    name: string,
    date: int,
    deadline: Option<int>,
    done: bool,
    pinned: bool,
    position: Option<int>,
    lastSave: int)

  predicate IsPinned(t: Task) { t.pinned }
  predicate IsUnpinned(t: Task) { !t.pinned }
  predicate IsDone(t: Task) { t.done }
  predicate IsNotDone(t: Task) { !t.done }

  /** No two tasks of the collection share an id. */
  ghost predicate UniqueIds(s: seq<Task>) {
    forall i, j :: 0 <= i < |s| && 0 <= j < |s| && s[i].id == s[j].id ==> i == j
  }

  /** An element that occurs at two distinct indices occurs at least twice in the multiset. */
  lemma {:induction false} TwiceInMultiset(s: seq<Task>, i: int, j: int)
    requires 0 <= i < j < |s| && s[i] == s[j]
    ensures multiset(s)[s[i]] >= 2
  {
    assert s == s[..j] + s[j..];
    assert s[i] == s[..j][i];
    assert s[j] == s[j..][0];
    assert multiset(s) == multiset(s[..j]) + multiset(s[j..]);
  }

  /** In a collection with unique ids every task occurs at most once. */
  lemma {:induction false} UniqueIdsOnce(s: seq<Task>, x: Task)
    requires UniqueIds(s)
    ensures multiset(s)[x] <= 1
  {
    if s != [] {
      assert s == [s[0]] + s[1..];
      assert UniqueIds(s[1..]) by {
        forall i, j | 0 <= i < |s[1..]| && 0 <= j < |s[1..]| && s[1..][i].id == s[1..][j].id
          ensures i == j
        {
          assert s[i + 1].id == s[j + 1].id;
        }
      }
      UniqueIdsOnce(s[1..], x);
      if x == s[0] {
        forall k | 0 <= k < |s[1..]| ensures s[1..][k] != x {
          assert s[1..][k] == s[k + 1];
        }
      }
    }
  }

  /** Two members of a collection with unique ids that share an id are the same task. */
  lemma SameIdSameTask(a: seq<Task>, x: Task, y: Task)
    requires UniqueIds(a) && x in a && y in a && x.id == y.id
    ensures x == y
  {
    var p :| 0 <= p < |a| && a[p] == x;
    var q :| 0 <= q < |a| && a[q] == y;
  }

  /** A rearrangement of a collection with unique ids has unique ids. */
  lemma UniqueIdsPermutation(a: seq<Task>, b: seq<Task>)
    requires UniqueIds(a) && multiset(a) == multiset(b)
    ensures UniqueIds(b)
  {
    forall i, j | 0 <= i < |b| && 0 <= j < |b| && b[i].id == b[j].id
      ensures i == j
    {
      if i != j {
        var lo, hi := if i < j then i else j, if i < j then j else i;
        assert b[lo] in multiset(a) && b[hi] in multiset(a);
        SameIdSameTask(a, b[lo], b[hi]);
        TwiceInMultiset(b, lo, hi);
        UniqueIdsOnce(a, b[lo]);
      }
    }
  }
}
