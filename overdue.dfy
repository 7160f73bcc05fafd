/**
 * The overdue check the task list runs once, when it is first shown, on
 * the collection it starts with: which tasks are overdue and the notice
 * that lists them. The current time and the route are parameters; the
 * toast itself is not modelled.
 */
module Overdue {
  import opened Wrappers
  import opened Tasks
  import opened Sequences

  /** A task is overdue when it has a deadline, that deadline has passed and it is not done. */
  predicate IsOverdue(now: int, t: Task) {
    t.deadline.Some? && now > t.deadline.value && !t.done
  }

  /** Lines 292-294: the overdue tasks, in collection order. */
  function OverdueTasks(tasks: seq<Task>, now: int): (r: seq<Task>)
    ensures forall t :: t in r <==> t in tasks && IsOverdue(now, t)
    ensures IsSubsequence(r, tasks)
    ensures multiset(r) <= multiset(tasks)
  {
    FilterContainsAll(tasks, (t: Task) => IsOverdue(now, t));
    FilterSubMultiset(tasks, (t: Task) => IsOverdue(now, t));
    FilterSubsequence(tasks, (t: Task) => IsOverdue(now, t));
    Filter(tasks, (t: Task) => IsOverdue(now, t))
  }

  /** The names of a list of tasks, in the same order. */
  function Names(tasks: seq<Task>): (r: seq<string>)
    ensures |r| == |tasks| && forall i :: 0 <= i < |tasks| ==> r[i] == tasks[i].name
  {
    seq(|tasks|, i requires 0 <= i < |tasks| => tasks[i].name)
  }

  /** The toast's content: the names to list and whether the heading says "tasks" rather than "task". */
  datatype Notice = Notice(names: seq<string>, plural: bool)

  /** Lines 286-301: no notice on the share route or when nothing is overdue; otherwise every overdue name. */
  function CheckOverdue(tasks: seq<Task>, now: int, path: string): (n: Option<Notice>)
    ensures n.Some? <==> path != "/share" && exists t :: t in tasks && IsOverdue(now, t)
    ensures n.Some? ==> n.value.names == Names(OverdueTasks(tasks, now))
    ensures n.Some? ==> (n.value.plural <==> |n.value.names| > 1)
  {
    if path == "/share" then None
    else
      var overdue := OverdueTasks(tasks, now);
      if |overdue| > 0 then
        assert overdue[0] in overdue;
        Some(Notice(Names(overdue), |overdue| > 1))
      else
        assert forall t :: t in tasks && IsOverdue(now, t) ==> t in overdue;
        None
  }
}
