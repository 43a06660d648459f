/** The task table and the one-line task summary `task_line` (app.py lines 59-64). */
module Tasks {
  import opened Wrappers

  datatype Task = Task(
    taskId: string, product: string, team: string, capability: string,
    surface: string, entity: string, contract: string, kpiFamily: string,
    lever: string, goal: string, timelineStart: string, timelineEnd: string)

  /** The longest goal text a summary line shows. */
  const GoalWidth: nat := 80

  /** `tasks.set_index("task_id").loc[tid]`: the task with id `tid`, the first one if the
      id repeats; None when no task has that id. */
  function FindTask(tasks: seq<Task>, tid: string): (r: Option<Task>)
    ensures r.None? <==> forall t :: t in tasks ==> t.taskId != tid
    ensures r.Some? ==> r.value in tasks && r.value.taskId == tid
  {
    if tasks == [] then None
    else if tasks[0].taskId == tid then Some(tasks[0])
    else FindTask(tasks[1..], tid)
  }

  /** `s[:n]`: the first `n` characters, or all of `s` when it is shorter. */
  function Truncate(s: string, n: nat): (r: string)
    ensures r <= s
    ensures |r| == if |s| < n then |s| else n
  {
    if |s| <= n then s else s[..n]
  }

  /** `task_line`: "id · product/team · capability · goal[:80]" for a known id, the id
      itself for an unknown one. */
  function TaskLine(tasks: seq<Task>, tid: string): (line: string)
    ensures FindTask(tasks, tid).None? ==> line == tid
    ensures FindTask(tasks, tid).Some? ==>
      var goal := Truncate(FindTask(tasks, tid).value.goal, GoalWidth);
      tid <= line && |goal| <= GoalWidth && |goal| <= |line| && line[|line| - |goal|..] == goal
  {
    match FindTask(tasks, tid)
    case None => tid
    case Some(t) =>
      tid + " · " + t.product + "/" + t.team + " · " + t.capability + " · " + Truncate(t.goal, GoalWidth)
  }

  /** No two different tasks share an id. */
  predicate UniqueIds(tasks: seq<Task>)
  {
    forall u, v :: u in tasks && v in tasks && u.taskId == v.taskId ==> u == v
  }

  /** With unique ids, the summary line of a task starts with its id and ends with exactly
      the first min(80, |goal|) characters of its goal. */
  lemma KnownTaskLine(tasks: seq<Task>, t: Task)
    requires UniqueIds(tasks) && t in tasks
    ensures var line := TaskLine(tasks, t.taskId);
            var shown := if |t.goal| < GoalWidth then |t.goal| else GoalWidth;
            t.taskId <= line && shown <= |line| && line[|line| - shown..] == t.goal[..shown]
  {
    assert FindTask(tasks, t.taskId) == Some(t);
  }
}
