/**
 * The task table and its repository (repositories/task_repository.py).
 *
 * The table is a sequence of rows in rowid order, which is the order SQLite
 * returns them in when a query has no ORDER BY. Each insert takes the
 * largest rowid in use plus one, as SQLite does for an INTEGER PRIMARY KEY
 * declared without the AUTOINCREMENT keyword.
 */
module TaskRepo {
  import opened Common
  import opened Seqs
  import opened Models

  /** Rowids grow along the table, so in particular they are distinct. */
  predicate IdsIncreasing(ts: seq<Task>) {
    forall i, j :: 0 <= i < j < |ts| ==> ts[i].id < ts[j].id
  }

  /** The rowid the next insert receives. */
  function NextId(ts: seq<Task>): (n: nat)
    ensures n >= 1
    ensures IdsIncreasing(ts) ==> forall i :: 0 <= i < |ts| ==> ts[i].id < n
  {
    if ts == [] then 1 else ts[|ts| - 1].id + 1
  }

  /** The table after inserting `draft`. */
  function Inserted(ts: seq<Task>, draft: Task): seq<Task> {
    ts + [draft.(id := NextId(ts))]
  }

  /** An insert keeps rowids increasing and gives the new row a larger id than every row before it. */
  lemma InsertedIds(ts: seq<Task>, draft: Task)
    requires IdsIncreasing(ts)
    ensures IdsIncreasing(Inserted(ts, draft))
    ensures forall i :: 0 <= i < |ts| ==> ts[i].id < Inserted(ts, draft)[|ts|].id
  {
  }

  /** Position of the row with the given id. */
  function IndexOf(ts: seq<Task>, id: int): (r: Option<nat>)
    ensures r.Some? ==> r.value < |ts| && ts[r.value].id == id
    ensures r.None? <==> forall i :: 0 <= i < |ts| ==> ts[i].id != id
  {
    if ts == [] then None
    else if ts[0].id == id then Some(0)
    else match IndexOf(ts[1..], id)
      case Some(k) => Some(k + 1)
      case None => None
  }

  /** With distinct ids, a row is found exactly at its own position. */
  lemma IndexOfAt(ts: seq<Task>, i: nat)
    requires IdsIncreasing(ts) && i < |ts|
    ensures IndexOf(ts, ts[i].id) == Some(i)
  {
  }

  /** `query(Task).filter(Task.id == id).first()`. */
  function Find(ts: seq<Task>, id: int): Option<Task> {
    match IndexOf(ts, id)
    case Some(i) => Some(ts[i])
    case None => None
  }

  /** Position of the first started, incomplete row. */
  function FirstActive(ts: seq<Task>): (r: Option<nat>)
    ensures r.Some? ==> r.value < |ts| && ts[r.value].IsActive()
    ensures r.Some? ==> forall i :: 0 <= i < r.value ==> !ts[i].IsActive()
    ensures r.None? <==> forall i :: 0 <= i < |ts| ==> !ts[i].IsActive()
  {
    if ts == [] then None
    else if ts[0].IsActive() then Some(0)
    else match FirstActive(ts[1..])
      case Some(k) => Some(k + 1)
      case None => None
  }

  /** At most one task is started and not completed. */
  predicate SingleActive(ts: seq<Task>) {
    forall i, j :: 0 <= i < |ts| && 0 <= j < |ts| && ts[i].IsActive() && ts[j].IsActive() ==> i == j
  }

  /** Every completed task has its completion time. */
  predicate EndsRecorded(ts: seq<Task>) {
    forall i :: 0 <= i < |ts| ==> ts[i].EndRecorded()
  }

  /** SQLite's ascending order on a nullable timestamp: NULL first. */
  predicate TimeLe(a: Option<Instant>, b: Option<Instant>) {
    match (a, b)
    case (None, _) => true
    case (Some(_), None) => false
    case (Some(x), Some(y)) => x <= y
  }

  /** ORDER BY scheduled_start_time. */
  predicate StartLe(a: Task, b: Task) {
    TimeLe(a.scheduledStart, b.scheduledStart)
  }

  /** ORDER BY priority DESC, due_date. */
  predicate PriorityDueLe(a: Task, b: Task) {
    a.priority > b.priority || (a.priority == b.priority && TimeLe(a.dueDate, b.dueDate))
  }

  lemma OrdersArePreorders()
    ensures TotalPreorder(StartLe)
    ensures TotalPreorder(PriorityDueLe)
  {
  }

  function AllOrdered(ts: seq<Task>): seq<Task> {
    SortBy(ts, PriorityDueLe)
  }

  predicate IsIncomplete(t: Task) {
    !t.completed
  }

  function Incomplete(ts: seq<Task>): seq<Task> {
    Filter(ts, IsIncomplete)
  }

  /** The incomplete rows keep their rowids increasing. */
  lemma IncompleteIdsIncreasing(ts: seq<Task>)
    requires IdsIncreasing(ts)
    ensures IdsIncreasing(Incomplete(ts))
  {
    var lt := (a: Task, b: Task) => a.id < b.id;
    assert SortedBy(ts, lt);
    FilterSorted(ts, IsIncomplete, lt);
    var r := Incomplete(ts);
    assert forall i, j :: 0 <= i < j < |r| ==> lt(r[i], r[j]);
  }

  function Scheduled(ts: seq<Task>): seq<Task> {
    SortBy(Filter(ts, (t: Task) => t.scheduledStart.Some?), StartLe)
  }

  /** The rows `get_scheduled` returns: exactly the scheduled ones, by start time. */
  lemma ScheduledContents(ts: seq<Task>)
    ensures forall t :: t in Scheduled(ts) <==> t in ts && t.scheduledStart.Some?
    ensures multiset(Scheduled(ts)) == multiset(Filter(ts, (t: Task) => t.scheduledStart.Some?))
    ensures SortedBy(Scheduled(ts), StartLe)
  {
    var f := Filter(ts, (t: Task) => t.scheduledStart.Some?);
    SortByMembers(f, StartLe);
    OrdersArePreorders();
    SortBySorted(f, StartLe);
  }

  /** The error a refused transition raises. */
  datatype TransitionError =
    | AlreadyCompleted(title: string)
    | OtherActive(activeTitle: string)
    | NotStarted(title: string)
  {
    /** The text of the ValueError. */
    function Message(): string {
      match this
      case AlreadyCompleted(t) => "Cannot start task: Task '" + t + "' is already completed"
      case OtherActive(t) => "Cannot start task: Another task '" + t + "' is already active"
      case NotStarted(t) => "Cannot complete task: Task '" + t + "' has not been started"
    }
  }

  /** The table after `start_task` on row `i`, or the error it raises. */
  function Start(ts: seq<Task>, i: nat, now: Instant): Result<seq<Task>, TransitionError>
    requires i < |ts|
  {
    var t := ts[i];
    if t.completed then Err(AlreadyCompleted(t.title))
    else if t.actualStart.Some? then Ok(ts)
    else match FirstActive(ts)
      case Some(a) =>
        if ts[a].id != t.id then Err(OtherActive(ts[a].title))
        else Ok(ts[i := t.(actualStart := Some(now))])
      case None => Ok(ts[i := t.(actualStart := Some(now))])
  }

  /** The table after `complete_task` on row `i`, or the error it raises. */
  function Complete(ts: seq<Task>, i: nat, now: Instant): Result<seq<Task>, TransitionError>
    requires i < |ts|
  {
    var t := ts[i];
    if t.actualStart.None? then Err(NotStarted(t.title))
    else Ok(ts[i := t.(completed := true, actualEnd := Some(now))])
  }

  /** `start_task` is refused exactly for a completed task, or for an unstarted one while another task is active. */
  lemma StartRefusedIff(ts: seq<Task>, i: nat, now: Instant)
    requires IdsIncreasing(ts) && i < |ts|
    ensures Start(ts, i, now).Err? <==>
      ts[i].completed || (ts[i].actualStart.None? && exists j :: 0 <= j < |ts| && j != i && ts[j].IsActive())
  {
    if !ts[i].completed && ts[i].actualStart.None? {
      match FirstActive(ts)
      case Some(a) =>
        assert a != i;
        assert ts[a].id != ts[i].id;
      case None =>
    }
  }

  /**
   * A successful `start_task` touches only `actual_start_time` of its own
   * row, and afterwards that task is the one and only active task.
   */
  lemma StartLeavesOneActive(ts: seq<Task>, i: nat, now: Instant)
    requires IdsIncreasing(ts) && SingleActive(ts) && i < |ts|
    requires Start(ts, i, now).Ok?
    ensures var r := Start(ts, i, now).value;
      && (r == ts || r == ts[i := ts[i].(actualStart := Some(now))])
      && (forall j :: 0 <= j < |r| ==> (r[j].IsActive() <==> j == i))
      && SingleActive(r)
  {
    StartRefusedIff(ts, i, now);
  }

  /** `start_task` on a started, incomplete task changes nothing. */
  lemma StartWhenStartedIsNoOp(ts: seq<Task>, i: nat, now: Instant)
    requires i < |ts| && ts[i].actualStart.Some? && !ts[i].completed
    ensures Start(ts, i, now) == Ok(ts)
  {
  }

  /**
   * `complete_task` is refused exactly for a never-started task; otherwise
   * the task is completed with its end time, leaves the active set, no task
   * becomes active, and both table invariants are kept.
   */
  lemma CompleteEffects(ts: seq<Task>, i: nat, now: Instant)
    requires i < |ts|
    ensures Complete(ts, i, now).Err? <==> ts[i].actualStart.None?
    ensures Complete(ts, i, now).Ok? ==>
      var r := Complete(ts, i, now).value;
      && |r| == |ts|
      && r[i].completed && r[i].actualEnd == Some(now) && !r[i].IsActive()
      && (forall j :: 0 <= j < |r| && j != i ==> r[j] == ts[j])
      && (forall j :: 0 <= j < |r| && r[j].IsActive() ==> ts[j].IsActive())
      && (EndsRecorded(ts) ==> EndsRecorded(r))
      && (SingleActive(ts) ==> SingleActive(r))
  {
  }

  /** The table after deleting row `i`. */
  function Removed(ts: seq<Task>, i: nat): seq<Task>
    requires i < |ts|
  {
    ts[..i] + ts[i + 1..]
  }

  /** Deleting removes exactly that task: it is no longer found, every other row stays. */
  lemma RemovedEffects(ts: seq<Task>, i: nat)
    requires IdsIncreasing(ts) && i < |ts|
    ensures IdsIncreasing(Removed(ts, i))
    ensures |Removed(ts, i)| == |ts| - 1
    ensures Find(Removed(ts, i), ts[i].id).None?
    ensures forall j :: 0 <= j < |ts| && j != i ==> ts[j] in Removed(ts, i)
    ensures forall t :: t in Removed(ts, i) ==> t in ts && t.id != ts[i].id
  {
    var r := Removed(ts, i);
    assert forall k :: 0 <= k < i ==> r[k] == ts[k];
    assert forall k :: i <= k < |r| ==> r[k] == ts[k + 1];
    forall j | 0 <= j < |ts| && j != i ensures ts[j] in r {
      if j < i { assert r[j] == ts[j]; } else { assert r[j - 1] == ts[j]; }
    }
    forall k | 0 <= k < |r| ensures r[k].id != ts[i].id {
      if k < i { assert r[k] == ts[k]; } else { assert r[k] == ts[k + 1]; }
    }
  }

  class TaskRepository {
    var tasks: seq<Task>

    ghost predicate Valid()
      reads this
    {
      IdsIncreasing(tasks)
    }

    constructor ()
      ensures Valid() && tasks == []
    {
      tasks := [];
    }

    /** All tasks, highest priority first, then by due date. */
    method GetAll() returns (r: seq<Task>)
      ensures multiset(r) == multiset(tasks)
      ensures SortedBy(r, PriorityDueLe)
      ensures r == AllOrdered(tasks)
    {
      r := AllOrdered(tasks);
      OrdersArePreorders();
      SortBySorted(tasks, PriorityDueLe);
    }

    method GetById(id: int) returns (r: Option<Task>)
      ensures r.Some? ==> r.value in tasks && r.value.id == id
      ensures r.None? <==> forall i :: 0 <= i < |tasks| ==> tasks[i].id != id
    {
      r := Find(tasks, id);
    }

    method GetIncomplete() returns (r: seq<Task>)
      ensures forall t :: t in r <==> t in tasks && !t.completed
      ensures r == Incomplete(tasks)
    {
      r := Incomplete(tasks);
    }

    method GetScheduled() returns (r: seq<Task>)
      ensures forall t :: t in r <==> t in tasks && t.scheduledStart.Some?
      ensures SortedBy(r, StartLe)
      ensures r == Scheduled(tasks)
    {
      r := Scheduled(tasks);
      ScheduledContents(tasks);
    }

    method GetActive() returns (r: Option<Task>)
      ensures r.Some? ==> r.value in tasks && r.value.IsActive()
      ensures r.Some? ==> FirstActive(tasks).Some? && r.value == tasks[FirstActive(tasks).value]
      ensures r.None? <==> forall i :: 0 <= i < |tasks| ==> !tasks[i].IsActive()
      ensures r.Some? && SingleActive(tasks) ==>
        forall i :: 0 <= i < |tasks| && tasks[i].IsActive() ==> tasks[i] == r.value
    {
      match FirstActive(tasks)
      case Some(a) => r := Some(tasks[a]);
      case None => r := None;
    }

    method Create(draft: Task) returns (created: Task)
      requires Valid()
      modifies this
      ensures Valid()
      ensures tasks == Inserted(old(tasks), draft)
      ensures created == draft.(id := NextId(old(tasks)))
      ensures forall i :: 0 <= i < |old(tasks)| ==> old(tasks)[i].id < created.id
    {
      InsertedIds(tasks, draft);
      created := draft.(id := NextId(tasks));
      tasks := tasks + [created];
    }

    method Delete(id: nat)
      requires Valid() && IndexOf(tasks, id).Some?
      modifies this
      ensures Valid()
      ensures tasks == Removed(old(tasks), IndexOf(old(tasks), id).value)
      ensures Find(tasks, id).None?
    {
      var i := IndexOf(tasks, id).value;
      RemovedEffects(tasks, i);
      tasks := tasks[..i] + tasks[i + 1..];
    }

    method StartTask(id: nat, now: Instant) returns (r: Result<Task, TransitionError>)
      requires Valid() && IndexOf(tasks, id).Some?
      modifies this
      ensures Valid()
      ensures var i := IndexOf(old(tasks), id).value;
        match Start(old(tasks), i, now)
        case Ok(ts) => tasks == ts && r == Ok(ts[i])
        case Err(e) => tasks == old(tasks) && r == Err(e)
    {
      var i := IndexOf(tasks, id).value;
      var task := tasks[i];
      if task.completed {
        return Err(AlreadyCompleted(task.title));
      }
      if task.actualStart.None? {
        var active := GetActive();
        if active.Some? && active.value.id != task.id {
          return Err(OtherActive(active.value.title));
        }
        task := task.(actualStart := Some(now));
        tasks := tasks[i := task];
      }
      r := Ok(task);
    }

    method CompleteTask(id: nat, now: Instant) returns (r: Result<Task, TransitionError>)
      requires Valid() && IndexOf(tasks, id).Some?
      modifies this
      ensures Valid()
      ensures var i := IndexOf(old(tasks), id).value;
        match Complete(old(tasks), i, now)
        case Ok(ts) => tasks == ts && r == Ok(ts[i])
        case Err(e) => tasks == old(tasks) && r == Err(e)
    {
      var i := IndexOf(tasks, id).value;
      var task := tasks[i];
      if task.actualStart.None? {
        return Err(NotStarted(task.title));
      }
      task := task.(completed := true, actualEnd := Some(now));
      tasks := tasks[i := task];
      r := Ok(task);
    }
  }
}
