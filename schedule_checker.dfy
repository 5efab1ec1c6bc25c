/**
 * The periodic check that reschedules overdue tasks (schedule_checker.py).
 * The module-level oracle, which may be unset, is a nullable parameter; the
 * check's single `datetime.now()` is the parameter `now`.
 */
module ScheduleChecker {
  import opened Common
  import opened Seqs
  import opened Models
  import opened TaskRepo
  import opened ContextRepo
  import opened Scheduler

  /** The selection in the check loop: the end has passed, or the start has passed and work has not begun. */
  predicate NeedsReschedule(t: Task, now: Instant) {
    || (t.scheduledEnd.Some? && t.scheduledEnd.value < now && !t.completed)
    || (t.scheduledStart.Some? && t.scheduledStart.value < now && t.actualStart.None?)
  }

  function Flagged(now: Instant): Task -> bool {
    (t: Task) => NeedsReschedule(t, now)
  }

  /** The tasks whose slots the oracle must avoid: scheduled, incomplete, and not the one being moved. */
  function Others(ts: seq<Task>, id: int): seq<Task> {
    OthersOf(Scheduled(ts), id)
  }

  /** The comprehension over `get_scheduled`'s rows that drops the task itself and completed tasks. */
  function OthersOf(scheduled: seq<Task>, id: int): seq<Task> {
    Filter(scheduled, (t: Task) => t.id != id && !t.completed)
  }

  /** The schedule handed to the oracle holds exactly the other scheduled, incomplete tasks. */
  lemma OthersContents(ts: seq<Task>, id: int)
    ensures forall t :: t in Others(ts, id) <==>
      t in ts && t.scheduledStart.Some? && !t.completed && t.id != id
    ensures forall k :: 0 <= k < |Others(ts, id)| ==> Others(ts, id)[k].id != id
  {
    ScheduledContents(ts);
  }

  /** The text the oracle is given as the task's own context. */
  function TaskContext(t: Task): string {
    if t.context == "" then "Rescheduling overdue task" else t.context
  }

  function RescheduleRequest(t: Task, ts: seq<Task>, ctxRows: seq<GlobalContext>, now: Instant, dates: DateText): SlotRequest {
    SlotRequest(t.title, TaskContext(t), GetOrCreateRows(ctxRows)[0].context.GetOr(""), dates.isoformat(now),
                FromTasks(Others(ts, t.id), dates))
  }

  /** The request reads only the row's id, title and context, and only the first context row after get-or-create. */
  lemma SameRequest(a: Task, b: Task, ts: seq<Task>, rowsA: seq<GlobalContext>, rowsB: seq<GlobalContext>,
                    now: Instant, dates: DateText)
    requires a.id == b.id && a.title == b.title && a.context == b.context
    requires GetOrCreateRows(rowsA)[0] == GetOrCreateRows(rowsB)[0]
    ensures RescheduleRequest(a, ts, rowsA, now, dates) == RescheduleRequest(b, ts, rowsB, now, dates)
  {
  }

  /** How a reschedule ended; InvalidTime is the ValueError that escapes the check. */
  datatype Outcome = Skipped | OracleFailed | Rescheduled | InvalidTime(text: string)

  /** How a reschedule with the oracle's answer ends (None: every attempt raised); start is parsed first. */
  function OutcomeOf(reply: Option<SlotReply>, dates: DateText): Outcome {
    if reply.None? then OracleFailed
    else if dates.fromisoformat(reply.value.startTime).None? then InvalidTime(reply.value.startTime)
    else if dates.fromisoformat(reply.value.endTime).None? then InvalidTime(reply.value.endTime)
    else Rescheduled
  }

  /** The table after the oracle's answer for row `i`: only a full success is committed. */
  function TableAfter(ts: seq<Task>, i: nat, reply: Option<SlotReply>, dates: DateText): seq<Task>
    requires i < |ts|
  {
    if OutcomeOf(reply, dates) == Rescheduled then
      ts[i := ts[i].(scheduledStart := dates.fromisoformat(reply.value.startTime),
                     scheduledEnd := dates.fromisoformat(reply.value.endTime))]
    else ts
  }

  /** Two versions of a row that differ at most in the scheduled window. */
  predicate SameButSchedule(a: Task, b: Task) {
    b == a.(scheduledStart := b.scheduledStart, scheduledEnd := b.scheduledEnd)
  }

  /**
   * A reschedule touches only the two scheduled fields of its own row, and
   * only when the oracle answered with two parseable times, which it then
   * stores; an oracle failure or a bad time leaves the table as it was.
   */
  lemma AfterReplyFrame(ts: seq<Task>, i: nat, reply: Option<SlotReply>, dates: DateText)
    requires i < |ts|
    ensures var o, r := OutcomeOf(reply, dates), TableAfter(ts, i, reply, dates);
      && |r| == |ts|
      && (forall j :: 0 <= j < |ts| && j != i ==> r[j] == ts[j])
      && SameButSchedule(ts[i], r[i])
      && (o != Rescheduled ==> r == ts)
      && (o == Rescheduled <==>
            reply.Some? && dates.fromisoformat(reply.value.startTime).Some? && dates.fromisoformat(reply.value.endTime).Some?)
      && (o == Rescheduled ==>
            r[i].scheduledStart.Some? && r[i].scheduledStart == dates.fromisoformat(reply.value.startTime)
            && r[i].scheduledEnd.Some? && r[i].scheduledEnd == dates.fromisoformat(reply.value.endTime))
      && (reply.None? ==> o == OracleFailed)
  {
  }

  /** The schedule handed to the oracle when the task with the given id is moved. */
  method ExistingSchedule(taskRepo: TaskRepository, id: int, dates: DateText) returns (s: seq<ScheduledTask>)
    ensures s == FromTasks(Others(taskRepo.tasks, id), dates)
  {
    var allScheduled := taskRepo.GetScheduled();
    s := FromTasks(OthersOf(allScheduled, id), dates);
  }

  /** Stores the oracle's answer for row `i`: nothing on a failure; else parse both times, then commit. */
  method ApplyReply(taskRepo: TaskRepository, i: nat, reply: Option<SlotReply>, dates: DateText) returns (outcome: Outcome)
    requires taskRepo.Valid() && i < |taskRepo.tasks|
    modifies taskRepo
    ensures taskRepo.Valid()
    ensures outcome == OutcomeOf(reply, dates)
    ensures taskRepo.tasks == TableAfter(old(taskRepo.tasks), i, reply, dates)
  {
    if reply.None? {
      return OracleFailed;
    }
    var task := taskRepo.tasks[i];
    var start := dates.fromisoformat(reply.value.startTime);
    if start.None? {
      return InvalidTime(reply.value.startTime);
    }
    var end := dates.fromisoformat(reply.value.endTime);
    if end.None? {
      return InvalidTime(reply.value.endTime);
    }
    taskRepo.tasks := taskRepo.tasks[i := task.(scheduledStart := start, scheduledEnd := end)];
    outcome := Rescheduled;
  }

  /**
   * Builds the request for `task` (the other tasks' slots, the global text,
   * now) and puts it to the oracle through the three-attempt retry.
   */
  method AskForSlot(oracle: TimeSlotOracle, taskRepo: TaskRepository, contextRepo: ContextRepository,
                    task: Task, now: Instant, dates: DateText) returns (reply: Option<SlotReply>)
    modifies oracle, contextRepo
    ensures contextRepo.rows == GetOrCreateRows(old(contextRepo.rows))
    ensures |old(oracle.exchanges)| < |oracle.exchanges|
    ensures oracle.exchanges[..|old(oracle.exchanges)|] == old(oracle.exchanges)
    ensures RetriedCalls(oracle.exchanges[|old(oracle.exchanges)|..],
                         RescheduleRequest(task, taskRepo.tasks, old(contextRepo.rows), now, dates), reply)
  {
    var existing := ExistingSchedule(taskRepo, task.id, dates);
    var g := contextRepo.GetOrCreate();
    var request := SlotRequest(task.title, TaskContext(task), g.context.GetOr(""), dates.isoformat(now), existing);
    reply := CallWithRetry(oracle, request);
  }

  /**
   * `reschedule_task` for the stored task with the given id; `reply` is the
   * oracle's final answer (None: every attempt raised).
   */
  method RescheduleTask(oracle: TimeSlotOracle?, taskRepo: TaskRepository, contextRepo: ContextRepository,
                        id: nat, now: Instant, dates: DateText) returns (outcome: Outcome, ghost reply: Option<SlotReply>)
    requires taskRepo.Valid() && IndexOf(taskRepo.tasks, id).Some?
    modifies oracle, taskRepo, contextRepo
    ensures taskRepo.Valid()
    ensures oracle == null ==>
      outcome == Skipped && reply.None? && taskRepo.tasks == old(taskRepo.tasks) && contextRepo.rows == old(contextRepo.rows)
    ensures oracle != null ==> contextRepo.rows == GetOrCreateRows(old(contextRepo.rows))
    ensures oracle != null ==> |old(oracle.exchanges)| < |oracle.exchanges|
    ensures oracle != null ==> oracle.exchanges[..|old(oracle.exchanges)|] == old(oracle.exchanges)
    ensures oracle != null ==>
      var i := IndexOf(old(taskRepo.tasks), id).value;
      RetriedCalls(oracle.exchanges[|old(oracle.exchanges)|..],
                   RescheduleRequest(old(taskRepo.tasks)[i], old(taskRepo.tasks), old(contextRepo.rows), now, dates), reply)
    ensures oracle != null ==> outcome == OutcomeOf(reply, dates)
    ensures oracle != null ==> taskRepo.tasks == TableAfter(old(taskRepo.tasks), IndexOf(old(taskRepo.tasks), id).value, reply, dates)
  {
    if oracle == null {
      outcome, reply := Skipped, None;
    } else {
      var i := IndexOf(taskRepo.tasks, id).value;
      var task := taskRepo.tasks[i];
      var answer := AskForSlot(oracle, taskRepo, contextRepo, task, now, dates);
      reply := answer;
      outcome := ApplyReply(taskRepo, i, answer, dates);
    }
  }

  /** Equal ids position by position give equal lookups. */
  lemma {:induction false} IndexOfSameIds(a: seq<Task>, b: seq<Task>, id: int)
    requires |a| == |b| && forall j :: 0 <= j < |a| ==> a[j].id == b[j].id
    ensures IndexOf(a, id) == IndexOf(b, id)
  {
    if a != [] {
      IndexOfSameIds(a[1..], b[1..], id);
    }
  }

  /** How many rows of `ts` the selection flags, counted from the front. */
  function CountFlagged(ts: seq<Task>, now: Instant): nat {
    if ts == [] then 0
    else CountFlagged(ts[..|ts| - 1], now) + if NeedsReschedule(ts[|ts| - 1], now) then 1 else 0
  }

  /** The count is the number of rows the selection keeps. */
  lemma {:induction false} CountFlaggedIsFilter(ts: seq<Task>, now: Instant)
    ensures CountFlagged(ts, now) == |Filter(ts, Flagged(now))|
  {
    if ts != [] {
      var front, last := ts[..|ts| - 1], ts[|ts| - 1];
      assert ts == front + [last];
      FilterAppend(front, [last], Flagged(now));
      CountFlaggedIsFilter(front, now);
    }
  }

  /**
   * What the check may do to the table it started from: keep every row's
   * id and text, and move only incomplete rows the selection flagged.
   */
  ghost predicate OnlyFlaggedMoved(initial: seq<Task>, ts: seq<Task>, now: Instant) {
    && |ts| == |initial|
    && (forall j :: 0 <= j < |initial| ==> SameButSchedule(initial[j], ts[j]))
    && (forall j :: 0 <= j < |initial| && ts[j] != initial[j] ==> !initial[j].completed && NeedsReschedule(initial[j], now))
  }

  /** Rescheduling one flagged incomplete row keeps the check within its bounds. */
  lemma MoveFlagged(initial: seq<Task>, ts: seq<Task>, m: nat, reply: Option<SlotReply>, now: Instant, dates: DateText)
    requires OnlyFlaggedMoved(initial, ts, now) && m < |initial|
    requires !initial[m].completed && NeedsReschedule(initial[m], now)
    ensures OnlyFlaggedMoved(initial, TableAfter(ts, m, reply, dates), now)
  {
    AfterReplyFrame(ts, m, reply, dates);
  }

  /**
   * Where each row `get_incomplete` returns sits in the table: at an
   * incomplete row, at increasing positions.
   */
  lemma IncompleteRows(ts: seq<Task>) returns (rowOf: seq<nat>)
    requires IdsIncreasing(ts)
    ensures |rowOf| == |Incomplete(ts)|
    ensures forall k :: 0 <= k < |rowOf| ==>
      rowOf[k] < |ts| && ts[rowOf[k]] == Incomplete(ts)[k] && !ts[rowOf[k]].completed
    ensures forall a, b :: 0 <= a < b < |rowOf| ==> rowOf[a] < rowOf[b]
  {
    var snapshot := Incomplete(ts);
    IncompleteIdsIncreasing(ts);
    rowOf := [];
    while |rowOf| < |snapshot|
      invariant |rowOf| <= |snapshot|
      invariant forall k :: 0 <= k < |rowOf| ==>
        rowOf[k] < |ts| && ts[rowOf[k]] == snapshot[k] && !ts[rowOf[k]].completed
      invariant forall a, b :: 0 <= a < b < |rowOf| ==> rowOf[a] < rowOf[b]
    {
      assert snapshot[|rowOf|] in snapshot;
      var m :| 0 <= m < |ts| && ts[m] == snapshot[|rowOf|];
      rowOf := rowOf + [m];
    }
  }

  /** The count grows by one exactly at a flagged row. */
  lemma CountFlaggedStep(ts: seq<Task>, k: nat, now: Instant)
    requires k < |ts|
    ensures CountFlagged(ts[..k + 1], now) == CountFlagged(ts[..k], now) + if NeedsReschedule(ts[k], now) then 1 else 0
  {
    assert ts[..k + 1][..k] == ts[..k];
  }

  /**
   * What one visit of the check loop sent to the oracle: the retried
   * request for row `t` against the table `before` as it stood, when `t`
   * is flagged and an oracle is configured, and nothing otherwise.
   */
  ghost predicate Asked(hasOracle: bool, t: Task, before: seq<Task>, rows: seq<GlobalContext>,
                        made: seq<Exchange>, reply: Option<SlotReply>, now: Instant, dates: DateText) {
    if hasOracle && NeedsReschedule(t, now)
    then RetriedCalls(made, RescheduleRequest(t, before, rows, now, dates), reply)
    else made == [] && reply.None?
  }

  /** Row `t` had its slot applied from `reply`: it was flagged and both answered times parse. */
  predicate TookReply(t: Task, reply: Option<SlotReply>, now: Instant, dates: DateText) {
    NeedsReschedule(t, now) && OutcomeOf(reply, dates) == Rescheduled
  }

  /**
   * The tables the check loop went through: the loop visits the rows
   * `snapshot`, which sit at the positions `rowOf` of `initial`, in order;
   * visit j finds the table `tables[j]`, and when the selection flags its
   * row it applies the oracle's answer `replies[j]` to give `tables[j + 1]`.
   */
  ghost predicate Visits(initial: seq<Task>, snapshot: seq<Task>, rowOf: seq<nat>, replies: seq<Option<SlotReply>>,
                         tables: seq<seq<Task>>, now: Instant, dates: DateText)
    requires |replies| <= |snapshot| == |rowOf|
    requires forall j :: 0 <= j < |rowOf| ==> rowOf[j] < |initial|
  {
    && |tables| == |replies| + 1
    && tables[0] == initial
    && (forall j :: 0 <= j < |tables| ==> |tables[j]| == |initial|)
    && (forall j {:trigger replies[j]} :: 0 <= j < |replies| ==>
          tables[j + 1] ==
            if NeedsReschedule(snapshot[j], now) then TableAfter(tables[j], rowOf[j], replies[j], dates) else tables[j])
  }

  /**
   * After the first `n` visits, with each snapshot row at its own position,
   * every row that took a reply holds exactly the two answered times and is
   * otherwise as it was, and every row that took none is untouched.
   */
  lemma {:induction false} VisitsRows(initial: seq<Task>, snapshot: seq<Task>, rowOf: seq<nat>,
                                      replies: seq<Option<SlotReply>>, tables: seq<seq<Task>>, n: nat,
                                      now: Instant, dates: DateText)
    requires |replies| <= |snapshot| == |rowOf|
    requires forall j :: 0 <= j < |rowOf| ==> rowOf[j] < |initial|
    requires forall a, b :: 0 <= a < b < |rowOf| ==> rowOf[a] != rowOf[b]
    requires Visits(initial, snapshot, rowOf, replies, tables, now, dates) && n <= |replies|
    ensures forall j :: 0 <= j < n && TookReply(snapshot[j], replies[j], now, dates) ==>
      tables[n][rowOf[j]] == initial[rowOf[j]].(scheduledStart := dates.fromisoformat(replies[j].value.startTime),
                                                scheduledEnd := dates.fromisoformat(replies[j].value.endTime))
    ensures forall i :: 0 <= i < |initial| && tables[n][i] != initial[i] ==>
      exists j :: 0 <= j < n && rowOf[j] == i && TookReply(snapshot[j], replies[j], now, dates)
  {
    if n > 0 {
      var k := n - 1;
      VisitsRows(initial, snapshot, rowOf, replies, tables, k, now, dates);
      var before, reply := tables[k], replies[k];
      if NeedsReschedule(snapshot[k], now) {
        AfterReplyFrame(before, rowOf[k], reply, dates);
        if TookReply(snapshot[k], reply, now, dates) {
          assert before[rowOf[k]] == initial[rowOf[k]];
        }
      }
      forall i | 0 <= i < |initial| && tables[n][i] != initial[i]
        ensures exists j :: 0 <= j < n && rowOf[j] == i && TookReply(snapshot[j], replies[j], now, dates)
      {
        if before[i] == initial[i] {
          assert rowOf[k] == i && TookReply(snapshot[k], replies[k], now, dates);
        }
      }
    }
  }


  /** Every visit so far asked as Asked says, against the table it found. */
  ghost predicate AllAsked(hasOracle: bool, snapshot: seq<Task>, tables: seq<seq<Task>>, rows: seq<GlobalContext>,
                           replies: seq<Option<SlotReply>>, calls: seq<seq<Exchange>>, now: Instant, dates: DateText)
    requires |replies| == |calls| <= |snapshot| && |replies| < |tables|
  {
    forall j {:trigger calls[j]} :: 0 <= j < |calls| ==>
      Asked(hasOracle, snapshot[j], tables[j], rows, calls[j], replies[j], now, dates)
  }

  /** None of the first |replies| visits ended the check. */
  predicate NoneEnded(snapshot: seq<Task>, replies: seq<Option<SlotReply>>, now: Instant, dates: DateText)
    requires |replies| <= |snapshot|
  {
    forall j :: 0 <= j < |replies| ==> !EndsCheck(snapshot[j], replies[j], now, dates)
  }

  /**
   * The check stopped at its last visit: none before it ended the check,
   * and that one was flagged and got `text` back as a time that does not parse.
   */
  predicate StoppedAt(snapshot: seq<Task>, replies: seq<Option<SlotReply>>, text: string, now: Instant, dates: DateText)
    requires |replies| <= |snapshot|
  {
    && 0 < |replies|
    && NoneEnded(snapshot, replies[..|replies| - 1], now, dates)
    && EndsCheck(snapshot[|replies| - 1], replies[|replies| - 1], now, dates)
    && OutcomeOf(replies[|replies| - 1], dates) == InvalidTime(text)
  }

  /** A visit that ends the check, after visits that did not, stops it there. */
  lemma StopStep(snapshot: seq<Task>, replies: seq<Option<SlotReply>>, reply: Option<SlotReply>, text: string,
                 now: Instant, dates: DateText)
    requires |replies| < |snapshot| && NoneEnded(snapshot, replies, now, dates)
    requires EndsCheck(snapshot[|replies|], reply, now, dates) && OutcomeOf(reply, dates) == InvalidTime(text)
    ensures StoppedAt(snapshot, replies + [reply], text, now, dates)
  {
    assert (replies + [reply])[..|replies|] == replies;
  }

  /**
   * One more visit of the check loop, which found the last table and left
   * `after`: the visits, their calls and the oracle log all extend by it.
   */
  lemma VisitStep(hasOracle: bool, initial: seq<Task>, rows: seq<GlobalContext>, snapshot: seq<Task>, rowOf: seq<nat>,
                  replies: seq<Option<SlotReply>>, calls: seq<seq<Exchange>>, tables: seq<seq<Task>>,
                  t: Task, before: seq<Task>, m: nat, reply: Option<SlotReply>, made: seq<Exchange>, after: seq<Task>,
                  now: Instant, dates: DateText)
    requires |replies| == |calls| < |snapshot| == |rowOf|
    requires forall j :: 0 <= j < |rowOf| ==> rowOf[j] < |initial|
    requires Visits(initial, snapshot, rowOf, replies, tables, now, dates)
    requires AllAsked(hasOracle, snapshot, tables, rows, replies, calls, now, dates)
    requires t == snapshot[|replies|] && before == tables[|replies|] && m == rowOf[|replies|]
    requires Asked(hasOracle, t, before, rows, made, reply, now, dates)
    requires after == if NeedsReschedule(t, now) then TableAfter(before, m, reply, dates) else before
    ensures (replies + [reply])[..|replies|] == replies
    ensures Visits(initial, snapshot, rowOf, replies + [reply], tables + [after], now, dates)
    ensures AllAsked(hasOracle, snapshot, tables + [after], rows, replies + [reply], calls + [made], now, dates)
    ensures NoneEnded(snapshot, replies, now, dates) && !EndsCheck(t, reply, now, dates) ==>
      NoneEnded(snapshot, replies + [reply], now, dates)
    ensures Flatten(calls + [made]) == Flatten(calls) + made
  {
    assert (replies + [reply])[..|replies|] == replies;
    assert (calls + [made])[..|calls|] == calls;
    AskedSame(hasOracle, t, before, tables[|replies|], rows, made, made, reply, reply, now, dates);
    VisitsExtend(initial, snapshot, rowOf, replies, tables, reply, after, now, dates);
    AllAskedExtend(hasOracle, snapshot, tables, rows, replies, calls, reply, made, after, now, dates);
  }

  lemma VisitsExtend(initial: seq<Task>, snapshot: seq<Task>, rowOf: seq<nat>, replies: seq<Option<SlotReply>>,
                     tables: seq<seq<Task>>, reply: Option<SlotReply>, after: seq<Task>, now: Instant, dates: DateText)
    requires |replies| < |snapshot| == |rowOf|
    requires forall j :: 0 <= j < |rowOf| ==> rowOf[j] < |initial|
    requires Visits(initial, snapshot, rowOf, replies, tables, now, dates)
    requires after == if NeedsReschedule(snapshot[|replies|], now)
      then TableAfter(tables[|replies|], rowOf[|replies|], reply, dates) else tables[|replies|]
    ensures Visits(initial, snapshot, rowOf, replies + [reply], tables + [after], now, dates)
  {
    var k := |replies|;
    var replies', tables' := replies + [reply], tables + [after];
    assert |after| == |initial|;
    assert forall j :: 0 <= j < |tables'| ==> |tables'[j]| == |initial|;
    forall j | 0 <= j < |replies'|
      ensures tables'[j + 1] ==
        if NeedsReschedule(snapshot[j], now) then TableAfter(tables'[j], rowOf[j], replies'[j], dates) else tables'[j]
    {
      if j < k {
        assert replies'[j] == replies[j] && tables'[j] == tables[j] && tables'[j + 1] == tables[j + 1];
      }
    }
  }

  lemma AllAskedExtend(hasOracle: bool, snapshot: seq<Task>, tables: seq<seq<Task>>, rows: seq<GlobalContext>,
                       replies: seq<Option<SlotReply>>, calls: seq<seq<Exchange>>,
                       reply: Option<SlotReply>, made: seq<Exchange>, after: seq<Task>, now: Instant, dates: DateText)
    requires |replies| == |calls| < |snapshot| && |tables| == |replies| + 1
    requires AllAsked(hasOracle, snapshot, tables, rows, replies, calls, now, dates)
    requires Asked(hasOracle, snapshot[|replies|], tables[|replies|], rows, made, reply, now, dates)
    ensures AllAsked(hasOracle, snapshot, tables + [after], rows, replies + [reply], calls + [made], now, dates)
  {
    var calls', tables', replies' := calls + [made], tables + [after], replies + [reply];
    forall j | 0 <= j < |calls'|
      ensures Asked(hasOracle, snapshot[j], tables'[j], rows, calls'[j], replies'[j], now, dates)
    {
      if j < |calls| {
        AskedSame(hasOracle, snapshot[j], tables[j], tables'[j], rows, calls[j], calls'[j], replies[j], replies'[j], now, dates);
      } else {
        var k := |replies|;
        assert j == k;
        AskedSame(hasOracle, snapshot[k], tables[k], tables'[k], rows, made, calls'[k], reply, replies'[k], now, dates);
      }
    }
  }

  lemma AskedSame(hasOracle: bool, t: Task, before: seq<Task>, before': seq<Task>, rows: seq<GlobalContext>,
                  made: seq<Exchange>, made': seq<Exchange>, reply: Option<SlotReply>, reply': Option<SlotReply>,
                  now: Instant, dates: DateText)
    requires before == before' && made == made' && reply == reply'
    requires Asked(hasOracle, t, before, rows, made, reply, now, dates)
    ensures Asked(hasOracle, t, before', rows, made', reply', now, dates)
  {
  }

  /** A visit that ends the check: the row was flagged and the answer held an unparseable time. */
  predicate EndsCheck(t: Task, reply: Option<SlotReply>, now: Instant, dates: DateText) {
    NeedsReschedule(t, now) && OutcomeOf(reply, dates).InvalidTime?
  }

  /**
   * What holds at every pass of the check loop, from the task table
   * `initial` and context table `rows` the check started from: the rowids
   * still increase, only flagged incomplete rows have moved, and nothing at
   * all has changed while no oracle is configured.
   */
  ghost predicate CheckBounds(hasOracle: bool, initial: seq<Task>, ts: seq<Task>,
                              rows: seq<GlobalContext>, ctx: seq<GlobalContext>, now: Instant) {
    && IdsIncreasing(ts)
    && OnlyFlaggedMoved(initial, ts, now)
    && (!hasOracle ==> ts == initial && ctx == rows)
    && (ctx == rows || ctx == GetOrCreateRows(rows))
  }

  /**
   * A flagged row of the check put to the oracle: it is found at its own
   * position m, the request made is the one Asked names, and the table and
   * context rows left stay within the check's bounds.
   */
  lemma RowStep(initial: seq<Task>, rows: seq<GlobalContext>, m: nat, task: Task, before: seq<Task>, ctx: seq<GlobalContext>,
                after: seq<Task>, ctxAfter: seq<GlobalContext>, made: seq<Exchange>, reply: Option<SlotReply>,
                now: Instant, dates: DateText)
    requires IdsIncreasing(initial) && CheckBounds(true, initial, before, rows, ctx, now)
    requires m < |initial| && initial[m] == task && !task.completed && NeedsReschedule(task, now)
    requires IndexOf(before, task.id).Some?
    requires IdsIncreasing(after) && ctxAfter == GetOrCreateRows(ctx)
    requires RetriedCalls(made, RescheduleRequest(before[IndexOf(before, task.id).value], before, ctx, now, dates), reply)
    requires after == TableAfter(before, IndexOf(before, task.id).value, reply, dates)
    ensures IndexOf(before, task.id) == Some(m)
    ensures after == TableAfter(before, m, reply, dates)
    ensures Asked(true, task, before, rows, made, reply, now, dates)
    ensures CheckBounds(true, initial, after, rows, ctxAfter, now)
  {
    IndexOfAt(initial, m);
    IndexOfSameIds(initial, before, task.id);
    GetOrCreateIdempotent(rows);
    SameRequest(before[m], task, before, ctx, rows, now, dates);
    MoveFlagged(initial, before, m, reply, now, dates);
  }

  /**
   * One pass of the check loop, for the row `m` of the table the check
   * started from: when the selection flags it, put it to the oracle and
   * apply the answer; report whether it was flagged and the bad time that
   * ends the check, if any. `reply` and `calls` are the oracle's answer
   * and the calls this pass made.
   */
  method CheckRow(oracle: TimeSlotOracle?, taskRepo: TaskRepository, contextRepo: ContextRepository,
                  ghost initial: seq<Task>, ghost rows: seq<GlobalContext>, ghost m: nat,
                  task: Task, now: Instant, dates: DateText)
    returns (flagged: bool, failure: Option<string>, ghost reply: Option<SlotReply>, ghost calls: seq<Exchange>)
    requires IdsIncreasing(initial) && CheckBounds(oracle != null, initial, taskRepo.tasks, rows, contextRepo.rows, now)
    requires m < |initial| && initial[m] == task && !task.completed
    modifies oracle, taskRepo, contextRepo
    ensures CheckBounds(oracle != null, initial, taskRepo.tasks, rows, contextRepo.rows, now)
    ensures flagged == NeedsReschedule(task, now)
    ensures Asked(oracle != null, task, old(taskRepo.tasks), rows, calls, reply, now, dates)
    ensures oracle != null ==> oracle.exchanges == old(oracle.exchanges) + calls
    ensures taskRepo.tasks == if flagged then TableAfter(old(taskRepo.tasks), m, reply, dates) else old(taskRepo.tasks)
    ensures failure.Some? <==> EndsCheck(task, reply, now, dates)
    ensures failure.Some? ==> oracle != null && OutcomeOf(reply, dates) == InvalidTime(failure.value)
  {
    flagged := NeedsReschedule(task, now);
    failure, reply, calls := None, None, [];
    if flagged {
      IndexOfAt(initial, m);
      IndexOfSameIds(initial, taskRepo.tasks, task.id);
      ghost var before, ctx := taskRepo.tasks, contextRepo.rows;
      ghost var log := if oracle != null then oracle.exchanges else [];
      var outcome;
      outcome, reply := RescheduleTask(oracle, taskRepo, contextRepo, task.id, now, dates);
      if oracle != null {
        calls := oracle.exchanges[|log|..];
        PrefixThenRest(oracle.exchanges, |log|);
        RowStep(initial, rows, m, task, before, ctx, taskRepo.tasks, contextRepo.rows, calls, reply, now, dates);
      }
      if outcome.InvalidTime? {
        failure := Some(outcome.text);
      }
    }
  }


  /**
   * What the check loop knows after its first k visits of the rows
   * `snapshot` (at positions `rowOf` of `initial`), none of which ended
   * the check: the tables it went through and the oracle calls each visit made.
   */
  ghost predicate Progress(hasOracle: bool, initial: seq<Task>, rows: seq<GlobalContext>,
                           snapshot: seq<Task>, rowOf: seq<nat>, replies: seq<Option<SlotReply>>,
                           calls: seq<seq<Exchange>>, tables: seq<seq<Task>>, now: Instant, dates: DateText)
    requires |replies| == |calls| <= |snapshot| == |rowOf|
    requires forall j :: 0 <= j < |rowOf| ==> rowOf[j] < |initial|
  {
    && Visits(initial, snapshot, rowOf, replies, tables, now, dates)
    && AllAsked(hasOracle, snapshot, tables, rows, replies, calls, now, dates)
  }

  /**
   * One visit of the check loop, the k-th: CheckRow on the k-th row of
   * `snapshot`, with the record of the visits extended by it.
   */
  method Visit(oracle: TimeSlotOracle?, taskRepo: TaskRepository, contextRepo: ContextRepository,
               ghost initial: seq<Task>, ghost rows: seq<GlobalContext>, ghost log: seq<Exchange>,
               snapshot: seq<Task>, ghost rowOf: seq<nat>, k: nat,
               ghost replies: seq<Option<SlotReply>>, ghost calls: seq<seq<Exchange>>, ghost tables: seq<seq<Task>>,
               now: Instant, dates: DateText)
    returns (flagged: bool, failure: Option<string>, ghost replies': seq<Option<SlotReply>>,
             ghost calls': seq<seq<Exchange>>, ghost tables': seq<seq<Task>>)
    requires IdsIncreasing(initial) && |rowOf| == |snapshot|
    requires forall j :: 0 <= j < |rowOf| ==>
      rowOf[j] < |initial| && initial[rowOf[j]] == snapshot[j] && !snapshot[j].completed
    requires k < |snapshot| && |replies| == |calls| == k
    requires CheckBounds(oracle != null, initial, taskRepo.tasks, rows, contextRepo.rows, now)
    requires Progress(oracle != null, initial, rows, snapshot, rowOf, replies, calls, tables, now, dates)
    requires taskRepo.tasks == tables[k]
    requires oracle != null ==> oracle.exchanges == log + Flatten(calls)
    requires NoneEnded(snapshot, replies, now, dates)
    modifies oracle, taskRepo, contextRepo
    ensures |replies'| == |calls'| == k + 1 && replies'[..k] == replies
    ensures flagged == NeedsReschedule(snapshot[k], now)
    ensures CheckBounds(oracle != null, initial, taskRepo.tasks, rows, contextRepo.rows, now)
    ensures Progress(oracle != null, initial, rows, snapshot, rowOf, replies', calls', tables', now, dates)
    ensures taskRepo.tasks == tables'[k + 1]
    ensures oracle != null ==> oracle.exchanges == log + Flatten(calls')
    ensures failure.None? ==> NoneEnded(snapshot, replies', now, dates)
    ensures failure.Some? ==> oracle != null && StoppedAt(snapshot, replies', failure.value, now, dates)
  {
    ghost var reply, made;
    ghost var before := taskRepo.tasks;
    flagged, failure, reply, made := CheckRow(oracle, taskRepo, contextRepo, initial, rows, rowOf[k], snapshot[k], now, dates);
    VisitStep(oracle != null, initial, rows, snapshot, rowOf, replies, calls, tables,
              snapshot[k], before, rowOf[k], reply, made, taskRepo.tasks, now, dates);
    AppendAssociates(log, Flatten(calls), made);
    if failure.Some? {
      StopStep(snapshot, replies, reply, failure.value, now, dates);
    }
    replies', calls', tables' := replies + [reply], calls + [made], tables + [taskRepo.tasks];
  }

  /**
   * The loop of `check_and_update_schedule` over the rows `snapshot`, which
   * sit at the incomplete rows `rowOf` of the table: it visits them in
   * order and returns how many were flagged, or the first bad time the
   * oracle gave. Visit j found the table `tables[j]`, made the oracle
   * calls `calls[j]` and got the answer `replies[j]`.
   */
  method CheckRows(oracle: TimeSlotOracle?, taskRepo: TaskRepository, contextRepo: ContextRepository,
                   snapshot: seq<Task>, ghost rowOf: seq<nat>, now: Instant, dates: DateText)
    returns (r: Result<nat, string>, ghost replies: seq<Option<SlotReply>>, ghost calls: seq<seq<Exchange>>,
             ghost tables: seq<seq<Task>>)
    requires taskRepo.Valid() && |rowOf| == |snapshot|
    requires forall j :: 0 <= j < |rowOf| ==>
      rowOf[j] < |taskRepo.tasks| && taskRepo.tasks[rowOf[j]] == snapshot[j] && !snapshot[j].completed
    modifies oracle, taskRepo, contextRepo
    ensures CheckBounds(oracle != null, old(taskRepo.tasks), taskRepo.tasks, old(contextRepo.rows), contextRepo.rows, now)
    ensures |replies| == |calls| <= |snapshot|
    ensures Visits(old(taskRepo.tasks), snapshot, rowOf, replies, tables, now, dates)
    ensures taskRepo.tasks == tables[|replies|]
    ensures AllAsked(oracle != null, snapshot, tables, old(contextRepo.rows), replies, calls, now, dates)
    ensures oracle != null ==> oracle.exchanges == old(oracle.exchanges) + Flatten(calls)
    ensures r.Ok? ==> |replies| == |snapshot| && NoneEnded(snapshot, replies, now, dates) && r.value == CountFlagged(snapshot, now)
    ensures r.Err? ==>
      oracle != null && StoppedAt(snapshot, replies, r.error, now, dates)
  {
    ghost var initial := taskRepo.tasks;
    ghost var rows := contextRepo.rows;
    ghost var log := if oracle != null then oracle.exchanges else [];
    replies, calls, tables := [], [], [initial];
    var count := 0;
    var failure: Option<string> := None;
    var k := 0;
    assert snapshot[..k] == [];
    while k < |snapshot| && failure.None?
      invariant 0 <= k <= |snapshot| && |replies| == |calls| == k
      invariant failure.None? ==> count == CountFlagged(snapshot[..k], now)
      invariant CheckBounds(oracle != null, initial, taskRepo.tasks, rows, contextRepo.rows, now)
      invariant Progress(oracle != null, initial, rows, snapshot, rowOf, replies, calls, tables, now, dates)
      invariant taskRepo.tasks == tables[k]
      invariant oracle != null ==> oracle.exchanges == log + Flatten(calls)
      invariant failure.None? ==> NoneEnded(snapshot, replies, now, dates)
      invariant failure.Some? ==>
        oracle != null && StoppedAt(snapshot, replies, failure.value, now, dates)
    {
      var flagged;
      flagged, failure, replies, calls, tables :=
        Visit(oracle, taskRepo, contextRepo, initial, rows, log, snapshot, rowOf, k, replies, calls, tables, now, dates);
      CountFlaggedStep(snapshot, k, now);
      if flagged {
        count := count + 1;
      }
      k := k + 1;
    }
    if failure.Some? {
      r := Err(failure.value);
    } else {
      assert snapshot[..k] == snapshot;
      r := Ok(count);
    }
  }

  /**
   * `check_and_update_schedule`: visits the incomplete tasks in rowid
   * order, puts every one the selection flags to the oracle against the
   * schedule as it then stands, and stores each answer that holds two
   * parseable times. It returns how many were flagged, whether or not each
   * reschedule took effect; a bad time from the oracle raises out of the
   * loop, keeping the reschedules already committed. The j-th incomplete
   * task sits at position `rowOf[j]` of the table; its visit found the
   * table `tables[j]`, made the oracle calls `calls[j]` and got the answer
   * `replies[j]`.
   */
  method CheckAndUpdateSchedule(oracle: TimeSlotOracle?, taskRepo: TaskRepository, contextRepo: ContextRepository,
                                now: Instant, dates: DateText)
    returns (r: Result<nat, string>, ghost rowOf: seq<nat>, ghost replies: seq<Option<SlotReply>>,
             ghost calls: seq<seq<Exchange>>, ghost tables: seq<seq<Task>>)
    requires taskRepo.Valid()
    modifies oracle, taskRepo, contextRepo
    ensures taskRepo.Valid()
    ensures |rowOf| == |Incomplete(old(taskRepo.tasks))|
    ensures forall k :: 0 <= k < |rowOf| ==>
      rowOf[k] < |old(taskRepo.tasks)| && old(taskRepo.tasks)[rowOf[k]] == Incomplete(old(taskRepo.tasks))[k]
    ensures forall a, b :: 0 <= a < b < |rowOf| ==> rowOf[a] < rowOf[b]
    ensures OnlyFlaggedMoved(old(taskRepo.tasks), taskRepo.tasks, now)
    ensures oracle == null ==> taskRepo.tasks == old(taskRepo.tasks) && contextRepo.rows == old(contextRepo.rows)
    ensures contextRepo.rows == old(contextRepo.rows) || contextRepo.rows == GetOrCreateRows(old(contextRepo.rows))
    ensures |replies| == |calls| <= |Incomplete(old(taskRepo.tasks))|
    ensures Visits(old(taskRepo.tasks), Incomplete(old(taskRepo.tasks)), rowOf, replies, tables, now, dates)
    ensures taskRepo.tasks == tables[|replies|]
    ensures AllAsked(oracle != null, Incomplete(old(taskRepo.tasks)), tables, old(contextRepo.rows), replies, calls, now, dates)
    ensures oracle != null ==> oracle.exchanges == old(oracle.exchanges) + Flatten(calls)
    ensures forall j :: 0 <= j < |replies| && TookReply(Incomplete(old(taskRepo.tasks))[j], replies[j], now, dates) ==>
      taskRepo.tasks[rowOf[j]] ==
        old(taskRepo.tasks)[rowOf[j]].(scheduledStart := dates.fromisoformat(replies[j].value.startTime),
                                       scheduledEnd := dates.fromisoformat(replies[j].value.endTime))
    ensures r.Ok? ==>
      && |replies| == |Incomplete(old(taskRepo.tasks))|
      && NoneEnded(Incomplete(old(taskRepo.tasks)), replies, now, dates)
      && r.value == CountFlagged(Incomplete(old(taskRepo.tasks)), now)
    ensures r.Err? ==>
      oracle != null && StoppedAt(Incomplete(old(taskRepo.tasks)), replies, r.error, now, dates)
  {
    var snapshot := taskRepo.GetIncomplete();
    rowOf := IncompleteRows(taskRepo.tasks);
    r, replies, calls, tables := CheckRows(oracle, taskRepo, contextRepo, snapshot, rowOf, now, dates);
    VisitsRows(old(taskRepo.tasks), snapshot, rowOf, replies, tables, |replies|, now, dates);
  }
}
