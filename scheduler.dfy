/**
 * The scheduling oracle's request and response shapes (scheduler.py), the
 * serialisation of an existing schedule, the oracle itself as an object
 * that may answer anything or fail, and the bounded retry that wraps every
 * call to it (the tenacity decorator in services/task_service.py and
 * schedule_checker.py: three attempts, any exception retried, the last one
 * re-raised).
 */
module Scheduler {
  import opened Common
  import opened Models

  /** One entry of the schedule handed to the oracle. */
  datatype ScheduledTask = ScheduledTask(id: int, title: string, startTime: string, endTime: string)

  datatype PrioritizedTask = PrioritizedTask(id: int, title: string, priority: real, reasoning: string)

  /** Building a PrioritizedTask: pydantic refuses a priority outside [0, 10]. */
  function MakePrioritizedTask(id: int, title: string, priority: real, reasoning: string): (r: Option<PrioritizedTask>)
    ensures r.Some? <==> 0.0 <= priority <= 10.0
    ensures r.Some? ==> r.value.priority == priority && r.value.id == id
  {
    if 0.0 <= priority <= 10.0 then Some(PrioritizedTask(id, title, priority, reasoning)) else None
  }

  /** `str()` of a nullable datetime, as an f-string or str() call renders it. */
  function TimeStr(t: Option<Instant>, dates: DateText): string {
    match t
    case Some(v) => dates.str(v)
    case None => "None"
  }

  /** The schedule entry built from a stored task. */
  function FromTask(t: Task, dates: DateText): (s: ScheduledTask)
    ensures s.id == t.id && s.title == t.title
  {
    ScheduledTask(t.id, t.title, TimeStr(t.scheduledStart, dates), TimeStr(t.scheduledEnd, dates))
  }

  function FromTasks(ts: seq<Task>, dates: DateText): (r: seq<ScheduledTask>)
    ensures |r| == |ts|
    ensures forall i :: 0 <= i < |ts| ==> r[i] == FromTask(ts[i], dates)
  {
    if ts == [] then [] else [FromTask(ts[0], dates)] + FromTasks(ts[1..], dates)
  }

  /** The dictionary `_serialize_schedule` makes of one entry. */
  function EntryDict(s: ScheduledTask): Json {
    JObject(map[
      "id" := JInt(s.id),
      "title" := JStr(s.title),
      "start_time" := JStr(s.startTime),
      "end_time" := JStr(s.endTime)])
  }

  function SerializeSchedule(schedule: seq<ScheduledTask>): (r: seq<Json>)
    ensures |r| == |schedule|
  {
    if schedule == [] then [] else [EntryDict(schedule[0])] + SerializeSchedule(schedule[1..])
  }

  /** Reading one dictionary back; None when a key is missing or has another type. */
  function EntryFromDict(j: Json): Option<ScheduledTask> {
    if !j.JObject? then None
    else
      var f := j.fields;
      if "id" in f && f["id"].JInt? && "title" in f && f["title"].JStr?
         && "start_time" in f && f["start_time"].JStr? && "end_time" in f && f["end_time"].JStr?
      then Some(ScheduledTask(f["id"].i, f["title"].s, f["start_time"].s, f["end_time"].s))
      else None
  }

  /** Serialisation keeps length and order, and each entry carries the same id, title, start and end. */
  lemma {:induction false} SerializeScheduleFaithful(schedule: seq<ScheduledTask>)
    ensures forall i :: 0 <= i < |schedule| ==>
      EntryFromDict(SerializeSchedule(schedule)[i]) == Some(schedule[i])
  {
    if schedule != [] {
      SerializeScheduleFaithful(schedule[1..]);
      var r := SerializeSchedule(schedule);
      forall i | 0 <= i < |schedule| ensures EntryFromDict(r[i]) == Some(schedule[i]) {
        if i > 0 {
          assert r[i] == SerializeSchedule(schedule[1..])[i - 1];
        }
      }
    }
  }

  /** What TimeSlotModule is asked. */
  datatype SlotRequest = SlotRequest(
    newTask: string,
    taskContext: string,
    globalContext: string,
    currentDatetime: string,
    existingSchedule: seq<ScheduledTask>)

  /** What TimeSlotModule answers: two datetime texts, not necessarily valid ones. */
  datatype SlotReply = SlotReply(startTime: string, endTime: string)

  /** One call to the oracle and its outcome; None is a raised exception. */
  datatype Exchange = Exchange(request: SlotRequest, reply: Option<SlotReply>)

  /** The language-model scheduler: untrusted, it may answer anything or fail. */
  class TimeSlotOracle {
    /** Every call made so far, in order. */
    var exchanges: seq<Exchange>

    constructor ()
      ensures exchanges == []
    {
      exchanges := [];
    }

    method Ask(request: SlotRequest) returns (reply: Option<SlotReply>)
      modifies this
      ensures exchanges == old(exchanges) + [Exchange(request, reply)]
    {
      reply := *;
      exchanges := exchanges + [Exchange(request, reply)];
    }
  }

  const MaxAttempts := 3

  /**
   * The calls one retried request made: between one and three, all with the
   * same request, every one but the last failed, the last one's outcome is
   * the result, and a failure means all three attempts were spent.
   */
  predicate RetriedCalls(made: seq<Exchange>, request: SlotRequest, reply: Option<SlotReply>) {
    && 1 <= |made| <= MaxAttempts
    && (forall k :: 0 <= k < |made| ==> made[k].request == request)
    && (forall k :: 0 <= k < |made| - 1 ==> made[k].reply.None?)
    && made[|made| - 1].reply == reply
    && (reply.None? ==> |made| == MaxAttempts)
  }

  /** Calls the oracle until it answers, at most three times. */
  method CallWithRetry(oracle: TimeSlotOracle, request: SlotRequest) returns (reply: Option<SlotReply>)
    modifies oracle
    ensures |old(oracle.exchanges)| < |oracle.exchanges|
    ensures oracle.exchanges[..|old(oracle.exchanges)|] == old(oracle.exchanges)
    ensures RetriedCalls(oracle.exchanges[|old(oracle.exchanges)|..], request, reply)
  {
    ghost var before := |oracle.exchanges|;
    var attempt := 0;
    reply := None;
    while attempt < MaxAttempts && reply.None?
      invariant 0 <= attempt <= MaxAttempts
      invariant |oracle.exchanges| == before + attempt
      invariant oracle.exchanges[..before] == old(oracle.exchanges)
      invariant forall k :: before <= k < |oracle.exchanges| ==> oracle.exchanges[k].request == request
      invariant forall k :: before <= k < |oracle.exchanges| - 1 ==> oracle.exchanges[k].reply.None?
      invariant attempt > 0 ==> oracle.exchanges[|oracle.exchanges| - 1].reply == reply
      invariant attempt == 0 ==> reply.None?
    {
      reply := oracle.Ask(request);
      attempt := attempt + 1;
    }
  }
}
