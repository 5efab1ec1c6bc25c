/**
 * The task service (services/task_service.py): creating a task with a
 * slot from the scheduling oracle, falling back to a fixed window when the
 * oracle fails, and the lookups that turn an unknown id into None or false.
 */
module TaskServices {
  import opened Common
  import opened Models
  import opened TaskRepo
  import opened ContextRepo
  import opened Scheduler
  import Config

  /** `_safe_fromisoformat`: None for a missing or empty text and for one that does not parse. */
  function SafeFromIsoformat(dates: DateText, s: Option<string>): (r: Option<Instant>)
    ensures s.None? || s == Some("") ==> r.None?
    ensures r.Some? ==> s.Some? && dates.fromisoformat(s.value) == r
  {
    if s.None? || s.value == "" then None else dates.fromisoformat(s.value)
  }

  /** What isoformat writes, the parse reads back; anything else it refuses comes out as None. */
  lemma SafeFromIsoformatRoundTrip(dates: DateText, t: Instant, s: string)
    requires Faithful(dates)
    ensures SafeFromIsoformat(dates, Some(dates.isoformat(t))) == Some(t)
    ensures dates.fromisoformat(s).None? ==> SafeFromIsoformat(dates, Some(s)).None?
  {
    assert dates.isoformat(t) != "";
  }

  /** Adding less than a day to a midnight stays on that day. */
  lemma SameDay(midnight: Instant, offset: int)
    requires midnight % Day == 0 && 0 <= offset < Day
    ensures DayStart(midnight + offset) == midnight
    ensures TimeOfDay(midnight + offset) == offset
  {
    var t := midnight + offset;
    var d := DayStart(t);
    assert d % Day == 0 && d <= t < d + Day;
    assert midnight - d < Day && d - midnight < Day;
    var q := (midnight - d) / Day;
    assert midnight - d == q * Day;
  }

  /**
   * `_create_fallback_task`'s start: today at the configured hour on the
   * hour, moved to the next day when that is already before now.
   */
  function FallbackStart(now: Instant, startHour: int): (s: Instant)
    requires 0 <= startHour <= 23
    ensures now <= s < now + Day
    ensures TimeOfDay(s) == startHour * Hour
    ensures DayStart(s) == DayStart(now) <==> TimeOfDay(now) <= startHour * Hour
    ensures DayStart(s) != DayStart(now) ==> DayStart(s) == DayStart(now) + Day
  {
    var today := DayStart(now) + startHour * Hour;
    SameDay(DayStart(now), startHour * Hour);
    SameDay(DayStart(now) + Day, startHour * Hour);
    if today < now then today + Day else today
  }

  /** The fallback end: the configured number of hours after the start. */
  function FallbackEnd(start: Instant, durationHours: int): (e: Instant)
    requires durationHours > 0
    ensures e > start && e - start == durationHours * Hour
  {
    start + durationHours * Hour
  }

  /** The unsaved task `create_task` builds from its input and the scheduled window. */
  function Draft(title: string, description: string, context: string, dueDate: Option<Instant>,
                 start: Option<Instant>, end: Option<Instant>, now: Instant): Task
  {
    NewTask(title, now).(description := description, context := context, dueDate := dueDate,
                         scheduledStart := start, scheduledEnd := end)
  }

  /** The task `create_task` stores, given how the oracle answered (None: every attempt raised). */
  function CreatedDraft(title: string, description: string, context: string, dueDate: Option<string>,
                        reply: Option<SlotReply>, now: Instant, dates: DateText, config: Config.Settings): Task
    requires Config.Valid(config)
  {
    var due := SafeFromIsoformat(dates, dueDate);
    match reply
    case Some(slot) =>
      Draft(title, description, context, due,
            SafeFromIsoformat(dates, Some(slot.startTime)), SafeFromIsoformat(dates, Some(slot.endTime)), now)
    case None =>
      var start := FallbackStart(now, config.fallbackStartHour);
      Draft(title, description, context, due, Some(start), Some(FallbackEnd(start, config.fallbackDurationHours)), now)
  }

  /**
   * `create_task` always yields a task holding the given text: a failed
   * oracle yields the fallback window (within a day of now, on the
   * configured hour, lasting the configured hours), an answered one yields
   * its parsed times (null where they are empty or do not parse), and an unparseable due
   * date is stored as null rather than refused.
   */
  lemma CreatedDraftFacts(title: string, description: string, context: string, dueDate: Option<string>,
                          reply: Option<SlotReply>, now: Instant, dates: DateText, config: Config.Settings)
    requires Config.Valid(config)
    ensures var t := CreatedDraft(title, description, context, dueDate, reply, now, dates, config);
      && t.title == title && t.description == description && t.context == context
      && t.createdAt == now && !t.completed && t.actualStart.None? && t.actualEnd.None? && !t.needsScheduling
      && t.dueDate == SafeFromIsoformat(dates, dueDate)
      && (dueDate.Some? && dates.fromisoformat(dueDate.value).None? ==> t.dueDate.None?)
      && (reply.None? ==>
            && t.scheduledStart.Some? && t.scheduledEnd.Some?
            && now <= t.scheduledStart.value < now + Day
            && TimeOfDay(t.scheduledStart.value) == config.fallbackStartHour * Hour
            && t.scheduledEnd.value - t.scheduledStart.value == config.fallbackDurationHours * Hour)
      && (reply.Some? && Faithful(dates) ==>
            && t.scheduledStart == dates.fromisoformat(reply.value.startTime)
            && t.scheduledEnd == dates.fromisoformat(reply.value.endTime))
      && (reply.Some? && reply.value.startTime == "" ==> t.scheduledStart.None?)
      && (reply.Some? && reply.value.endTime == "" ==> t.scheduledEnd.None?)
  {
  }

  /** The request `create_task` puts to the oracle for a given table and context. */
  function CreateRequest(title: string, context: string, tasks: seq<Task>, ctxRows: seq<GlobalContext>,
                         now: Instant, dates: DateText): SlotRequest
  {
    SlotRequest(title, context, GetOrCreateRows(ctxRows)[0].context.GetOr(""), dates.isoformat(now),
                FromTasks(Scheduled(tasks), dates))
  }

  class TaskService {
    const taskRepo: TaskRepository
    const contextRepo: ContextRepository
    const oracle: TimeSlotOracle
    const config: Config.Settings
    const dates: DateText

    ghost predicate Valid()
      reads this, taskRepo
    {
      taskRepo.Valid() && Config.Valid(config)
    }

    constructor (taskRepo: TaskRepository, contextRepo: ContextRepository, oracle: TimeSlotOracle,
                 config: Config.Settings, dates: DateText)
      requires taskRepo.Valid() && Config.Valid(config)
      ensures Valid()
      ensures this.taskRepo == taskRepo && this.contextRepo == contextRepo && this.oracle == oracle
      ensures this.config == config && this.dates == dates
    {
      this.taskRepo := taskRepo;
      this.contextRepo := contextRepo;
      this.oracle := oracle;
      this.config := config;
      this.dates := dates;
    }

    /**
     * Asks the oracle for a slot (up to three attempts) and stores the new
     * task with it, or with the fallback window when every attempt failed.
     */
    method CreateTask(title: string, description: string, context: string, dueDate: Option<string>, now: Instant)
      returns (created: Task)
      requires Valid()
      modifies taskRepo, contextRepo, oracle
      ensures Valid()
      ensures contextRepo.rows == GetOrCreateRows(old(contextRepo.rows))
      ensures |old(oracle.exchanges)| < |oracle.exchanges|
      ensures oracle.exchanges[..|old(oracle.exchanges)|] == old(oracle.exchanges)
      ensures var made := oracle.exchanges[|old(oracle.exchanges)|..];
        && RetriedCalls(made, CreateRequest(title, context, old(taskRepo.tasks), old(contextRepo.rows), now, dates),
                        made[|made| - 1].reply)
        && created == CreatedDraft(title, description, context, dueDate, made[|made| - 1].reply, now, dates, config)
                        .(id := NextId(old(taskRepo.tasks)))
      ensures taskRepo.tasks == old(taskRepo.tasks) + [created]
    {
      var scheduled := taskRepo.GetScheduled();
      var g := contextRepo.GetOrCreate();
      var request := SlotRequest(title, context, g.context.GetOr(""), dates.isoformat(now), FromTasks(scheduled, dates));
      ghost var before := |oracle.exchanges|;
      var reply := CallWithRetry(oracle, request);
      if reply.Some? {
        var draft := Draft(title, description, context, SafeFromIsoformat(dates, dueDate),
                           SafeFromIsoformat(dates, Some(reply.value.startTime)),
                           SafeFromIsoformat(dates, Some(reply.value.endTime)), now);
        created := taskRepo.Create(draft);
      } else {
        created := CreateFallbackTask(title, description, context, dueDate, now);
      }
    }

    method CreateFallbackTask(title: string, description: string, context: string, dueDate: Option<string>, now: Instant)
      returns (created: Task)
      requires Valid()
      modifies taskRepo
      ensures Valid()
      ensures created == CreatedDraft(title, description, context, dueDate, None, now, dates, config)
                         .(id := NextId(old(taskRepo.tasks)))
      ensures taskRepo.tasks == old(taskRepo.tasks) + [created]
    {
      var start := FallbackStart(now, config.fallbackStartHour);
      var end := FallbackEnd(start, config.fallbackDurationHours);
      var draft := Draft(title, description, context, SafeFromIsoformat(dates, dueDate), Some(start), Some(end), now);
      created := taskRepo.Create(draft);
    }

    /** Starts the task; None for an unknown id, the refusal for a refused start. */
    method StartTask(id: int, now: Instant) returns (r: Result<Option<Task>, TransitionError>)
      requires Valid()
      modifies taskRepo
      ensures Valid()
      ensures IndexOf(old(taskRepo.tasks), id).None? ==> r == Ok(None) && taskRepo.tasks == old(taskRepo.tasks)
      ensures IndexOf(old(taskRepo.tasks), id).Some? ==>
        var i := IndexOf(old(taskRepo.tasks), id).value;
        match Start(old(taskRepo.tasks), i, now)
        case Ok(ts) => taskRepo.tasks == ts && r == Ok(Some(ts[i]))
        case Err(e) => taskRepo.tasks == old(taskRepo.tasks) && r == Err(e)
    {
      var task := taskRepo.GetById(id);
      if task.None? {
        return Ok(None);
      }
      var started := taskRepo.StartTask(task.value.id, now);
      match started
      case Ok(t) => r := Ok(Some(t));
      case Err(e) => r := Err(e);
    }

    /** Completes the task; None for an unknown id, the refusal for a never-started task. */
    method CompleteTask(id: int, now: Instant) returns (r: Result<Option<Task>, TransitionError>)
      requires Valid()
      modifies taskRepo
      ensures Valid()
      ensures IndexOf(old(taskRepo.tasks), id).None? ==> r == Ok(None) && taskRepo.tasks == old(taskRepo.tasks)
      ensures IndexOf(old(taskRepo.tasks), id).Some? ==>
        var i := IndexOf(old(taskRepo.tasks), id).value;
        match Complete(old(taskRepo.tasks), i, now)
        case Ok(ts) => taskRepo.tasks == ts && r == Ok(Some(ts[i]))
        case Err(e) => taskRepo.tasks == old(taskRepo.tasks) && r == Err(e)
    {
      var task := taskRepo.GetById(id);
      if task.None? {
        return Ok(None);
      }
      var completed := taskRepo.CompleteTask(task.value.id, now);
      match completed
      case Ok(t) => r := Ok(Some(t));
      case Err(e) => r := Err(e);
    }

    /** Deletes the task; true exactly when it existed, and afterwards it is gone. */
    method DeleteTask(id: int) returns (deleted: bool)
      requires Valid()
      modifies taskRepo
      ensures Valid()
      ensures deleted <==> IndexOf(old(taskRepo.tasks), id).Some?
      ensures Find(taskRepo.tasks, id).None?
      ensures !deleted ==> taskRepo.tasks == old(taskRepo.tasks)
      ensures deleted ==> taskRepo.tasks == Removed(old(taskRepo.tasks), IndexOf(old(taskRepo.tasks), id).value)
    {
      var task := taskRepo.GetById(id);
      if task.None? {
        return false;
      }
      taskRepo.Delete(task.value.id);
      deleted := true;
    }
  }
}
