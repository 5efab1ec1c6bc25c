/**
 * The chat service (services/chat_service.py): the assistant reads the task
 * list and the global context, answers with a reply and possibly an action,
 * the action is carried out on the task table, and the exchange is logged.
 */
module ChatServices {
  import opened Common
  import opened Seqs
  import opened Models
  import opened TaskRepo
  import opened ContextRepo
  import ChatRepo

  /** What `_execute_action` reports back. */
  datatype ActionResult = ActionResult(success: bool, taskId: Option<nat>, message: string)

  /** Python's `text or default` on an optional string. */
  function TextOr(s: Option<string>, default: string): (r: string)
    ensures s.None? || s == Some("") ==> r == default
    ensures s.Some? && s.value != "" ==> r == s.value
  {
    if s.None? || s.value == "" then default else s.value
  }

  /** A task id counts only when it is truthy: present and not 0. */
  predicate IdGiven(taskId: Option<int>) {
    taskId.Some? && taskId.value != 0
  }

  /** The actions that act on an existing task. */
  predicate OnTask(action: string) {
    action == "start_task" || action == "complete_task" || action == "stop_task" || action == "delete_task"
  }

  /** The text of the AttributeError `stop_task` raises: the repository has no such method. */
  const StopTaskMissing: string := "'TaskRepository' object has no attribute 'stop_task'"

  /** The row `create_task` inserts: empty text replaced by defaults, and flagged for scheduling. */
  function CreateDraft(title: Option<string>, description: Option<string>, context: Option<string>, now: Instant): Task {
    NewTask(TextOr(title, "Untitled Task"), now).(description := TextOr(description, ""),
                                                    context := TextOr(context, ""), needsScheduling := true)
  }

  /** A start, complete, stop or delete on the task in row `i`. */
  function TaskActionEffect(ts: seq<Task>, action: string, i: nat, now: Instant): (seq<Task>, Result<ActionResult, string>)
    requires i < |ts|
  {
    var t := ts[i];
    if action == "start_task" then
      match Start(ts, i, now)
      case Ok(after) => (after, Ok(ActionResult(true, None, "Task '" + t.title + "' started")))
      case Err(e) => (ts, Err(e.Message()))
    else if action == "complete_task" then
      match Complete(ts, i, now)
      case Ok(after) => (after, Ok(ActionResult(true, None, "Task '" + t.title + "' completed")))
      case Err(e) => (ts, Err(e.Message()))
    else if action == "stop_task" then
      (ts, Err(StopTaskMissing))
    else
      (Removed(ts, i), Ok(ActionResult(true, None, "Task '" + t.title + "' deleted")))
  }

  /**
   * The task table after `_execute_action` and what it returns, or the text
   * of the exception it raises (Err).
   */
  function ActionEffect(ts: seq<Task>, action: string, taskId: Option<int>, title: Option<string>,
                        description: Option<string>, context: Option<string>, now: Instant)
    : (seq<Task>, Result<ActionResult, string>)
  {
    if action == "create_task" then
      var created := CreateDraft(title, description, context, now).(id := NextId(ts));
      (Inserted(ts, CreateDraft(title, description, context, now)),
       Ok(ActionResult(true, Some(created.id), "Task '" + created.title + "' created")))
    else if OnTask(action) && IdGiven(taskId) then
      match IndexOf(ts, taskId.value)
      case None => (ts, Ok(ActionResult(false, None, "Task not found")))
      case Some(i) => TaskActionEffect(ts, action, i, now)
    else
      (ts, Ok(ActionResult(true, None, "Action executed")))
  }

  /**
   * `create_task` inserts one row with the given text (an empty or missing
   * title becomes "Untitled Task", empty description and context stay
   * empty), marked as needing scheduling, under a rowid above every other,
   * and reports success with that id.
   */
  lemma CreateActionEffects(ts: seq<Task>, taskId: Option<int>, title: Option<string>,
                            description: Option<string>, context: Option<string>, now: Instant)
    requires IdsIncreasing(ts)
    ensures var (after, r) := ActionEffect(ts, "create_task", taskId, title, description, context, now);
      && |after| == |ts| + 1 && after[..|ts|] == ts
      && IdsIncreasing(after)
      && (forall j :: 0 <= j < |ts| ==> ts[j].id < after[|ts|].id)
      && (title.None? || title == Some("") ==> after[|ts|].title == "Untitled Task")
      && (title.Some? && title.value != "" ==> after[|ts|].title == title.value)
      && (description.None? ==> after[|ts|].description == "")
      && (context.None? ==> after[|ts|].context == "")
      && after[|ts|].needsScheduling && !after[|ts|].completed && after[|ts|].actualStart.None?
      && r.Ok? && r.value.success && r.value.taskId == Some(after[|ts|].id)
  {
    InsertedIds(ts, CreateDraft(title, description, context, now));
    assert Inserted(ts, CreateDraft(title, description, context, now))[..|ts|] == ts;
  }

  /** An action on an unknown task reports "Task not found" and changes nothing. */
  lemma NotFoundChangesNothing(ts: seq<Task>, action: string, id: int, title: Option<string>,
                               description: Option<string>, context: Option<string>, now: Instant)
    requires OnTask(action) && id != 0
    requires forall j :: 0 <= j < |ts| ==> ts[j].id != id
    ensures ActionEffect(ts, action, Some(id), title, description, context, now)
      == (ts, Ok(ActionResult(false, None, "Task not found")))
  {
  }

  /**
   * Any other action, or a task action without a truthy id, reports
   * "Action executed" and changes nothing.
   */
  lemma OtherActionsChangeNothing(ts: seq<Task>, action: string, taskId: Option<int>, title: Option<string>,
                                  description: Option<string>, context: Option<string>, now: Instant)
    requires action != "create_task"
    requires !OnTask(action) || taskId.None? || taskId == Some(0)
    ensures ActionEffect(ts, action, taskId, title, description, context, now)
      == (ts, Ok(ActionResult(true, None, "Action executed")))
  {
  }

  /**
   * `delete_task` on a stored task removes exactly that row, which is then
   * not found, and reports the title read before the delete.
   */
  lemma DeleteActionEffects(ts: seq<Task>, i: nat, title: Option<string>,
                            description: Option<string>, context: Option<string>, now: Instant)
    requires IdsIncreasing(ts) && i < |ts| && ts[i].id != 0
    ensures var (after, r) := ActionEffect(ts, "delete_task", Some(ts[i].id), title, description, context, now);
      && after == Removed(ts, i)
      && Find(after, ts[i].id).None?
      && |after| == |ts| - 1
      && r == Ok(ActionResult(true, None, "Task '" + ts[i].title + "' deleted"))
  {
    IndexOfAt(ts, i);
    RemovedEffects(ts, i);
  }

  /** `stop_task` on a stored task raises, because the repository has no `stop_task`; nothing changes. */
  lemma StopActionRaises(ts: seq<Task>, id: int, title: Option<string>,
                         description: Option<string>, context: Option<string>, now: Instant)
    requires id != 0 && IndexOf(ts, id).Some?
    ensures ActionEffect(ts, "stop_task", Some(id), title, description, context, now) == (ts, Err(StopTaskMissing))
  {
  }

  /** An action that fails or raises leaves the table as it was. */
  lemma FailedActionChangesNothing(ts: seq<Task>, action: string, taskId: Option<int>, title: Option<string>,
                                   description: Option<string>, context: Option<string>, now: Instant)
    ensures var (after, r) := ActionEffect(ts, action, taskId, title, description, context, now);
      r.Err? || !r.value.success ==> after == ts
  {
  }

  /**
   * Every action keeps the table's invariants: rowids increase, at most one
   * task is active, and every completed task has its completion time.
   */
  lemma ActionKeepsInvariants(ts: seq<Task>, action: string, taskId: Option<int>, title: Option<string>,
                              description: Option<string>, context: Option<string>, now: Instant)
    requires IdsIncreasing(ts) && SingleActive(ts) && EndsRecorded(ts)
    ensures var after := ActionEffect(ts, action, taskId, title, description, context, now).0;
      IdsIncreasing(after) && SingleActive(after) && EndsRecorded(after)
  {
    var after := ActionEffect(ts, action, taskId, title, description, context, now).0;
    if action == "create_task" {
      var draft := CreateDraft(title, description, context, now);
      InsertedIds(ts, draft);
      assert after == ts + [draft.(id := NextId(ts))];
      assert !after[|ts|].IsActive();
    } else if OnTask(action) && IdGiven(taskId) && IndexOf(ts, taskId.value).Some? {
      var i := IndexOf(ts, taskId.value).value;
      if action == "start_task" && Start(ts, i, now).Ok? {
        StartLeavesOneActive(ts, i, now);
        StartRefusedIff(ts, i, now);
        assert forall j :: 0 <= j < |ts| ==> after[j].id == ts[j].id;
      } else if action == "complete_task" && Complete(ts, i, now).Ok? {
        CompleteEffects(ts, i, now);
        assert forall j :: 0 <= j < |ts| ==> after[j].id == ts[j].id;
      } else if action == "delete_task" {
        RemovedEffects(ts, i);
        RemovedKeeps(ts, i);
      }
    }
  }

  /** Deleting a row keeps at most one task active and every completion recorded. */
  lemma RemovedKeeps(ts: seq<Task>, i: nat)
    requires i < |ts| && SingleActive(ts) && EndsRecorded(ts)
    ensures SingleActive(Removed(ts, i)) && EndsRecorded(Removed(ts, i))
  {
    var r := Removed(ts, i);
    assert forall k :: 0 <= k < |r| ==> r[k] == ts[if k < i then k else k + 1];
  }

  /** `process_message` hands the reply's action to `_execute_action` unless it is empty, "chat" or "list_tasks". */
  predicate ShouldDispatch(action: Option<string>) {
    action.Some? && action.value != "" && action.value != "chat" && action.value != "list_tasks"
  }

  /** What the assistant's structured answer carries. */
  datatype AssistantReply = AssistantReply(
    action: Option<string>,
    taskId: Option<int>,
    title: Option<string>,
    description: Option<string>,
    context: Option<string>,
    response: string)

  /**
   * The table after `process_message` acts on the reply, and the action
   * result it keeps: None when nothing was dispatched, a failure carrying
   * the exception text when the action raised.
   */
  function ProcessedAction(ts: seq<Task>, reply: AssistantReply, now: Instant): (seq<Task>, Option<ActionResult>) {
    if !ShouldDispatch(reply.action) then (ts, None)
    else
      var (after, r) := ActionEffect(ts, reply.action.value, reply.taskId, reply.title, reply.description,
                                     reply.context, now);
      match r
      case Ok(result) => (after, Some(result))
      case Err(text) => (after, Some(ActionResult(false, None, text)))
  }

  /** A conversational reply or a task listing touches no task and records no action. */
  lemma ChatRepliesChangeNothing(ts: seq<Task>, reply: AssistantReply, now: Instant)
    requires reply.action.None? || reply.action.value in {"", "chat", "list_tasks"}
    ensures ProcessedAction(ts, reply, now) == (ts, None)
  {
  }

  /** An action that raises becomes a failed result with the exception text, and the table is kept. */
  lemma RaisedActionIsFailure(ts: seq<Task>, reply: AssistantReply, now: Instant)
    requires ShouldDispatch(reply.action)
    requires ActionEffect(ts, reply.action.value, reply.taskId, reply.title, reply.description, reply.context, now).1.Err?
    ensures var (after, result) := ProcessedAction(ts, reply, now);
      && after == ts
      && result == Some(ActionResult(false, None,
           ActionEffect(ts, reply.action.value, reply.taskId, reply.title, reply.description, reply.context, now).1.error))
  {
  }

  const NoteSeparator: string := "\n\nNote: "

  /** The stored answer: the assistant's text, with a note appended exactly when an action failed. */
  function ComposeReply(response: string, result: Option<ActionResult>): (r: string)
    ensures response <= r
    ensures r != response <==> result.Some? && !result.value.success
    ensures result.Some? && !result.value.success ==> r[|response|..] == NoteSeparator + result.value.message
  {
    if result.Some? && !result.value.success then response + NoteSeparator + result.value.message else response
  }

  /** A task's entry in the list shown to the assistant; a missing time is null. */
  function TaskEntry(t: Task, dates: DateText): Json {
    JObject(map[
      "id" := JInt(t.id),
      "title" := JStr(t.title),
      "description" := JStr(t.description),
      "context" := JStr(t.context),
      "priority" := JFloat(t.priority),
      "completed" := JBool(t.completed),
      "scheduled_start" := OptionalTimeJson(t.scheduledStart, dates.str),
      "scheduled_end" := OptionalTimeJson(t.scheduledEnd, dates.str),
      "actual_start" := OptionalTimeJson(t.actualStart, dates.str)])
  }

  function TaskEntries(ts: seq<Task>, dates: DateText): (r: seq<Json>)
    ensures |r| == |ts|
    ensures forall i :: 0 <= i < |ts| ==> r[i] == TaskEntry(ts[i], dates)
  {
    if ts == [] then [] else [TaskEntry(ts[0], dates)] + TaskEntries(ts[1..], dates)
  }

  /** `_get_task_list_json`: the entries of `get_all`'s rows, in its order. */
  function TaskListJson(ts: seq<Task>, dates: DateText): Json {
    JList(TaskEntries(AllOrdered(ts), dates))
  }

  /** An entry holds the id and the listed fields, with null exactly where a time is unset. */
  lemma EntryFacts(t: Task, dates: DateText)
    ensures var e := TaskEntry(t, dates);
      && e.JObject?
      && e.fields.Keys == {"id", "title", "description", "context", "priority", "completed",
                           "scheduled_start", "scheduled_end", "actual_start"}
      && e.fields["id"] == JInt(t.id)
      && (e.fields["scheduled_start"] == JNull <==> t.scheduledStart.None?)
      && (e.fields["scheduled_end"] == JNull <==> t.scheduledEnd.None?)
      && (e.fields["actual_start"] == JNull <==> t.actualStart.None?)
  {
  }

  /**
   * The list holds one entry per stored task (none for an empty table),
   * highest priority first, and an entry's time field is null exactly when
   * the task's time is unset.
   */
  lemma TaskListFacts(ts: seq<Task>, dates: DateText)
    ensures TaskListJson(ts, dates).JList?
    ensures var items := TaskListJson(ts, dates).items;
      && |items| == |ts|
      && (ts == [] ==> items == [])
      && multiset(AllOrdered(ts)) == multiset(ts)
      && SortedBy(AllOrdered(ts), PriorityDueLe)
      && forall i :: 0 <= i < |items| ==>
           && items[i].JObject?
           && items[i].fields.Keys == {"id", "title", "description", "context", "priority", "completed",
                                       "scheduled_start", "scheduled_end", "actual_start"}
           && items[i].fields["id"] == JInt(AllOrdered(ts)[i].id)
           && (items[i].fields["scheduled_start"] == JNull <==> AllOrdered(ts)[i].scheduledStart.None?)
           && (items[i].fields["scheduled_end"] == JNull <==> AllOrdered(ts)[i].scheduledEnd.None?)
           && (items[i].fields["actual_start"] == JNull <==> AllOrdered(ts)[i].actualStart.None?)
  {
    OrdersArePreorders();
    SortBySorted(ts, PriorityDueLe);
    var sorted := AllOrdered(ts);
    var items := TaskListJson(ts, dates).items;
    forall i | 0 <= i < |items|
      ensures && items[i].JObject?
              && items[i].fields.Keys == {"id", "title", "description", "context", "priority", "completed",
                                          "scheduled_start", "scheduled_end", "actual_start"}
              && items[i].fields["id"] == JInt(sorted[i].id)
              && (items[i].fields["scheduled_start"] == JNull <==> sorted[i].scheduledStart.None?)
              && (items[i].fields["scheduled_end"] == JNull <==> sorted[i].scheduledEnd.None?)
              && (items[i].fields["actual_start"] == JNull <==> sorted[i].actualStart.None?)
    {
      EntryFacts(sorted[i], dates);
    }
  }

  /** The text the assistant is given as the global context. */
  function GlobalText(rows: seq<GlobalContext>): string {
    TextOr(GetOrCreateRows(rows)[0].context, "No global context set")
  }

  /** One question put to the assistant and its answer. */
  datatype AssistantCall = AssistantCall(userMessage: string, taskList: Json, globalContext: string, reply: AssistantReply)

  /** The assistant: it may answer anything; every call is logged. */
  class ChatAssistant {
    var calls: seq<AssistantCall>

    constructor ()
      ensures calls == []
    {
      calls := [];
    }

    method Forward(userMessage: string, taskList: Json, globalContext: string) returns (reply: AssistantReply)
      modifies this
      ensures calls == old(calls) + [AssistantCall(userMessage, taskList, globalContext, reply)]
    {
      reply := *;
      calls := calls + [AssistantCall(userMessage, taskList, globalContext, reply)];
    }
  }

  class ChatService {
    const chatRepo: ChatRepo.ChatRepository
    const taskRepo: TaskRepository
    const contextRepo: ContextRepository
    const assistant: ChatAssistant
    const dates: DateText

    ghost predicate Valid()
      reads this, chatRepo, taskRepo
    {
      chatRepo.Valid() && taskRepo.Valid()
    }

    constructor (chatRepo: ChatRepo.ChatRepository, taskRepo: TaskRepository, contextRepo: ContextRepository,
                 assistant: ChatAssistant, dates: DateText)
      requires chatRepo.Valid() && taskRepo.Valid()
      ensures Valid()
      ensures this.chatRepo == chatRepo && this.taskRepo == taskRepo && this.contextRepo == contextRepo
      ensures this.assistant == assistant && this.dates == dates
    {
      this.chatRepo := chatRepo;
      this.taskRepo := taskRepo;
      this.contextRepo := contextRepo;
      this.assistant := assistant;
      this.dates := dates;
    }

    method GetTaskListJson() returns (j: Json)
      ensures j == TaskListJson(taskRepo.tasks, dates)
    {
      var all := taskRepo.GetAll();
      j := JList(TaskEntries(all, dates));
    }

    /** `_execute_action`; Err carries the text of the exception it raises. */
    method ExecuteAction(action: string, taskId: Option<int>, title: Option<string>, description: Option<string>,
                         context: Option<string>, now: Instant) returns (r: Result<ActionResult, string>)
      requires Valid()
      modifies taskRepo
      ensures Valid()
      ensures (taskRepo.tasks, r) == ActionEffect(old(taskRepo.tasks), action, taskId, title, description, context, now)
    {
      if action == "create_task" {
        var created := taskRepo.Create(CreateDraft(title, description, context, now));
        return Ok(ActionResult(true, Some(created.id), "Task '" + created.title + "' created"));
      }
      if OnTask(action) && IdGiven(taskId) {
        var task := taskRepo.GetById(taskId.value);
        if task.None? {
          return Ok(ActionResult(false, None, "Task not found"));
        }
        r := ExecuteOnTask(action, task.value, IndexOf(taskRepo.tasks, taskId.value).value, now);
        return;
      }
      r := Ok(ActionResult(true, None, "Action executed"));
    }

    /** The branch of `_execute_action` that acts on the task it looked up. */
    method ExecuteOnTask(action: string, t: Task, ghost i: nat, now: Instant) returns (r: Result<ActionResult, string>)
      requires Valid() && i < |taskRepo.tasks| && taskRepo.tasks[i] == t
      modifies taskRepo
      ensures Valid()
      ensures (taskRepo.tasks, r) == TaskActionEffect(old(taskRepo.tasks), action, i, now)
    {
      IndexOfAt(taskRepo.tasks, i);
      if action == "start_task" {
        var started := taskRepo.StartTask(t.id, now);
        if started.Err? {
          return Err(started.error.Message());
        }
        return Ok(ActionResult(true, None, "Task '" + t.title + "' started"));
      } else if action == "complete_task" {
        var completed := taskRepo.CompleteTask(t.id, now);
        if completed.Err? {
          return Err(completed.error.Message());
        }
        return Ok(ActionResult(true, None, "Task '" + t.title + "' completed"));
      } else if action == "stop_task" {
        return Err(StopTaskMissing);
      }
      var titleBackup := t.title;
      taskRepo.Delete(t.id);
      r := Ok(ActionResult(true, None, "Task '" + titleBackup + "' deleted"));
    }

    /**
     * `process_message`: asks the assistant once, carries out its action,
     * and stores exactly one chat message holding the composed answer.
     */
    method ProcessMessage(userMessage: string, now: Instant) returns (m: ChatMessage)
      requires Valid()
      modifies chatRepo, taskRepo, contextRepo, assistant
      ensures Valid()
      ensures contextRepo.rows == GetOrCreateRows(old(contextRepo.rows))
      ensures |assistant.calls| == |old(assistant.calls)| + 1
      ensures assistant.calls[..|old(assistant.calls)|] == old(assistant.calls)
      ensures var call := assistant.calls[|old(assistant.calls)|];
        && call.userMessage == userMessage
        && call.taskList == TaskListJson(old(taskRepo.tasks), dates)
        && call.globalContext == GlobalText(old(contextRepo.rows))
        && var (after, result) := ProcessedAction(old(taskRepo.tasks), call.reply, now);
           && taskRepo.tasks == after
           && m == ChatMessage(ChatRepo.NextId(old(chatRepo.messages)), userMessage,
                               ComposeReply(call.reply.response, result), now)
      ensures chatRepo.messages == old(chatRepo.messages) + [m]
    {
      var taskList := GetTaskListJson();
      var g := contextRepo.GetOrCreate();
      var globalContext := TextOr(g.context, "No global context set");
      var reply := assistant.Forward(userMessage, taskList, globalContext);
      var result: Option<ActionResult> := None;
      if ShouldDispatch(reply.action) {
        var executed := ExecuteAction(reply.action.value, reply.taskId, reply.title, reply.description,
                                      reply.context, now);
        match executed
        case Ok(ar) => result := Some(ar);
        case Err(text) => result := Some(ActionResult(false, None, text));
      }
      var finalResponse := ComposeReply(reply.response, result);
      m := chatRepo.Create(ChatMessage(0, userMessage, finalResponse, now));
    }

    method GetChatHistory(limit: int) returns (r: seq<ChatMessage>)
      ensures r == ChatRepo.Recent(chatRepo.messages, limit)
      ensures SortedBy(r, ChatRepo.NewestFirst)
      ensures 0 <= limit ==> |r| == if limit < |chatRepo.messages| then limit else |chatRepo.messages|
    {
      r := chatRepo.GetRecent(limit);
    }

    method ClearChatHistory() returns (count: nat)
      modifies chatRepo
      ensures count == |old(chatRepo.messages)| && chatRepo.messages == []
    {
      count := chatRepo.DeleteAll();
    }
  }
}
