# Task scheduling store: a Dafny model

This project models the core of a small task-scheduling web application.
Users create tasks; a language-model "oracle" proposes a time slot for each
new task; a periodic check reschedules overdue tasks; and a chat assistant
can create, start, complete or delete tasks. The application keeps:

- the task table, with its guarded `start_task` / `complete_task`
  transitions and its queries (all, by id, incomplete, scheduled, active);
- the single-row global-context table (free-text preferences handed to the
  oracle) and the single-row settings table;
- two append-only logs: chat messages and recorded oracle calls;
- the request validators, the configuration validators, and the backup and
  restore scripts that move tasks through a JSON document.

## How it is modelled

- **Tables.** Each table is a `seq` field of a repository class, kept in
  rowid order. That is the order SQLite returns rows in when a query has no
  ORDER BY. An insert takes the largest rowid plus one, so rowids increase
  along the table; that is every repository's `Valid()`. ORDER BY is an
  insertion sort (`Seqs.SortBy`), proved sorted and a permutation.
  WHERE is `Seqs.Filter`; LIMIT is `Seqs.Limit`.
- **Time.** A naive local `Instant`, in microseconds. Midnight and time of
  day are computed with `%` on whole days. `datetime.now()` is a parameter `now`.
- **Date text.** `isoformat`, `str` and `fromisoformat` are the fields of a
  `DateText` value; `fromisoformat` answers `None` where Python raises. The
  ghost predicate `Faithful` states the one property the round-trip lemmas
  rely on: isoformat is never empty and parses back to the same instant.
- **The oracle.** The oracle and the chat assistant are classes whose one
  method may answer anything (`reply := *`) and logs every call. The
  tenacity retry is a loop of at most three attempts
  (`Scheduler.CallWithRetry`). Its contract pins down exactly which calls
  were made.
- **Exceptions.** A raised exception is an `Err`/`None` result. A
  transaction's rollback is the store put back to the state saved before it.
- **Shapes not in models.py.** The `needs_scheduling` column, and the
  ChatMessage and Settings tables, are used by the code but not defined in
  models.py. They are added with exactly the columns the code touches.

## Model

| member | source | states |
|---|---|---|
| Models.NewTask | models.py:11-22 | a new task has the given title, empty description and context, priority 0.0, not completed, no times set, so it is neither active nor missing an end time |
| Models.NewGlobalContext | models.py:27-28 | a new context row holds the empty text |
| Config.Load | config.py:34-53 | a configuration loads iff interval > 0, start hour in [0, 23] and duration > 0; each error message is reported iff its own condition fails |
| Config.DefaultsLoad | config.py:14-32 | the defaults (interval 5, scheduler on, hour 9, one hour) pass every validator, whatever the API key |
| Schemas.Strip | schemas.py:15-17 | `strip()` drops exactly the leading and trailing whitespace: the result is the input between the whitespace runs at its two ends |
| Schemas.StripEnds | schemas.py:15-17 | a non-empty stripped text starts and ends with a non-space character |
| Schemas.StripEmpty | schemas.py:15-17 | stripping leaves nothing iff every character is whitespace |
| Schemas.StripIdempotent | schemas.py:15-17 | stripping twice is stripping once |
| Schemas.ValidateTaskCreate | schemas.py:6-29 | a task request is accepted iff the title has 1..200 characters, not all whitespace, and description and context have at most 1000; the stored title is stripped; a rejection names at least one field |
| Schemas.ValidateContextUpdate | schemas.py:32-40 | a context update is accepted iff its text has at most 5000 characters, and then holds that text |
| Schemas.ValidateSettingsUpdate | schemas.py:43-61 | a settings update is accepted iff the model name has 1..200 characters, not all whitespace, contains '/', and 100 <= max_tokens <= 10000; the name is stored stripped |
| Schemas.AcceptedTitleIsTrimmed | schemas.py:8-17 | an accepted title is non-empty, at most 200 characters, has no whitespace at either end, and is the input with its surrounding whitespace removed |
| Scheduler.MakePrioritizedTask | scheduler.py:11-15 | a PrioritizedTask can be built iff its priority lies in [0, 10], and keeps the given priority and id |
| Scheduler.FromTask | scheduler.py:17-21 | a schedule entry carries the originating task's id and title unchanged |
| Scheduler.FromTasks | services/task_service.py:71-74 | one schedule entry per task, in the same order |
| Scheduler.SerializeSchedule | scheduler.py:53-63 | serialising keeps the number of entries |
| Scheduler.SerializeScheduleFaithful | scheduler.py:53-63 | entry i of the serialised list reads back as exactly entry i of the schedule (same id, title, start and end), so length and order are kept |
| Scheduler.TimeSlotOracle.Ask | scheduler.py:65-88 | one oracle call: any answer or a failure, logged with its request |
| Scheduler.CallWithRetry | services/task_service.py:45-60 | the oracle is called one to three times with the same request; every call but the last failed; the last call's outcome is the result; a failure means all three attempts were spent |
| TaskRepo.NextId | models.py:11 | the next rowid is at least 1 and above every id in the table |
| TaskRepo.InsertedIds | models.py:11 | an insert keeps rowids increasing, and the new row's id is above every earlier one |
| TaskRepo.IndexOf | repositories/task_repository.py:17-19 | finds a row with the given id, and finds none iff no row has it |
| TaskRepo.IndexOfAt | repositories/task_repository.py:17-19 | with increasing ids, looking up a row's id finds that very row |
| TaskRepo.FirstActive | repositories/task_repository.py:29-31 | the first started, incomplete row; none iff there is no such row |
| TaskRepo.OrdersArePreorders | repositories/task_repository.py:13-27 | both orderings (scheduled start ascending with NULL first; priority descending then due date) are total preorders |
| TaskRepo.ScheduledContents | repositories/task_repository.py:25-27 | the scheduled query returns exactly the tasks with a start time, each once, sorted by start time |
| TaskRepo.StartRefusedIff | repositories/task_repository.py:45-60 | `start_task` is refused iff the task is completed, or it is unstarted while another task is active |
| TaskRepo.StartLeavesOneActive | repositories/task_repository.py:53-59 | a successful start changes at most the task's own start time; afterwards it is the one and only active task |
| TaskRepo.StartWhenStartedIsNoOp | repositories/task_repository.py:53-60 | starting an already started, incomplete task changes nothing |
| TaskRepo.CompleteEffects | repositories/task_repository.py:62-73 | `complete_task` is refused iff the task was never started; otherwise it completes the task with an end time, changes no other row, activates nothing, and keeps "at most one active task" and "completed implies an end time" |
| TaskRepo.RemovedEffects | repositories/task_repository.py:40-43 | deleting removes exactly that task: it is no longer found, every other row stays, ids still increase |
| TaskRepo.TaskRepository.GetAll | repositories/task_repository.py:13-15 | every task once, highest priority first, then by due date |
| TaskRepo.TaskRepository.GetById | repositories/task_repository.py:17-19 | the stored task with that id; none iff no task has it |
| TaskRepo.TaskRepository.GetIncomplete | repositories/task_repository.py:21-23 | exactly the tasks that are not completed |
| TaskRepo.IncompleteIdsIncreasing | repositories/task_repository.py:21-23 | the incomplete tasks come back in increasing rowid order |
| TaskRepo.TaskRepository.GetScheduled | repositories/task_repository.py:25-27 | exactly the tasks with a start time, sorted by it |
| TaskRepo.TaskRepository.GetActive | repositories/task_repository.py:29-31 | a started, incomplete task if one exists, else none; when at most one is active, it is that one |
| TaskRepo.TaskRepository.Create | repositories/task_repository.py:33-38 | appends the draft under the next rowid, above every existing id |
| TaskRepo.TaskRepository.Delete | repositories/task_repository.py:40-43 | removes that row; the id is then not found |
| TaskRepo.TaskRepository.StartTask | repositories/task_repository.py:45-60 | the table becomes the started table and the started task is returned, or the refusal is raised and nothing changes |
| TaskRepo.TaskRepository.CompleteTask | repositories/task_repository.py:62-73 | the table becomes the completed table and the completed task is returned, or the refusal is raised and nothing changes |
| TaskServices.SafeFromIsoformat | services/task_service.py:14-22 | None for a missing or empty text and for one that does not parse; otherwise the parsed time |
| TaskServices.SafeFromIsoformatRoundTrip | services/task_service.py:14-22 | what isoformat writes parses back to the same time; an unparseable text gives None instead of raising |
| TaskServices.FallbackStart | services/task_service.py:128-135 | the fallback start is at the configured hour on the hour, today if that is not before now, else tomorrow, so now <= start < now + 24h |
| TaskServices.FallbackEnd | services/task_service.py:137 | the fallback end is exactly the configured number of hours after the start, so it is later |
| TaskServices.CreatedDraftFacts | services/task_service.py:62-102 | a created task keeps the given text and is not started; an oracle failure yields the fallback window; an answer yields its parsed times, null where empty or unparseable; a bad due date is stored as null |
| TaskServices.TaskService.CreateTask | services/task_service.py:62-102 | asks the oracle for the scheduled tasks and the context text, with up to three attempts, then stores exactly one task built from the answer, or from the fallback window when every attempt failed |
| TaskServices.TaskService.CreateFallbackTask | services/task_service.py:126-148 | stores one task with the fallback window |
| TaskServices.TaskService.StartTask | services/task_service.py:104-109 | None for an unknown id with nothing changed; otherwise the repository's start |
| TaskServices.TaskService.CompleteTask | services/task_service.py:111-116 | None for an unknown id with nothing changed; otherwise the repository's complete |
| TaskServices.TaskService.DeleteTask | services/task_service.py:118-124 | true iff the task existed; afterwards no task has that id, and a false call changes nothing |
| ScheduleChecker.OthersContents | schedule_checker.py:49-52 | the schedule handed to the oracle holds exactly the other scheduled, incomplete tasks, never the task being moved |
| ScheduleChecker.AfterReplyFrame | schedule_checker.py:58-74 | a reschedule changes only the two scheduled fields of its own row, and only when the oracle answered with two parseable times, which are then stored; a failure leaves the table unchanged |
| ScheduleChecker.ExistingSchedule | schedule_checker.py:48-52 | the entries of the other scheduled, incomplete tasks |
| ScheduleChecker.ApplyReply | schedule_checker.py:66-74 | the table after the answer is the one AfterReplyFrame describes, and the outcome names which case happened |
| ScheduleChecker.AskForSlot | schedule_checker.py:48-65 | puts the request (title, own context or the default text, global text, now, other tasks' slots) to the oracle through the three-attempt retry |
| ScheduleChecker.RescheduleTask | schedule_checker.py:42-76 | without an oracle nothing changes; otherwise the retried request is made and the table changes as AfterReplyFrame describes |
| ScheduleChecker.CountFlaggedIsFilter | schedule_checker.py:94-106 | the counter equals the number of tasks the selection flags |
| ScheduleChecker.MoveFlagged | schedule_checker.py:104-106 | rescheduling a flagged, incomplete row keeps the check within its bounds |
| ScheduleChecker.SameRequest | schedule_checker.py:55-65 | the request for a row depends only on its id, title and context and on the first context row after get-or-create, so the copy the loop holds and the stored row give the same request |
| ScheduleChecker.IncompleteRows | schedule_checker.py:92 | the k-th task `get_incomplete` returns is the row at a position rowOf[k] of the table, and those positions increase |
| ScheduleChecker.VisitsRows | schedule_checker.py:94-106 | after any number of loop visits, each row whose flagged visit got two parseable times holds exactly those times and is otherwise as it was; every other row is untouched |
| ScheduleChecker.VisitStep | schedule_checker.py:94-106 | one more loop visit extends the record of tables, oracle calls and answers by that visit |
| ScheduleChecker.RowStep | schedule_checker.py:104-105 | a flagged row handed to `reschedule_task` is found at its own position, the request made is the one built from that row, and the table left stays within the check's bounds |
| ScheduleChecker.CheckRow | schedule_checker.py:95-106 | one loop pass: the flag is the selection; a flagged row with an oracle is put to the oracle (the retried request built from the table as it then stands) and the table becomes the one that answer gives; an unflagged row, or no oracle, makes no call and changes nothing; the pass ends the check iff the answer held an unparseable time |
| ScheduleChecker.Visit | schedule_checker.py:94-106 | the k-th loop pass, with the record of visits, calls and tables extended by it, and the bad time when it ends the check |
| ScheduleChecker.CheckRows | schedule_checker.py:94-115 | visits the incomplete tasks in order; visit j finds table j, asks the oracle about its row iff flagged (and an oracle is configured), and leaves table j+1 as that answer gives; the oracle log grows by exactly those calls; the result counts the flagged tasks, or is the first unparseable time, at the visit that stopped |
| ScheduleChecker.CheckAndUpdateSchedule | schedule_checker.py:78-117 | every flagged incomplete task, in rowid order, is put to the oracle against the table as earlier reschedules left it, and each row whose answer held two parseable times ends with exactly those times; no other row and no other field changes; the result counts the flagged tasks, including those whose reschedule did nothing, or is the first unparseable time; without an oracle nothing changes |
| ContextRepo.GetOrCreateRows | repositories/context_repository.py:16-23 | get-or-create inserts one empty-text row into an empty table and otherwise changes nothing |
| ContextRepo.Overwritten | repositories/context_repository.py:25-34 | update sets the first row's text, or inserts the one row into an empty table; no other row and no id changes |
| ContextRepo.GetOrCreateIdempotent | repositories/context_repository.py:16-23 | a second get-or-create changes nothing and returns the same row |
| ContextRepo.AtMostOneRow | repositories/context_repository.py:16-34 | from at most one row, any sequence of get-or-create and update calls leaves at most one row (exactly one after any call), keeping its id |
| ContextRepo.ContextRepository.Get | repositories/context_repository.py:12-14 | the first row; none iff the table is empty |
| ContextRepo.ContextRepository.GetOrCreate | repositories/context_repository.py:16-23 | the table after get-or-create, and its first row |
| ContextRepo.ContextRepository.Update | repositories/context_repository.py:25-34 | the table after the overwrite; the returned row holds the new text |
| ContextServices.UpdateThenGet | services/context_service.py:10-18 | after `update_context(t)`, `get_context` returns t and inserts nothing |
| ContextServices.GetContextText | services/context_service.py:10-13 | `get_context` on an empty table gives ""; otherwise the first row's text, with null read as "" |
| ContextServices.ContextService.GetContext | services/context_service.py:10-13 | creates the row if missing and returns its text, never null |
| ContextServices.ContextService.UpdateContext | services/context_service.py:15-18 | stores the text and returns exactly it |
| SettingsRepo.GetOrCreateRows | repositories/settings_repository.py:13-21 | get-or-create inserts one row into an empty table and otherwise changes nothing |
| SettingsRepo.Updated | repositories/settings_repository.py:23-30 | update sets the model name and token limit of that row only; the row count and its id stay |
| SettingsRepo.GetOrCreateIdempotent | repositories/settings_repository.py:13-21 | a repeated get-or-create inserts nothing and returns the row with the same id |
| SettingsRepo.SettingsRepository.GetOrCreate | repositories/settings_repository.py:13-21 | the table after get-or-create, and its first row |
| SettingsRepo.SettingsRepository.Update | repositories/settings_repository.py:23-30 | the table after the update; the returned row holds exactly the arguments |
| SettingsServices.ExactlyOneRow | services/settings_service.py:13-20 | from an empty table, any non-empty run of service calls leaves exactly one row, with rowid 1 |
| SettingsServices.UpdateThenGet | services/settings_service.py:13-20 | after `update_settings(m, k)`, `get_settings` returns m and k and inserts nothing |
| SettingsServices.SettingsService.GetSettings | services/settings_service.py:13-15 | get-or-create |
| SettingsServices.SettingsService.UpdateSettings | services/settings_service.py:17-20 | creates the row if missing, then sets both values, which the returned row holds |
| ChatRepo.NextId | repositories/chat_repository.py:16-22 | a new message's rowid is above every stored one |
| ChatRepo.RecentContents | repositories/chat_repository.py:24-26 | `get_recent(limit)` returns min(limit, count) stored messages, newest first: the first ones of the newest-first order |
| ChatRepo.AllContents | repositories/chat_repository.py:28-30 | `get_all` returns every message once, oldest first |
| ChatRepo.TrimSplits | repositories/chat_repository.py:40-50 | the deleted and the kept messages together are the whole log; when nothing is older than the cutoff, nothing is deleted |
| ChatRepo.ChatRepository.Create | repositories/chat_repository.py:16-22 | appends exactly one message under the next rowid; the others stay |
| ChatRepo.ChatRepository.GetRecent | repositories/chat_repository.py:24-26 | at most `limit` messages, newest first, all stored ones |
| ChatRepo.ChatRepository.GetAll | repositories/chat_repository.py:28-30 | every message once, oldest first |
| ChatRepo.ChatRepository.DeleteAll | repositories/chat_repository.py:32-38 | returns the count held beforehand and leaves the log empty |
| ChatRepo.ChatRepository.DeleteOldRecords | repositories/chat_repository.py:40-50 | removes exactly the messages created before now minus the retention days, keeps the rest in order, and returns how many it removed |
| ExecutionRepo.NextId | repositories/dspy_execution_repository.py:16-20 | a new record's rowid is above every stored one |
| ExecutionRepo.LatestContents | repositories/dspy_execution_repository.py:12-14 | `get_latest(limit)` returns min(limit, count) stored records, oldest first: the first ones in ascending creation order |
| ExecutionRepo.ExecutionRepository.Create | repositories/dspy_execution_repository.py:16-20 | appends exactly one record and returns it |
| ExecutionRepo.ExecutionRepository.GetLatest | repositories/dspy_execution_repository.py:12-14 | min(limit, count) records, oldest first, without changing the table |
| ChatServices.TextOr | services/chat_service.py:56-58 | `text or default`: the default for a missing or empty text, else the text |
| ChatServices.CreateActionEffects | services/chat_service.py:54-62 | "create_task" appends one task above every id, titled "Untitled Task" when the title is empty or missing, marked as needing scheduling, and reports success with its id |
| ChatServices.NotFoundChangesNothing | services/chat_service.py:64-92 | start, complete, stop or delete with an unknown id reports "Task not found" and changes nothing |
| ChatServices.OtherActionsChangeNothing | services/chat_service.py:64-97 | an unknown action, or a task action without a truthy id, reports "Action executed" and changes nothing |
| ChatServices.DeleteActionEffects | services/chat_service.py:88-95 | "delete_task" removes exactly that task and reports the title read before the delete |
| ChatServices.StopActionRaises | services/chat_service.py:80-86 | "stop_task" on a stored task raises, because the repository has no `stop_task`, and changes nothing |
| ChatServices.FailedActionChangesNothing | services/chat_service.py:50-97 | an action that fails or raises leaves the task table unchanged |
| ChatServices.ActionKeepsInvariants | services/chat_service.py:50-97 | every action keeps rowids increasing, at most one task active, and every completed task with an end time |
| ChatServices.ChatRepliesChangeNothing | services/chat_service.py:114-115 | an empty action, "chat" or "list_tasks" dispatches nothing and changes no task |
| ChatServices.RaisedActionIsFailure | services/chat_service.py:116-127 | an action that raises becomes a failed result carrying the exception text, and the table is kept |
| ChatServices.ComposeReply | services/chat_service.py:130-132 | the stored answer extends the assistant's text, and differs from it iff an action ran and failed; the extension is "\n\nNote: " and the failure message |
| ChatServices.TaskEntries | services/chat_service.py:34-47 | one entry per task, in order |
| ChatServices.EntryFacts | services/chat_service.py:35-45 | an entry has exactly the nine listed keys, the task's id, and null exactly where a time is unset |
| ChatServices.TaskListFacts | services/chat_service.py:31-48 | the list has one entry per stored task (an empty list for an empty table), in `get_all` order, each as EntryFacts states |
| ChatServices.ChatAssistant.Forward | services/chat_service.py:107-111 | one assistant call: any answer, logged with its inputs |
| ChatServices.ChatService.GetTaskListJson | services/chat_service.py:31-48 | the entry list of the stored tasks in `get_all` order |
| ChatServices.ChatService.ExecuteAction | services/chat_service.py:50-97 | the table and the result are those of the action's effect, with the exception text as Err |
| ChatServices.ChatService.ExecuteOnTask | services/chat_service.py:64-95 | the start, complete, stop or delete branch on the task looked up |
| ChatServices.ChatService.ProcessMessage | services/chat_service.py:99-139 | asks the assistant once (task list, context text or "No global context set"), applies its action, and stores exactly one message holding the composed answer |
| ChatServices.ChatService.GetChatHistory | services/chat_service.py:141-143 | the recent messages, newest first, at most `limit` |
| ChatServices.ChatService.ClearChatHistory | services/chat_service.py:145-147 | returns the count held beforehand and empties the log |
| Backup.TaskRecords | backup_db.py:18-32 | one record per task, in table order |
| Backup.RecordFacts | backup_db.py:20-32 | a record has exactly the eleven column keys and no id, and a null exactly where the task's time is unset |
| Backup.RecordValues | backup_db.py:20-32 | the value under each key of a record is the task's column value, times as isoformat text |
| Backup.BackupFacts | backup_db.py:11-37 | the document holds only the backup time, one record per task, and the context entry; an empty store gives an empty list; the context entry is null iff there is no context row, and otherwise holds the first row's text |
| Backup.BackupDatabase | backup_db.py:7-46 | true iff the file can be written, and then the written document is the backup of the store; the store is only read |
| Restore.DecodeTime | restore_db.py:26-30 | a falsy value restores as null; a truthy one must be a text that parses, and restores as the parsed time; anything else fails |
| Restore.DecodeRecord | restore_db.py:24-33 | a record that restores is an object with every required key; the task gets no id yet, the restore time as creation time, the record's title, and `needs_scheduling` false when the key is absent |
| Restore.DecodeFields | restore_db.py:24-33 | the same, for the fields of an object |
| Restore.DecodeFieldsOf | restore_db.py:24-33 | fields holding what the backup writes for a task decode to that task, with `needs_scheduling` false when absent |
| Restore.DecodeAll | restore_db.py:23-34 | the records all decode, one task per record in order, or some record fails and the restore fails |
| Restore.Items | restore_db.py:23 | a list iterates its items; an empty object or text iterates nothing; anything else fails |
| Restore.ContextStepOf | restore_db.py:15-20 | an absent or falsy context entry leaves the table alone; otherwise its `context` value is written |
| Restore.InsertAllRows | restore_db.py:23-36 | the inserts append one row per record after the existing rows, with consecutive new ids |
| Restore.InsertAllIds | restore_db.py:23-36 | the inserts keep rowids increasing |
| Restore.RestoreFailures | restore_db.py:9-40 | all or nothing: an unreadable document, a missing backup time or task list, or one bad record anywhere restores nothing |
| Restore.RestoreAdds | restore_db.py:15-36 | a successful restore keeps every existing task, adds exactly one per record with consecutive ids, and changes the context table by at most its first row's text or the one row it lacked |
| Restore.TimeRoundTrip | restore_db.py:26-30 | a time the backup wrote reads back as the same time, and null as null |
| Restore.RecordEncodes | backup_db.py:20-32 | a backup record holds, under every key restore reads, what restore expects for its task |
| Restore.RecordRoundTrip | restore_db.py:24-33 | restoring the backup record of a task yields that task again, apart from id and creation time |
| Restore.OldRecordRoundTrip | restore_db.py:32 | a record without `needs_scheduling` restores with it false and every other field kept |
| Restore.RecordsRoundTrip | restore_db.py:23-34 | the backup's record list decodes to the backed-up tasks, in order |
| Restore.BackupRestoreRoundTrip | restore_db.py:9-36 | backup then restore adds every backed-up task again after the existing rows, with all fields but id and creation time reproduced, and carries the context text over |
| Restore.BackupDocParts | backup_db.py:11-37 | a backup document has what restore reads: the backup time, the record list, and a context step |
| Restore.BackupContextStep | restore_db.py:15-20 | a backup without a context row leaves the context table alone; one with a row sets that row's text |
| Restore.RestoreDatabase | restore_db.py:6-42 | commits exactly when the document restores, and then the store is the restored one; otherwise it is rolled back to what it was |
| Restore.RestoreKeepsNeitherInvariant | restore_db.py:23-34 | restore copies each record's start, end and completion unchecked: a store with an active task that restores its own backup has two active tasks, and a completed record without an end time breaks "completed implies an end time" |
| Restore.AddRecords | restore_db.py:23-40 | adds one task per record, or on the first bad record takes the added ones back out |

## Left out

- Routers, the application setup (`app.py`), templates and `services/inference_service.py` are presentation or pass-through code, so they are not modelled.
- The background interval job and thread concurrency are not modelled; every operation runs sequentially. Even then, the single-active-task and end-time invariants are kept by the task operations only: a restore can break both (Restore.RestoreKeepsNeitherInvariant).
- The row lock of the settings query (`with_for_update`) matters only under concurrency, so it is not modelled.
- The DSPy signatures and modules, `PrioritizerModule` and `chat_assistant.py` are foreign calls. They are an oracle that answers anything.
- The execution tracker (`dspy_tracker.py`, and its decorator on `process_message`) does timing and logging in its own session, so it is not modelled.
- Tenacity's exponential wait between attempts is timing, so it is not modelled; only the three-attempt bound is kept.
- Logging and `print` output are not modelled.
- The JSON and datetime library internals are abstract parameters: `json.dumps` is the Json value itself, and the date text functions are `DateText`.
- Database failures and their rollbacks are not modelled. This covers the failure path of `delete_old_records` (repositories/chat_repository.py:51-54) and an insert that raises inside `create_task`.
- The datetime range (years 1 to 9999) and `timedelta` overflow are not modelled, because `Instant` is unbounded. Float priorities and durations are `real`.
- Several `datetime.now()` calls inside one operation are one `now`. In `_create_fallback_task` the source calls it twice.
- Default arguments (`limit=50`, the backup and restore file names) are explicit parameters.
- The Settings table's column defaults are not in the source, so they are a parameter of the settings repository.
- A `singleton=True` column is passed by the settings repository and by restore, but no model defines it, so it is dropped.
- TaskRepo.TaskRepository.StartTask, TaskRepo.TaskRepository.CompleteTask and TaskRepo.TaskRepository.Delete require a stored id, because the source is handed a task that `get_by_id` just found; the failure when that row vanished in between is not modelled.
- SettingsRepo.SettingsRepository.Update requires the row to exist, because `refresh` raises on a deleted row.
- Restore.DecodeFields refuses a text column that is not a JSON string, a priority that is not a number, a flag that is not a boolean, and a null description, context, priority or completed flag. SQLAlchemy over SQLite might store some of these, so the model is stricter.
- Restore.ContextStepOf refuses a `context` value that is neither null nor a string, for the same reason.
- Restore.RestoreDatabase returns whether it committed; the script returns None and prints the outcome instead.
- Backup.BackupDatabase takes whether the file can be written as a parameter; a failure while reading the store is not modelled.
- Restore and backup lose each task's id and creation time: records carry neither, and a restored task gets a new id and the restore time. The round-trip lemmas state exactly that.
- `stop_task` is called at services/chat_service.py:85, but TaskRepository has no such method. The model raises AttributeError there, as the code would; what a stop was meant to do is not invented.
- Code wins where the tests disagree with it. test_components.py:339-372 expects an invalid oracle time to null the schedule, but schedule_checker.py:72 raises, and the model raises. test_components.py:253-258 expects newest first, but repositories/dspy_execution_repository.py:14 sorts oldest first, and the model does too.
- The system's design notes describe states and steps the code does not have, and the model follows the code. In the design notes:
  - creation gives a fallback schedule with `needs_scheduling` true;
  - a separate step applies a schedule and clears `needs_scheduling`;
  - priorities are assigned in a batch;
  - tasks can move to a STOPPED state;
  - the global context has a uniqueness constraint.

  In the code, `create_task` asks the oracle first and falls back only on failure, stores `needs_scheduling` false, and has no stop or batch-priority operation.
