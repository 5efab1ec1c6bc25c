/**
 * The backup script (backup_db.py): every task as a record without its id,
 * the first global-context row, and the time of the backup, as one JSON
 * document. Writing the file is a parameter: whether it can be written.
 */
module Backup {
  import opened Common
  import opened Models

  /** `d.isoformat() if d else None`: a datetime is always truthy. */
  function TimeField(t: Option<Instant>, dates: DateText): Json {
    OptionalTimeJson(t, dates.isoformat)
  }

  /** The keys of a task record: every column but the id and the creation time. */
  const RecordKeys: set<string> := {"title", "description", "context", "due_date", "scheduled_start_time",
                                    "scheduled_end_time", "actual_start_time", "actual_end_time",
                                    "priority", "completed", "needs_scheduling"}

  function TaskRecord(t: Task, dates: DateText): Json {
    JObject(map[
      "title" := JStr(t.title),
      "description" := JStr(t.description),
      "context" := JStr(t.context),
      "due_date" := TimeField(t.dueDate, dates),
      "scheduled_start_time" := TimeField(t.scheduledStart, dates),
      "scheduled_end_time" := TimeField(t.scheduledEnd, dates),
      "actual_start_time" := TimeField(t.actualStart, dates),
      "actual_end_time" := TimeField(t.actualEnd, dates),
      "priority" := JFloat(t.priority),
      "completed" := JBool(t.completed),
      "needs_scheduling" := JBool(t.needsScheduling)])
  }

  /** The records of the rows, in the order the table returns them. */
  function TaskRecords(ts: seq<Task>, dates: DateText): (r: seq<Json>)
    ensures |r| == |ts|
    ensures forall i :: 0 <= i < |ts| ==> r[i] == TaskRecord(ts[i], dates)
  {
    if ts == [] then [] else TaskRecords(ts[..|ts| - 1], dates) + [TaskRecord(ts[|ts| - 1], dates)]
  }

  /** `{'context': ctx.context}` for the first row, null when the table is empty. */
  function ContextRecord(rows: seq<GlobalContext>): Json {
    if rows == [] then JNull
    else JObject(map["context" := match rows[0].context case None => JNull case Some(s) => JStr(s)])
  }

  /** The document `backup_database` writes. */
  function BackupJson(ts: seq<Task>, rows: seq<GlobalContext>, now: Instant, dates: DateText): Json {
    JObject(map[
      "backup_time" := JStr(dates.isoformat(now)),
      "tasks" := JList(TaskRecords(ts, dates)),
      "global_context" := ContextRecord(rows)])
  }

  /** A record carries no id, and a null exactly where the task's time is unset. */
  lemma RecordFacts(t: Task, dates: DateText)
    ensures var rec := TaskRecord(t, dates);
      && rec.JObject? && rec.fields.Keys == RecordKeys && "id" !in rec.fields
      && rec.fields["title"] == JStr(t.title)
      && rec.fields["needs_scheduling"] == JBool(t.needsScheduling)
      && (rec.fields["due_date"] == JNull <==> t.dueDate.None?)
      && (rec.fields["scheduled_start_time"] == JNull <==> t.scheduledStart.None?)
      && (rec.fields["scheduled_end_time"] == JNull <==> t.scheduledEnd.None?)
      && (rec.fields["actual_start_time"] == JNull <==> t.actualStart.None?)
      && (rec.fields["actual_end_time"] == JNull <==> t.actualEnd.None?)
  {
    RecordValues(t, dates);
    RecordKeySet(t, dates);
  }

  lemma RecordKeySet(t: Task, dates: DateText)
    ensures TaskRecord(t, dates).fields.Keys == RecordKeys
  {
  }

  /** The value under each key of a record. */
  lemma RecordValues(t: Task, dates: DateText)
    ensures var f := TaskRecord(t, dates).fields;
      && f["title"] == JStr(t.title) && f["description"] == JStr(t.description) && f["context"] == JStr(t.context)
      && f["due_date"] == TimeField(t.dueDate, dates)
      && f["scheduled_start_time"] == TimeField(t.scheduledStart, dates)
      && f["scheduled_end_time"] == TimeField(t.scheduledEnd, dates)
      && f["actual_start_time"] == TimeField(t.actualStart, dates)
      && f["actual_end_time"] == TimeField(t.actualEnd, dates)
      && f["priority"] == JFloat(t.priority) && f["completed"] == JBool(t.completed)
      && f["needs_scheduling"] == JBool(t.needsScheduling)
  {
    RecordTexts(t, dates);
    RecordTimes(t, dates);
    RecordFlags(t, dates);
  }

  lemma RecordTexts(t: Task, dates: DateText)
    ensures var f := TaskRecord(t, dates).fields;
      f["title"] == JStr(t.title) && f["description"] == JStr(t.description) && f["context"] == JStr(t.context)
  {
  }

  lemma RecordTimes(t: Task, dates: DateText)
    ensures var f := TaskRecord(t, dates).fields;
      && f["due_date"] == TimeField(t.dueDate, dates)
      && f["scheduled_start_time"] == TimeField(t.scheduledStart, dates)
      && f["scheduled_end_time"] == TimeField(t.scheduledEnd, dates)
      && f["actual_start_time"] == TimeField(t.actualStart, dates)
      && f["actual_end_time"] == TimeField(t.actualEnd, dates)
  {
  }

  lemma RecordFlags(t: Task, dates: DateText)
    ensures var f := TaskRecord(t, dates).fields;
      && f["priority"] == JFloat(t.priority) && f["completed"] == JBool(t.completed)
      && f["needs_scheduling"] == JBool(t.needsScheduling)
  {
  }

  /**
   * The backup holds the backup time, one record per stored task in table
   * order and nothing else (no settings, no chat log); the context entry is
   * null exactly when there is no context row, and otherwise holds the
   * first row's text.
   */
  lemma BackupFacts(ts: seq<Task>, rows: seq<GlobalContext>, now: Instant, dates: DateText)
    ensures var doc := BackupJson(ts, rows, now, dates);
      && doc.JObject? && doc.fields.Keys == {"backup_time", "tasks", "global_context"}
      && doc.fields["tasks"] == JList(TaskRecords(ts, dates))
      && |TaskRecords(ts, dates)| == |ts|
      && (ts == [] ==> doc.fields["tasks"] == JList([]))
      && (doc.fields["global_context"] == JNull <==> rows == [])
      && (rows != [] && rows[0].context.Some? ==>
            doc.fields["global_context"] == JObject(map["context" := JStr(rows[0].context.value)]))
  {
    if ts == [] {
      assert TaskRecords(ts, dates) == [];
    }
  }

  /**
   * `backup_database`: reads every task and the first context row and
   * writes the document; true exactly when the file could be written, and
   * then `written` is the document. The store is only read.
   */
  method BackupDatabase(tasks: seq<Task>, rows: seq<GlobalContext>, now: Instant, dates: DateText, writable: bool)
    returns (ok: bool, written: Option<Json>)
    ensures ok == writable
    ensures ok ==> written == Some(BackupJson(tasks, rows, now, dates))
    ensures !ok ==> written.None?
  {
    var records: seq<Json> := [];
    var k := 0;
    while k < |tasks|
      invariant 0 <= k <= |tasks|
      invariant records == TaskRecords(tasks[..k], dates)
    {
      assert tasks[..k + 1][..k] == tasks[..k];
      records := records + [TaskRecord(tasks[k], dates)];
      k := k + 1;
    }
    assert tasks[..k] == tasks;
    var globalContext := JNull;
    if rows != [] {
      globalContext := JObject(map["context" := match rows[0].context case None => JNull case Some(s) => JStr(s)]);
    }
    var doc := JObject(map["backup_time" := JStr(dates.isoformat(now)), "tasks" := JList(records),
                           "global_context" := globalContext]);
    if !writable {
      return false, None;
    }
    ok, written := true, Some(doc);
  }
}
