/**
 * The restore script (restore_db.py): reads a backup document, sets the
 * global context from it and adds one new task per record, all in one
 * transaction. Any exception (an unreadable file, a missing key, a value of
 * the wrong kind, a time that does not parse) rolls the whole restore back.
 * The file's contents are a parameter: None when it cannot be read or is
 * not JSON. Restore keeps neither "at most one active task" nor "completed
 * implies an end time": it copies each record's start, end and completion
 * as they are (RestoreKeepsNeitherInvariant).
 */
module Restore {
  import opened Common
  import opened Models
  import opened TaskRepo
  import opened ContextRepo
  import opened Backup

  /**
   * `datetime.fromisoformat(v) if v else None`: a falsy value restores as
   * null, a text must parse, and anything else fails (Some(None) is a null
   * column, None a failure).
   */
  function DecodeTime(v: Json, dates: DateText): (r: Option<Option<Instant>>)
    ensures !Truthy(v) ==> r == Some(None)
    ensures Truthy(v) ==> (r.Some? <==> v.JStr? && dates.fromisoformat(v.s).Some?)
    ensures r.Some? && r.value.Some? ==> dates.fromisoformat(v.s) == r.value
  {
    if !Truthy(v) then Some(None)
    else if v.JStr? && dates.fromisoformat(v.s).Some? then Some(dates.fromisoformat(v.s))
    else None
  }

  /** A text column takes a JSON string. */
  function DecodeText(v: Json): Option<string> {
    if v.JStr? then Some(v.s) else None
  }

  /** The Float column takes a JSON number, an integer one converted. */
  function DecodeReal(v: Json): Option<real> {
    match v
    case JFloat(f) => Some(f)
    case JInt(i) => Some(i as real)
    case _ => None
  }

  /** The Boolean columns take a JSON boolean. */
  function DecodeBool(v: Json): Option<bool> {
    if v.JBool? then Some(v.b) else None
  }

  /** The keys `restore_database` reads with `t[...]`: all but `needs_scheduling`. */
  predicate HasRequiredKeys(f: map<string, Json>) {
    && "title" in f && "description" in f && "context" in f
    && "due_date" in f && "scheduled_start_time" in f && "scheduled_end_time" in f
    && "actual_start_time" in f && "actual_end_time" in f
    && "priority" in f && "completed" in f
  }

  /**
   * The task one backup record adds, before the insert gives it an id; the
   * creation time is the time of the restore, since records do not carry it.
   * `needs_scheduling` is read with `t.get(..., False)`.
   */
  function DecodeRecord(rec: Json, now: Instant, dates: DateText): (r: Option<Task>)
    ensures r.Some? ==> rec.JObject? && HasRequiredKeys(rec.fields)
    ensures r.Some? ==> r.value.id == 0 && r.value.createdAt == now
    ensures r.Some? ==> rec.fields["title"] == JStr(r.value.title)
    ensures r.Some? && "needs_scheduling" !in rec.fields ==> !r.value.needsScheduling
  {
    if !rec.JObject? || !HasRequiredKeys(rec.fields) then None
    else DecodeFields(rec.fields, now, dates)
  }

  function DecodeFields(f: map<string, Json>, now: Instant, dates: DateText): (r: Option<Task>)
    requires HasRequiredKeys(f)
    ensures r.Some? ==> r.value.id == 0 && r.value.createdAt == now
    ensures r.Some? ==> f["title"] == JStr(r.value.title)
    ensures r.Some? && "needs_scheduling" !in f ==> !r.value.needsScheduling
  {
    var title := DecodeText(f["title"]);
    var description := DecodeText(f["description"]);
    var context := DecodeText(f["context"]);
    var due := DecodeTime(f["due_date"], dates);
    var start := DecodeTime(f["scheduled_start_time"], dates);
    var end := DecodeTime(f["scheduled_end_time"], dates);
    var actualStart := DecodeTime(f["actual_start_time"], dates);
    var actualEnd := DecodeTime(f["actual_end_time"], dates);
    var priority := DecodeReal(f["priority"]);
    var completed := DecodeBool(f["completed"]);
    var needsScheduling := if "needs_scheduling" in f then DecodeBool(f["needs_scheduling"]) else Some(false);
    if && title.Some? && description.Some? && context.Some? && due.Some? && start.Some? && end.Some?
       && actualStart.Some? && actualEnd.Some? && priority.Some? && completed.Some? && needsScheduling.Some?
    then
      Some(Task(0, title.value, description.value, context.value, due.value, start.value, end.value,
                actualStart.value, actualEnd.value, priority.value, completed.value, needsScheduling.value, now))
    else None
  }

  /** `f` holds, under every key restore requires, what the backup writes for `t`. */
  ghost predicate Encodes(f: map<string, Json>, t: Task, dates: DateText) {
    && HasRequiredKeys(f)
    && f["title"] == JStr(t.title) && f["description"] == JStr(t.description) && f["context"] == JStr(t.context)
    && f["due_date"] == TimeField(t.dueDate, dates)
    && f["scheduled_start_time"] == TimeField(t.scheduledStart, dates)
    && f["scheduled_end_time"] == TimeField(t.scheduledEnd, dates)
    && f["actual_start_time"] == TimeField(t.actualStart, dates)
    && f["actual_end_time"] == TimeField(t.actualEnd, dates)
    && f["priority"] == JFloat(t.priority) && f["completed"] == JBool(t.completed)
  }

  /** Fields holding what the backup writes for `t` decode to `t`, with `needs_scheduling` false when absent. */
  lemma DecodeFieldsOf(f: map<string, Json>, t: Task, now: Instant, dates: DateText)
    requires Faithful(dates)
    requires Encodes(f, t, dates)
    requires "needs_scheduling" in f ==> f["needs_scheduling"] == JBool(t.needsScheduling)
    ensures DecodeFields(f, now, dates)
         == Some(t.(id := 0, createdAt := now, needsScheduling := "needs_scheduling" in f && t.needsScheduling))
  {
    TimeRoundTrip(t.dueDate, dates);
    TimeRoundTrip(t.scheduledStart, dates);
    TimeRoundTrip(t.scheduledEnd, dates);
    TimeRoundTrip(t.actualStart, dates);
    TimeRoundTrip(t.actualEnd, dates);
  }

  /** Dropping a key restore does not require keeps the encoding. */
  lemma EncodesWithout(f: map<string, Json>, t: Task, dates: DateText)
    requires Encodes(f, t, dates)
    ensures Encodes(f - {"needs_scheduling"}, t, dates)
  {
  }

  /** The tasks of all records, or None as soon as one record fails. */
  function DecodeAll(items: seq<Json>, now: Instant, dates: DateText): (r: Option<seq<Task>>)
    ensures r.None? <==> exists i :: 0 <= i < |items| && DecodeRecord(items[i], now, dates).None?
    ensures r.Some? ==> |r.value| == |items|
    ensures r.Some? ==> forall i :: 0 <= i < |items| ==> DecodeRecord(items[i], now, dates) == Some(r.value[i])
  {
    if items == [] then Some([])
    else
      var init := DecodeAll(items[..|items| - 1], now, dates);
      var last := DecodeRecord(items[|items| - 1], now, dates);
      if init.None? then
        var i :| 0 <= i < |items| - 1 && DecodeRecord(items[..|items| - 1][i], now, dates).None?;
        assert DecodeRecord(items[i], now, dates).None?;
        None
      else if last.None? then None
      else Some(init.value + [last.value])
  }

  /**
   * What `for t in backup_data['tasks']` iterates over: a list's items; an
   * empty object or text has nothing to iterate, and a non-empty one yields
   * keys or characters that fail on `t['title']`; anything else is not
   * iterable.
   */
  function Items(v: Json): (r: Option<seq<Json>>)
    ensures v.JList? ==> r == Some(v.items)
    ensures r.Some? && !v.JList? ==> r == Some([])
  {
    match v
    case JList(items) => Some(items)
    case JObject(f) => if f == map[] then Some([]) else None
    case JStr(s) => if s == "" then Some([]) else None
    case _ => None
  }

  /** What the document does to the global-context table. */
  datatype ContextStep = Keep | SetTo(v: Option<string>) | Broken

  /**
   * `if backup_data.get('global_context')`: an absent or falsy entry leaves
   * the table alone; otherwise the entry's `context` value (null or a text)
   * is written, and anything else fails.
   */
  function ContextStepOf(f: map<string, Json>): (r: ContextStep)
    ensures ("global_context" !in f || !Truthy(f["global_context"])) <==> r == Keep
    ensures r.SetTo? ==> f["global_context"].JObject? && "context" in f["global_context"].fields
  {
    if "global_context" !in f || !Truthy(f["global_context"]) then Keep
    else match f["global_context"]
      case JObject(g) =>
        if "context" !in g then Broken
        else (match g["context"]
          case JNull => SetTo(None)
          case JStr(s) => SetTo(Some(s))
          case _ => Broken)
      case _ => Broken
  }

  /** The task table after inserting the drafts, first to last. */
  function InsertAll(ts: seq<Task>, drafts: seq<Task>): seq<Task> {
    if drafts == [] then ts else Inserted(InsertAll(ts, drafts[..|drafts| - 1]), drafts[|drafts| - 1])
  }

  /**
   * The inserts append one row per draft, keep the existing rows, and give
   * the new rows consecutive ids from the next free one, changing nothing
   * else in a draft.
   */
  lemma {:induction false} InsertAllRows(ts: seq<Task>, drafts: seq<Task>)
    ensures |InsertAll(ts, drafts)| == |ts| + |drafts|
    ensures InsertAll(ts, drafts)[..|ts|] == ts
    ensures forall k :: 0 <= k < |drafts| ==> InsertAll(ts, drafts)[|ts| + k] == drafts[k].(id := NextId(ts) + k)
  {
    if drafts != [] {
      var init := drafts[..|drafts| - 1];
      var last := drafts[|drafts| - 1];
      InsertAllRows(ts, init);
      var before := InsertAll(ts, init);
      var next := NextId(ts) + |init|;
      if init == [] {
        assert before == ts;
      } else {
        assert before[|before| - 1] == init[|init| - 1].(id := NextId(ts) + |init| - 1);
      }
      assert NextId(before) == next;
      var r := before + [last.(id := next)];
      assert InsertAll(ts, drafts) == r;
      assert r[..|ts|] == before[..|ts|];
      forall k | 0 <= k < |drafts| ensures r[|ts| + k] == drafts[k].(id := NextId(ts) + k) {
        if k < |init| {
          assert r[|ts| + k] == before[|ts| + k];
          assert drafts[k] == init[k];
        }
      }
    }
  }

  /** The inserts keep rowids increasing: every new id lies above the existing ones. */
  lemma InsertAllIds(ts: seq<Task>, drafts: seq<Task>)
    requires IdsIncreasing(ts)
    ensures IdsIncreasing(InsertAll(ts, drafts))
  {
    InsertAllRows(ts, drafts);
    var r := InsertAll(ts, drafts);
    forall a, b | 0 <= a < b < |r| ensures r[a].id < r[b].id {
      if b < |ts| {
        assert r[a] == r[..|ts|][a] && r[b] == r[..|ts|][b];
      } else {
        var kb := b - |ts|;
        assert r[|ts| + kb] == drafts[kb].(id := NextId(ts) + kb);
        if a < |ts| {
          assert r[a] == r[..|ts|][a];
        } else {
          var ka := a - |ts|;
          assert r[|ts| + ka] == drafts[ka].(id := NextId(ts) + ka);
        }
      }
    }
  }

  /**
   * The store after `restore_database` reads `file`, or None when the
   * restore raises and is rolled back.
   */
  function RestoreResult(file: Option<Json>, ts: seq<Task>, rows: seq<GlobalContext>, now: Instant, dates: DateText)
    : Option<(seq<Task>, seq<GlobalContext>)>
  {
    if file.None? || !file.value.JObject? then None
    else
      var f := file.value.fields;
      if "backup_time" !in f || "tasks" !in f then None
      else
        var step := ContextStepOf(f);
        var items := Items(f["tasks"]);
        if step.Broken? || items.None? then None
        else
          var drafts := DecodeAll(items.value, now, dates);
          if drafts.None? then None
          else Some((InsertAll(ts, drafts.value), if step.SetTo? then Overwritten(rows, step.v) else rows))
  }

  /**
   * All or nothing: a document that is not an object, or lacks the backup
   * time or the task list, restores nothing; and one bad record anywhere
   * rolls back every record and the context.
   */
  lemma RestoreFailures(file: Option<Json>, ts: seq<Task>, rows: seq<GlobalContext>, now: Instant, dates: DateText, k: nat)
    ensures file.None? ==> RestoreResult(file, ts, rows, now, dates).None?
    ensures file.Some? && file.value.JObject? && ("backup_time" !in file.value.fields || "tasks" !in file.value.fields)
      ==> RestoreResult(file, ts, rows, now, dates).None?
    ensures file.Some? && file.value.JObject? && "tasks" in file.value.fields && file.value.fields["tasks"].JList?
            && k < |file.value.fields["tasks"].items|
            && DecodeRecord(file.value.fields["tasks"].items[k], now, dates).None?
      ==> RestoreResult(file, ts, rows, now, dates).None?
  {
  }

  /** RestoreResult of a readable document, in terms of its parts. */
  lemma RestoreOfParts(file: Option<Json>, ts: seq<Task>, rows: seq<GlobalContext>, now: Instant, dates: DateText,
                       items: seq<Json>, step: ContextStep)
    requires file.Some? && file.value.JObject?
    requires "backup_time" in file.value.fields && "tasks" in file.value.fields
    requires Items(file.value.fields["tasks"]) == Some(items)
    requires ContextStepOf(file.value.fields) == step && !step.Broken?
    requires DecodeAll(items, now, dates).Some?
    ensures RestoreResult(file, ts, rows, now, dates)
         == Some((InsertAll(ts, DecodeAll(items, now, dates).value), if step.SetTo? then Overwritten(rows, step.v) else rows))
  {
  }

  /**
   * A successful restore keeps every existing row and adds exactly one task
   * per record, with consecutive new ids; the context table gains at most
   * the one row it lacked and otherwise only has its first row's text set.
   */
  lemma RestoreAdds(file: Option<Json>, ts: seq<Task>, rows: seq<GlobalContext>, now: Instant, dates: DateText)
    requires IdsIncreasing(ts)
    requires RestoreResult(file, ts, rows, now, dates).Some?
    ensures var (ts', rows') := RestoreResult(file, ts, rows, now, dates).value;
      var items := Items(file.value.fields["tasks"]).value;
      && |ts'| == |ts| + |items| && ts'[..|ts|] == ts && IdsIncreasing(ts')
      && (forall k :: 0 <= k < |items| ==> ts'[|ts| + k] == DecodeRecord(items[k], now, dates).value.(id := NextId(ts) + k))
      && (rows' == rows
          || (|rows'| == (if rows == [] then 1 else |rows|)
              && (rows != [] ==> rows'[0].id == rows[0].id && rows'[1..] == rows[1..])))
  {
    var f := file.value.fields;
    var items := Items(f["tasks"]).value;
    var step := ContextStepOf(f);
    RestoreOfParts(file, ts, rows, now, dates, items, step);
    var drafts := DecodeAll(items, now, dates).value;
    InsertAllRows(ts, drafts);
    InsertAllIds(ts, drafts);
  }

  /** With a faithful parser, a time written by the backup reads back as the same time. */
  lemma TimeRoundTrip(t: Option<Instant>, dates: DateText)
    requires Faithful(dates)
    ensures DecodeTime(TimeField(t, dates), dates) == Some(t)
  {
    if t.Some? {
      FaithfulAt(dates, t.value);
    }
  }

  /** A backup record encodes its task. */
  lemma RecordEncodes(t: Task, dates: DateText)
    ensures Encodes(TaskRecord(t, dates).fields, t, dates)
    ensures TaskRecord(t, dates).fields["needs_scheduling"] == JBool(t.needsScheduling)
  {
    RecordValues(t, dates);
  }

  /**
   * Restoring the record the backup wrote for `t` yields `t` again, apart
   * from the id (assigned on insert) and the creation time (not backed up).
   */
  lemma RecordRoundTrip(t: Task, now: Instant, dates: DateText)
    requires Faithful(dates)
    ensures DecodeRecord(TaskRecord(t, dates), now, dates) == Some(t.(id := 0, createdAt := now))
  {
    RecordEncodes(t, dates);
    DecodeFieldsOf(TaskRecord(t, dates).fields, t, now, dates);
  }

  /** A record from an older backup without `needs_scheduling` restores with it false. */
  lemma OldRecordRoundTrip(t: Task, now: Instant, dates: DateText)
    requires Faithful(dates)
    ensures DecodeRecord(JObject(TaskRecord(t, dates).fields - {"needs_scheduling"}), now, dates)
         == Some(t.(id := 0, createdAt := now, needsScheduling := false))
  {
    var full := TaskRecord(t, dates).fields;
    RecordEncodes(t, dates);
    EncodesWithout(full, t, dates);
    var f := full - {"needs_scheduling"};
    assert "needs_scheduling" !in f;
    DecodeFieldsOf(f, t, now, dates);
  }

  /** Decoding the backup's record list yields the backed-up tasks, without ids, created now. */
  lemma RecordsRoundTrip(ts: seq<Task>, now: Instant, dates: DateText)
    requires Faithful(dates)
    ensures var r := DecodeAll(TaskRecords(ts, dates), now, dates);
      && r.Some? && |r.value| == |ts|
      && forall k :: 0 <= k < |ts| ==> r.value[k] == ts[k].(id := 0, createdAt := now)
  {
    var records := TaskRecords(ts, dates);
    forall k | 0 <= k < |ts| ensures DecodeRecord(records[k], now, dates) == Some(ts[k].(id := 0, createdAt := now)) {
      RecordRoundTrip(ts[k], now, dates);
    }
  }

  /**
   * Backup then restore: every backed-up task is added again after the
   * existing rows, in table order, with every field but the id and the
   * creation time reproduced; a backed-up context row overwrites the
   * first row's text (or creates the row), and a backup without one
   * leaves the table alone.
   */
  lemma BackupRestoreRoundTrip(ts: seq<Task>, rows: seq<GlobalContext>, backupTime: Instant,
                               current: seq<Task>, currentRows: seq<GlobalContext>, now: Instant, dates: DateText)
    requires Faithful(dates)
    requires IdsIncreasing(current)
    ensures var r := RestoreResult(Some(BackupJson(ts, rows, backupTime, dates)), current, currentRows, now, dates);
      && r.Some?
      && |r.value.0| == |current| + |ts| && r.value.0[..|current|] == current
      && (forall k :: 0 <= k < |ts| ==>
            r.value.0[|current| + k] == ts[k].(id := NextId(current) + k, createdAt := now))
      && r.value.1 == if rows == [] then currentRows else Overwritten(currentRows, rows[0].context)
  {
    var doc := BackupJson(ts, rows, backupTime, dates);
    var step := if rows == [] then Keep else SetTo(rows[0].context);
    BackupDocParts(ts, rows, backupTime, dates);
    RecordsRoundTrip(ts, now, dates);
    RestoreOfParts(Some(doc), current, currentRows, now, dates, TaskRecords(ts, dates), step);
    var drafts := DecodeAll(TaskRecords(ts, dates), now, dates).value;
    InsertAllRows(current, drafts);
  }

  /**
   * Restore adds the records as they are, start and completion included,
   * and checks them against nothing already stored. So a store that has an
   * active task and restores its own backup holds that task active twice,
   * and a document with a completed task and no completion time breaks
   * "completed implies an end time" in any store.
   */
  lemma RestoreKeepsNeitherInvariant(ts: seq<Task>, rows: seq<GlobalContext>, backupTime: Instant,
                                     current: seq<Task>, currentRows: seq<GlobalContext>, now: Instant, dates: DateText)
    requires Faithful(dates)
    requires IdsIncreasing(current)
    ensures var r := RestoreResult(Some(BackupJson(ts, rows, backupTime, dates)), current, currentRows, now, dates);
      && r.Some?
      && (current == ts && (exists i :: 0 <= i < |ts| && ts[i].IsActive()) ==> !SingleActive(r.value.0))
      && ((exists i :: 0 <= i < |ts| && !ts[i].EndRecorded()) ==> !EndsRecorded(r.value.0))
  {
    BackupRestoreRoundTrip(ts, rows, backupTime, current, currentRows, now, dates);
    var r := RestoreResult(Some(BackupJson(ts, rows, backupTime, dates)), current, currentRows, now, dates);
    CopiesKeepNeither(current, ts, r.value.0, NextId(current), now);
  }

  /** Rows appended as copies of `ts` (new ids and creation time only) carry over what makes `ts` break either invariant. */
  lemma CopiesKeepNeither(current: seq<Task>, ts: seq<Task>, after: seq<Task>, base: nat, now: Instant)
    requires |after| == |current| + |ts| && after[..|current|] == current
    requires forall k :: 0 <= k < |ts| ==> after[|current| + k] == ts[k].(id := base + k, createdAt := now)
    ensures current == ts && (exists i :: 0 <= i < |ts| && ts[i].IsActive()) ==> !SingleActive(after)
    ensures (exists i :: 0 <= i < |ts| && !ts[i].EndRecorded()) ==> !EndsRecorded(after)
  {
    if current == ts && exists i :: 0 <= i < |ts| && ts[i].IsActive() {
      var i :| 0 <= i < |ts| && ts[i].IsActive();
      assert after[i] == after[..|current|][i] == ts[i];
      assert after[|current| + i].IsActive();
    }
    if exists i :: 0 <= i < |ts| && !ts[i].EndRecorded() {
      var i :| 0 <= i < |ts| && !ts[i].EndRecorded();
      assert !after[|current| + i].EndRecorded();
    }
  }

  /** The parts of a backup document restore reads. */
  lemma BackupDocParts(ts: seq<Task>, rows: seq<GlobalContext>, backupTime: Instant, dates: DateText)
    ensures var doc := BackupJson(ts, rows, backupTime, dates);
      && doc.JObject? && "backup_time" in doc.fields && "tasks" in doc.fields
      && Items(doc.fields["tasks"]) == Some(TaskRecords(ts, dates))
      && ContextStepOf(doc.fields) == if rows == [] then Keep else SetTo(rows[0].context)
  {
    BackupContextStep(ts, rows, backupTime, dates);
  }

  /** The backup's context entry is skipped exactly when it had no row, and otherwise sets that row's text. */
  lemma BackupContextStep(ts: seq<Task>, rows: seq<GlobalContext>, backupTime: Instant, dates: DateText)
    ensures ContextStepOf(BackupJson(ts, rows, backupTime, dates).fields)
         == if rows == [] then Keep else SetTo(rows[0].context)
  {
    var f := BackupJson(ts, rows, backupTime, dates).fields;
    if rows != [] {
      var g := map["context" := match rows[0].context case None => JNull case Some(s) => JStr(s)];
      assert f["global_context"] == JObject(g);
      assert "context" in g;
      assert Truthy(JObject(g));
    }
  }

  /**
   * `restore_database`: sets the context, adds the tasks one record at a
   * time, and commits; on any failure it rolls back to the store as it was.
   * True exactly when the restore committed.
   */
  method RestoreDatabase(file: Option<Json>, taskRepo: TaskRepository, contextRepo: ContextRepository,
                         now: Instant, dates: DateText) returns (ok: bool)
    requires taskRepo.Valid()
    modifies taskRepo, contextRepo
    ensures taskRepo.Valid()
    ensures ok <==> RestoreResult(file, old(taskRepo.tasks), old(contextRepo.rows), now, dates).Some?
    ensures ok ==> (taskRepo.tasks, contextRepo.rows)
                   == RestoreResult(file, old(taskRepo.tasks), old(contextRepo.rows), now, dates).value
    ensures !ok ==> taskRepo.tasks == old(taskRepo.tasks) && contextRepo.rows == old(contextRepo.rows)
  {
    if file.None? || !file.value.JObject? {
      return false;
    }
    var backupData := file.value.fields;
    if "backup_time" !in backupData {
      return false;
    }
    var savedTasks, savedRows := taskRepo.tasks, contextRepo.rows;
    var step := ContextStepOf(backupData);
    if step.Broken? {
      return false;
    }
    if step.SetTo? {
      contextRepo.rows := Overwritten(contextRepo.rows, step.v);
    }
    if "tasks" !in backupData || Items(backupData["tasks"]).None? {
      taskRepo.tasks, contextRepo.rows := savedTasks, savedRows;
      return false;
    }
    ok := AddRecords(taskRepo, Items(backupData["tasks"]).value, now, dates);
    if !ok {
      contextRepo.rows := savedRows;
    }
  }

  /**
   * The loop over the records: adds one task per record, and on the first
   * record that fails takes the added tasks back out again.
   */
  method AddRecords(taskRepo: TaskRepository, items: seq<Json>, now: Instant, dates: DateText) returns (ok: bool)
    requires taskRepo.Valid()
    modifies taskRepo
    ensures taskRepo.Valid()
    ensures ok <==> DecodeAll(items, now, dates).Some?
    ensures ok ==> taskRepo.tasks == InsertAll(old(taskRepo.tasks), DecodeAll(items, now, dates).value)
    ensures !ok ==> taskRepo.tasks == old(taskRepo.tasks)
  {
    var savedTasks := taskRepo.tasks;
    ghost var drafts: seq<Task> := [];
    var k := 0;
    while k < |items|
      invariant 0 <= k <= |items|
      invariant taskRepo.Valid()
      invariant DecodeAll(items[..k], now, dates) == Some(drafts)
      invariant taskRepo.tasks == InsertAll(savedTasks, drafts)
    {
      var task := DecodeRecord(items[k], now, dates);
      if task.None? {
        taskRepo.tasks := savedTasks;
        return false;
      }
      assert items[..k + 1][..k] == items[..k];
      var _ := taskRepo.Create(task.value);
      drafts := drafts + [task.value];
      k := k + 1;
    }
    assert items[..k] == items;
    ok := true;
  }
}
