/**
 * Record shapes of the database tables (models.py) with their column
 * defaults. Rows carry the id SQLite assigns on insert; a draft row is
 * built with id 0 and receives its id from the repository.
 *
 * Three shapes the repositories use are not defined in models.py and are
 * added here with exactly the columns the code touches: the
 * `needs_scheduling` column of Task, the ChatMessage table and the
 * Settings table.
 */
module Models {
  import opened Common

  datatype Task = Task(
    id: nat,
    title: string,
    description: string,
    context: string,
    dueDate: Option<Instant>,
    scheduledStart: Option<Instant>,
    scheduledEnd: Option<Instant>,
    actualStart: Option<Instant>,
    actualEnd: Option<Instant>,
    priority: real,
    completed: bool,
    needsScheduling: bool,
    createdAt: Instant)
  {
    /** Started and not yet completed: the task being worked on. */
    predicate IsActive() {
      actualStart.Some? && !completed
    }

    /** A completed task records when it was completed. */
    predicate EndRecorded() {
      completed ==> actualEnd.Some?
    }
  }

  /**
   * `Task(title=...)` inserted at `now`: every other column takes its
   * default. `needs_scheduling` has no column definition; a task built
   * without it reads as false.
   */
  function NewTask(title: string, now: Instant): (t: Task)
    ensures t.title == title && t.createdAt == now
    ensures t.description == "" && t.context == "" && t.priority == 0.0
    ensures !t.completed && !t.IsActive() && t.EndRecorded()
    ensures t.scheduledStart.None? && t.scheduledEnd.None? && t.dueDate.None?
    ensures t.actualStart.None? && t.actualEnd.None?
  {
    Task(0, title, "", "", None, None, None, None, None, 0.0, false, false, now)
  }

  /** The single-row table of free-text preferences; the text column is nullable. */
  datatype GlobalContext = GlobalContext(id: nat, context: Option<string>)

  /** A new GlobalContext row holds the empty text. */
  function NewGlobalContext(id: nat): (g: GlobalContext)
    ensures g.context == Some("") && g.context.GetOr("") == ""
  {
    GlobalContext(id, Some(""))
  }

  /** One recorded oracle call; every column but the timestamp is required. */
  datatype Execution = Execution(
    id: nat,
    moduleName: string,
    inputs: string,
    outputs: string,
    durationMs: real,
    createdAt: Instant)

  datatype ChatMessage = ChatMessage(
    id: nat,
    userMessage: string,
    assistantResponse: string,
    createdAt: Instant)

  datatype SettingsRow = SettingsRow(id: nat, llmModel: string, maxTokens: int)
}
