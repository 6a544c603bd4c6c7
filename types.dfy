/** The task entities and their enumerations, with the string ids the application uses
    for them (src/types/index.ts, src/lib/constants.ts). */
module Types {
  import opened Wrappers

  /** A task's status. The declared union has only the first three; the task view also
      writes and reads `'archived'` on the same field, so a model of what the field can
      hold needs all four. */
  datatype Status = Todo | InProgress | Complete | Archived

  datatype Priority = Low | Medium | High

  datatype Category = Dev | Research | Admin | Cron | Communication

  datatype Assignee = Arie | Jasper

  /** A stored task row. Timestamps and the due date are the ISO strings the backend
      returns; `None` is `null`. */
  datatype Task = Task(
    id: string,
    title: string,
    description: string,
    status: Status,
    priority: Priority,
    category: Category,
    assignee: Option<Assignee>,
    notes: string,
    dueDate: Option<string>,
    createdAt: string,
    updatedAt: string,
    completedAt: Option<string>)

  /** A task before it is stored: a task without id and timestamps. */
  datatype TaskDraft = TaskDraft(
    title: string,
    description: string,
    status: Status,
    priority: Priority,
    category: Category,
    assignee: Option<Assignee>,
    notes: string,
    dueDate: Option<string>)

  /** The board's columns, in display order (STATUSES). Archived tasks have no column. */
  const Statuses: seq<Status> := [Todo, InProgress, Complete]

  function StatusId(s: Status): string {
    match s
    case Todo => "todo"
    case InProgress => "in-progress"
    case Complete => "complete"
    case Archived => "archived"
  }

  function PriorityId(p: Priority): string {
    match p
    case Low => "low"
    case Medium => "medium"
    case High => "high"
  }

  function CategoryId(c: Category): string {
    match c
    case Dev => "dev"
    case Research => "research"
    case Admin => "admin"
    case Cron => "cron"
    case Communication => "communication"
  }

  function AssigneeId(a: Assignee): string {
    match a
    case Arie => "Arie"
    case Jasper => "Jasper"
  }

  /** A JavaScript value thrown by a failing call. The callers only distinguish `Error`
      instances (whose `message` they show) from everything else. */
  datatype Thrown =
    | ErrorThrown(message: string)   // an instance of Error
    | ValueThrown(text: string)      // any other value, with `String(value)` as text
    | NullThrown                     // `throw null`

  /** `err instanceof Error ? err.message : fallback`. */
  function MessageOr(e: Thrown, fallback: string): string {
    if e.ErrorThrown? then e.message else fallback
  }
}
