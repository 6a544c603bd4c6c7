/** Task validation (src/lib/schemas.ts): the field bounds and enum memberships of the
    task schema and of the new-task schema, the order in which their checks report, and
    the parsed value an accepted input yields. */
module Schemas {
  import opened Wrappers
  import opened Text
  import opened Types

  const MaxTitle: nat := 200
  const MaxDescription: nat := 2000
  const MaxNotes: nat := 5000

  /** What a schema is given. Fields the TypeScript types always supply are plain; the
      fields the schemas give a default for may be absent (`None`). Properties the schemas
      do not name (id, timestamps) are not part of it: parsing strips them. */
  datatype TaskFields = TaskFields(
    title: string,
    description: Option<string>,
    status: Option<Status>,
    priority: Priority,
    category: Category,
    assignee: Option<Assignee>,
    notes: Option<string>,
    dueDate: Option<string>)

  /** The parsed value (`TaskInput` / `NewTaskInput`). */
  datatype TaskInput = TaskInput(
    title: string,
    description: string,
    status: Status,
    priority: Priority,
    category: Category,
    assignee: Option<Assignee>,
    notes: string,
    dueDate: Option<string>)

  function FieldsOfTask(t: Task): TaskFields {
    TaskFields(t.title, Some(t.description), Some(t.status), t.priority, t.category,
               t.assignee, Some(t.notes), t.dueDate)
  }

  function FieldsOfDraft(d: TaskDraft): TaskFields {
    TaskFields(d.title, Some(d.description), Some(d.status), d.priority, d.category,
               d.assignee, Some(d.notes), d.dueDate)
  }

  /** One failed check. */
  datatype Issue =
    | TitleTooShort
    | TitleTooLong
    | DescriptionTooLong
    | NotesTooLong
    | StatusRequired
    | StatusNotInEnum(received: Status)
    | StatusNotTodo(received: Status)

  /** The message each check reports: the schema's own Dutch texts for the length checks,
      the schema library's default texts for the rest. */
  function IssueMessage(i: Issue): (m: string)
    ensures |m| > 0
  {
    match i
    case TitleTooShort => "Titel is verplicht"
    case TitleTooLong => "Titel mag maximaal 200 karakters zijn"
    case DescriptionTooLong => "Beschrijving mag maximaal 2000 karakters zijn"
    case NotesTooLong => "Notities mogen maximaal 5000 karakters zijn"
    case StatusRequired => "Required"
    case StatusNotInEnum(s) =>
      "Invalid enum value. Expected 'todo' | 'in-progress' | 'complete', received '" + StatusId(s) + "'"
    case StatusNotTodo(s) => "Invalid literal value, expected \"todo\""
  }

  const FallbackMessage: string := "Validatie mislukt"

  /** `firstError?.message || "Validatie mislukt"`. */
  function FirstMessage(issues: seq<Issue>): (m: string)
    ensures m != []
  {
    if issues == [] then FallbackMessage
    else
      var m := IssueMessage(issues[0]);
      if |m| == 0 then FallbackMessage else m
  }

  /** The title's checks, in chain order: at least 1, then at most 200 characters, both
      on the text as given; trimming comes after them and does not re-check. */
  function TitleIssues(title: string): seq<Issue> {
    (if |title| < 1 then [TitleTooShort] else []) + (if |title| > MaxTitle then [TitleTooLong] else [])
  }

  function DescriptionIssues(d: Option<string>): seq<Issue> {
    if |d.GetOr("")| > MaxDescription then [DescriptionTooLong] else []
  }

  function NotesIssues(n: Option<string>): seq<Issue> {
    if |n.GetOr("")| > MaxNotes then [NotesTooLong] else []
  }

  /** `z.enum(["todo", "in-progress", "complete"])`: required, and not `'archived'`. */
  function StatusIssues(s: Option<Status>): seq<Issue> {
    match s
    case None => [StatusRequired]
    case Some(Archived) => [StatusNotInEnum(Archived)]
    case Some(_) => []
  }

  /** `z.literal("todo").default("todo")`: absent is fine, present must be todo. */
  function NewStatusIssues(s: Option<Status>): seq<Issue> {
    match s
    case None => []
    case Some(Todo) => []
    case Some(other) => [StatusNotTodo(other)]
  }

  /** All issues of the task schema, in the order of its keys. */
  function TaskIssues(f: TaskFields): seq<Issue> {
    TitleIssues(f.title) + DescriptionIssues(f.description) + StatusIssues(f.status) + NotesIssues(f.notes)
  }

  /** All issues of the new-task schema: the same keys with status moved to the end. */
  function NewTaskIssues(f: TaskFields): seq<Issue> {
    TitleIssues(f.title) + DescriptionIssues(f.description) + NotesIssues(f.notes) + NewStatusIssues(f.status)
  }

  predicate BoundsHold(f: TaskFields) {
    && 1 <= |f.title| <= MaxTitle
    && |f.description.GetOr("")| <= MaxDescription
    && |f.notes.GetOr("")| <= MaxNotes
  }

  /** `validateTask`: the parsed task, or the first issue's message. */
  function ValidateTask(f: TaskFields): (r: Result<TaskInput, string>)
    ensures r.Success? <==> BoundsHold(f) && f.status.Some? && f.status.value != Archived
    ensures r.Success? ==> r.value.title == Trim(f.title) && r.value.status == f.status.value
    ensures r.Success? ==> r.value.description == f.description.GetOr("") && r.value.notes == f.notes.GetOr("")
    ensures r.Success? ==> r.value.priority == f.priority && r.value.category == f.category
                           && r.value.assignee == f.assignee && r.value.dueDate == f.dueDate
    ensures r.Failure? ==> r.error == IssueMessage(TaskIssues(f)[0])
  {
    var issues := TaskIssues(f);
    if issues == [] then
      Success(TaskInput(Trim(f.title), f.description.GetOr(""), f.status.value, f.priority,
                        f.category, f.assignee, f.notes.GetOr(""), f.dueDate))
    else
      Failure(FirstMessage(issues))
  }

  /** `validateNewTask`: like `validateTask`, but the status must be todo and defaults to it. */
  function ValidateNewTask(f: TaskFields): (r: Result<TaskInput, string>)
    ensures r.Success? <==> BoundsHold(f) && (f.status.None? || f.status == Some(Todo))
    ensures r.Success? ==> r.value.status == Todo && r.value.title == Trim(f.title)
    ensures r.Success? ==> r.value.description == f.description.GetOr("") && r.value.notes == f.notes.GetOr("")
    ensures r.Success? ==> r.value.priority == f.priority && r.value.category == f.category
                           && r.value.assignee == f.assignee && r.value.dueDate == f.dueDate
    ensures r.Failure? ==> r.error == IssueMessage(NewTaskIssues(f)[0])
  {
    var issues := NewTaskIssues(f);
    if issues == [] then
      Success(TaskInput(Trim(f.title), f.description.GetOr(""), Todo, f.priority,
                        f.category, f.assignee, f.notes.GetOr(""), f.dueDate))
    else
      Failure(FirstMessage(issues))
  }

  /** Only todo, in-progress and complete pass; an archived task never validates. */
  lemma ArchivedRejected(f: TaskFields)
    requires f.status == Some(Archived)
    ensures ValidateTask(f).Failure? && ValidateNewTask(f).Failure?
  {
  }

  /** The title checks come first: an empty title reports "Titel is verplicht" whatever
      else is wrong. */
  lemma EmptyTitleReportedFirst(f: TaskFields)
    requires f.title == []
    ensures ValidateTask(f) == Failure("Titel is verplicht")
    ensures ValidateNewTask(f) == Failure("Titel is verplicht")
  {
  }

  /** With a good title, an over-long description is reported before the status. */
  lemma DescriptionReportedBeforeStatus(f: TaskFields)
    requires 1 <= |f.title| <= MaxTitle && |f.description.GetOr("")| > MaxDescription
    ensures ValidateTask(f) == Failure("Beschrijving mag maximaal 2000 karakters zijn")
  {
  }

  /** In the new-task schema the status comes last: over-long notes win over a bad status. */
  lemma NotesReportedBeforeNewStatus(f: TaskFields)
    requires 1 <= |f.title| <= MaxTitle && |f.description.GetOr("")| <= MaxDescription
    requires |f.notes.GetOr("")| > MaxNotes && f.status == Some(Complete)
    ensures ValidateNewTask(f) == Failure("Notities mogen maximaal 5000 karakters zijn")
  {
  }

  /** Because the length checks run before trimming, a title of 1 to 200 whitespace
      characters is accepted and parses to the empty string. */
  lemma BlankTitleAccepted(f: TaskFields)
    requires 1 <= |f.title| <= MaxTitle && IsBlank(f.title)
    requires |f.description.GetOr("")| <= MaxDescription && |f.notes.GetOr("")| <= MaxNotes
    requires f.status == Some(Todo)
    ensures ValidateTask(f).Success? && ValidateTask(f).value.title == []
    ensures ValidateNewTask(f).Success? && ValidateNewTask(f).value.title == []
  {
  }

  /** An accepted title is trimmed and at most 200 characters long. */
  lemma AcceptedTitleShape(f: TaskFields)
    requires ValidateTask(f).Success?
    ensures var t := ValidateTask(f).value.title;
      |t| <= MaxTitle && (t == [] || (!IsJsWhitespace(t[0]) && !IsJsWhitespace(t[|t| - 1])))
  {
  }

  /** Omitted description and notes parse as empty; an omitted status parses as todo in
      the new-task schema and is an error in the task schema. */
  lemma DefaultsFilledIn(f: TaskFields)
    requires f.description.None? && f.notes.None? && f.status.None? && 1 <= |f.title| <= MaxTitle
    ensures ValidateNewTask(f).Success?
    ensures ValidateNewTask(f).value.description == "" && ValidateNewTask(f).value.notes == ""
    ensures ValidateNewTask(f).value.status == Todo
    ensures ValidateTask(f) == Failure("Required")
  {
  }
}
