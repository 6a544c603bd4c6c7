/** The add-task form (src/components/AddTaskForm.tsx): six input fields, a submit that
    hands a new-task record to the page and then empties the form, and the assignee
    buttons that select or deselect. */
module AddTaskForm {
  import opened Wrappers
  import opened Text
  import opened Types
  import opened Sanitize
  import opened Schemas

  class Form {
    var title: string
    var description: string
    var priority: Priority
    var category: Category
    var assignee: Option<Assignee>
    /** The date picker's value; the empty string is no date. */
    var dueDate: string

    /** The values a fresh form starts with and a submit returns to. */
    predicate AtDefaults()
      reads this
    {
      title == [] && description == [] && priority == Medium && category == Dev
      && assignee == None && dueDate == []
    }

    constructor()
      ensures AtDefaults()
    {
      title := [];
      description := [];
      priority := Medium;
      category := Dev;
      assignee := None;
      dueDate := [];
    }

    /** The submit button is disabled while the title trims to nothing. */
    predicate SubmitEnabled()
      reads this
    {
      Trim(title) != []
    }

    /** `handleSubmit`: with a title that trims to nothing, nothing is submitted and nothing
        changes. Otherwise the record handed to `onAdd` has the trimmed title and
        description, status todo, empty notes, the chosen priority, category and assignee,
        and the date converted by `toIso` (or no date), and every field returns to its
        default, whatever becomes of the record. */
    method HandleSubmit(toIso: string -> string) returns (submitted: Option<TaskDraft>)
      modifies this
      ensures submitted.Some? <==> old(SubmitEnabled())
      ensures submitted.None? ==> && title == old(title) && description == old(description)
                                  && priority == old(priority) && category == old(category)
                                  && assignee == old(assignee) && dueDate == old(dueDate)
      ensures submitted.Some? ==> AtDefaults()
      ensures submitted.Some? ==>
        var d := submitted.value;
        && d.title == Trim(old(title)) && d.title != []
        && d.description == Trim(old(description))
        && d.status == Todo && d.notes == []
        && d.priority == old(priority) && d.category == old(category) && d.assignee == old(assignee)
        && d.dueDate == (if old(dueDate) == [] then None else Some(toIso(old(dueDate))))
    {
      if Trim(title) == [] {
        return None;
      }
      submitted := Some(TaskDraft(
        Trim(title),
        Trim(description),
        Todo,
        priority,
        category,
        assignee,
        [],
        if dueDate != [] then Some(toIso(dueDate)) else None));
      title := [];
      description := [];
      priority := Medium;
      category := Dev;
      assignee := None;
      dueDate := [];
    }

    /** An assignee button: clicking the selected assignee deselects it, clicking another
        selects that one. */
    method ClickAssignee(a: Assignee)
      modifies this
      ensures assignee == (if old(assignee) == Some(a) then None else Some(a))
      ensures title == old(title) && description == old(description) && priority == old(priority)
      ensures category == old(category) && dueDate == old(dueDate)
    {
      assignee := if assignee == Some(a) then None else Some(a);
    }
  }

  /** A submitted record gets past the new-task checks whenever its escaped title and
      description fit their bounds: it is todo, its notes are empty, and its title is not
      empty, neither before escaping nor after. */
  lemma SubmittedDraftValid(d: TaskDraft)
    requires d.status == Todo && d.notes == [] && d.title != []
    requires |SanitizeInput(d.title)| <= MaxTitle && |SanitizeInput(d.description)| <= MaxDescription
    ensures ValidateNewTask(FieldsOfDraft(SanitizeDraft(d))).Success?
  {
    assert |SanitizeInput(d.notes)| == 0 by {
      SanitizeSafeUnchanged(d.notes);
    }
  }
}
