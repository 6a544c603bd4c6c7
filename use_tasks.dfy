/** The task store hook (src/hooks/useTasks.ts): the loaded page of tasks with its paging
    state, the server-side filters, and the optimistic mutations that edit the list first
    and roll it back when the backend call fails. Calls are strictly sequential; every
    backend call takes the answers its attempts receive. */
module UseTasks {
  import opened Wrappers
  import opened Text
  import opened Types
  import opened Seqs
  import opened Sanitize
  import opened Schemas
  import opened Api

  const DefaultPageSize: int := 50
  const LoadFailed: string := "Kon taken niet laden"

  // ---------------------------------------------------------------------------
  // The local list edits

  /** `moveTask`'s local step: tasks with the id get the new status. */
  function MoveLocal(ts: seq<Task>, id: string, s: Status): seq<Task>
    decreases |ts|
  {
    if ts == [] then []
    else [if ts[0].id == id then ts[0].(status := s) else ts[0]] + MoveLocal(ts[1..], id, s)
  }

  /** Moving changes nothing but the status, and only on tasks with the id: length, order,
      other tasks and other fields stay as they were. */
  lemma {:induction false} MoveLocalOnlyStatus(ts: seq<Task>, id: string, s: Status)
    ensures var r := MoveLocal(ts, id, s);
      && |r| == |ts|
      && (forall i :: 0 <= i < |ts| && ts[i].id == id ==> r[i].status == s)
      && (forall i :: 0 <= i < |ts| ==> r[i].(status := ts[i].status) == ts[i])
      && (forall i :: 0 <= i < |ts| && ts[i].id != id ==> r[i] == ts[i])
    decreases |ts|
  {
    if ts != [] {
      MoveLocalOnlyStatus(ts[1..], id, s);
      var r := MoveLocal(ts, id, s);
      assert forall i :: 1 <= i < |ts| ==> r[i] == MoveLocal(ts[1..], id, s)[i - 1];
    }
  }

  /** `editTask`'s local step: tasks with the same id become the given task object. */
  function ReplaceLocal(ts: seq<Task>, task: Task): seq<Task>
    decreases |ts|
  {
    if ts == [] then []
    else [if ts[0].id == task.id then task else ts[0]] + ReplaceLocal(ts[1..], task)
  }

  lemma {:induction false} ReplaceLocalOnlyMatching(ts: seq<Task>, task: Task)
    ensures var r := ReplaceLocal(ts, task);
      && |r| == |ts|
      && (forall i :: 0 <= i < |ts| && ts[i].id == task.id ==> r[i] == task)
      && (forall i :: 0 <= i < |ts| && ts[i].id != task.id ==> r[i] == ts[i])
    decreases |ts|
  {
    if ts != [] {
      ReplaceLocalOnlyMatching(ts[1..], task);
      var r := ReplaceLocal(ts, task);
      assert forall i :: 1 <= i < |ts| ==> r[i] == ReplaceLocal(ts[1..], task)[i - 1];
    }
  }

  /** `removeTask`'s local step. */
  function RemoveLocal(ts: seq<Task>, id: string): seq<Task> {
    Filter(ts, (t: Task) => t.id != id)
  }

  /** Removing drops exactly the tasks with the id: what remains is every other task, each
      as often as before, and the removed ones are exactly those with the id. */
  lemma RemoveLocalExact(ts: seq<Task>, id: string)
    ensures forall t :: t in RemoveLocal(ts, id) <==> t in ts && t.id != id
    ensures multiset(RemoveLocal(ts, id)) + multiset(Filter(ts, (t: Task) => t.id == id)) == multiset(ts)
  {
    forall t ensures t in RemoveLocal(ts, id) <==> t in ts && t.id != id {
      FilterMembership(ts, (t: Task) => t.id != id, t);
    }
    FilterPartition(ts, (t: Task) => t.id != id, (t: Task) => t.id == id);
  }

  /** Removing keeps the relative order: removing from a concatenation removes from each part. */
  lemma RemoveLocalKeepsOrder(a: seq<Task>, b: seq<Task>, id: string)
    ensures RemoveLocal(a + b, id) == RemoveLocal(a, id) + RemoveLocal(b, id)
  {
    FilterConcat(a, b, (t: Task) => t.id != id);
  }

  // ---------------------------------------------------------------------------
  // Loading

  /** The part of the store a load writes. */
  datatype Listing = Listing(tasks: seq<Task>, total: int, page: int, hasMore: bool, error: Option<string>)

  /** The listing after `loadTasks` settles with `result`: on success the page replaces or
      extends the list and the counters follow the response; on failure only the error
      is set, to the thrown error's message or "Kon taken niet laden". */
  function AfterLoad(before: Listing, append: bool, result: Result<TasksResponse, Thrown>): (after: Listing)
    ensures result.Success? ==> && after.error == None
                                && after.total == result.value.total
                                && after.page == result.value.page
                                && after.hasMore == result.value.hasMore
    ensures result.Success? && append ==> after.tasks == before.tasks + result.value.tasks
    ensures result.Success? && !append ==> after.tasks == result.value.tasks
    ensures result.Failure? ==> after == before.(error := Some(MessageOr(result.error, LoadFailed)))
  {
    match result
    case Success(r) =>
      Listing(if append then before.tasks + r.tasks else r.tasks, r.total, r.page, r.hasMore, None)
    case Failure(e) =>
      before.(error := Some(MessageOr(e, LoadFailed)))
  }

  /** Loading page 1 and then, with `loadMore`, page 2 from a backend that holds `rows`
      yields the first two pages' worth of rows, in order. */
  lemma TwoPagesLoaded(before: Listing, rows: seq<Task>, pageSize: int)
    requires pageSize >= 1
    ensures var p1 := Pagination(1, pageSize);
      var p2 := Pagination(2, pageSize);
      var a1 := ServePage(rows, p1);
      var a2 := ServePage(rows, p2);
      var l1 := AfterLoad(before, false, Success(ResponseOf(a1.data, a1.count, p1)));
      var l2 := AfterLoad(l1, true, Success(ResponseOf(a2.data, a2.count, p2)));
      l2.tasks == rows[..Min(2 * pageSize, |rows|)] && l2.page == 2
  {
    ConsecutivePages(rows, Pagination(1, pageSize));
  }

  class TaskStore {
    const pageSize: int
    /** Whether a backend client exists. */
    const configured: bool

    var tasks: seq<Task>
    var loading: bool
    var error: Option<string>
    var total: int
    var page: int
    var hasMore: bool
    var filters: TaskFilters
    /** The snapshot an optimistic update rolls back to. */
    var previousTasks: seq<Task>

    /** The fields a load writes. */
    function Loaded(): Listing
      reads this
    {
      Listing(tasks, total, page, hasMore, error)
    }

    constructor(pageSize: int, configured: bool)
      ensures this.pageSize == pageSize && this.configured == configured
      ensures tasks == [] && loading && error == None && total == 0 && page == 1 && !hasMore
      ensures filters == NoFilters && previousTasks == []
    {
      this.pageSize := pageSize;
      this.configured := configured;
      tasks := [];
      loading := true;
      error := None;
      total := 0;
      page := 1;
      hasMore := false;
      filters := NoFilters;
      previousTasks := [];
    }

    /** `loadTasks`: fetches one page with the given filters and replaces or extends the
        list; `loading` is false once it settles, whatever the outcome. */
    method LoadTasks(currentPage: int, currentFilters: TaskFilters, append: bool, answers: seq<Answer>)
      returns (sent: Option<Query>)
      requires |answers| >= MaxRetries
      modifies this
      ensures Loaded() == AfterLoad(old(Loaded()), append, Fetch(configured, Pagination(currentPage, pageSize), answers).result)
      ensures !loading
      ensures filters == old(filters) && previousTasks == old(previousTasks)
      ensures sent.Some? <==> configured
      ensures sent.Some? ==> && sent.value.range == Some(PageWindow(Pagination(currentPage, pageSize)))
                             && forall t :: Selects(sent.value, t) <==> Matches(currentFilters, t)
    {
      loading := true;
      error := None;
      var report;
      report, sent := FetchTasks(configured, currentFilters, Pagination(currentPage, pageSize), answers);
      if report.result.Success? {
        var response := report.result.value;
        if append {
          tasks := tasks + response.tasks;
        } else {
          tasks := response.tasks;
        }
        total := response.total;
        page := response.page;
        hasMore := response.hasMore;
      } else {
        error := Some(MessageOr(report.result.error, LoadFailed));
      }
      loading := false;
    }

    /** The debounced search: an empty string clears the search filter; the page goes
        back to 1. */
    method SetSearch(search: string)
      modifies this
      ensures filters == old(filters).(search := if search == [] then None else Some(search))
      ensures page == 1
      ensures tasks == old(tasks) && total == old(total) && hasMore == old(hasMore)
      ensures loading == old(loading) && error == old(error) && previousTasks == old(previousTasks)
    {
      filters := filters.(search := if search == [] then None else Some(search));
      page := 1;
    }

    /** `setFilters`: the new filter object replaces the old one whole; the page goes back
        to 1. */
    method SetFilters(newFilters: TaskFilters)
      modifies this
      ensures filters == newFilters && page == 1
      ensures tasks == old(tasks) && total == old(total) && hasMore == old(hasMore)
      ensures loading == old(loading) && error == old(error) && previousTasks == old(previousTasks)
    {
      filters := newFilters;
      page := 1;
    }

    /** `loadMore`: when more rows exist and nothing is loading, the next page is fetched
        with the current filters and appended; otherwise nothing happens. */
    method LoadMore(answers: seq<Answer>) returns (sent: Option<Query>)
      requires |answers| >= MaxRetries
      modifies this
      ensures old(hasMore && !loading) ==>
        && Loaded() == AfterLoad(old(Loaded()), true, Fetch(configured, Pagination(old(page) + 1, pageSize), answers).result)
        && !loading
        && (sent.Some? ==> forall t :: Selects(sent.value, t) <==> Matches(filters, t))
      ensures !old(hasMore && !loading) ==> Loaded() == old(Loaded()) && loading == old(loading) && sent == None
      ensures filters == old(filters) && previousTasks == old(previousTasks)
    {
      sent := None;
      if hasMore && !loading {
        sent := LoadTasks(page + 1, filters, true, answers);
      }
    }

    /** `refresh`, and the reload that follows every filter change: page 1, replacing. */
    method Refresh(answers: seq<Answer>) returns (sent: Option<Query>)
      requires |answers| >= MaxRetries
      modifies this
      ensures Loaded() == AfterLoad(old(Loaded()), false, Fetch(configured, Pagination(1, pageSize), answers).result)
      ensures !loading && filters == old(filters) && previousTasks == old(previousTasks)
      ensures sent.Some? ==> forall t :: Selects(sent.value, t) <==> Matches(filters, t)
    {
      sent := LoadTasks(1, filters, false, answers);
    }

    /** `optimisticUpdate`: snapshot the list, apply the local edit, run the backend call,
        and restore the snapshot if the call fails. */
    method OptimisticUpdate<T>(edit: seq<Task> -> seq<Task>, answers: seq<Outcome<T>>) returns (ok: bool)
      requires |answers| >= MaxRetries
      modifies this
      ensures previousTasks == old(tasks)
      ensures ok <==> Retry(Guarded(configured, answers), MaxRetries).result.Success?
      ensures ok ==> tasks == edit(old(tasks))
      ensures !ok ==> tasks == old(tasks)
      ensures total == old(total) && page == old(page) && hasMore == old(hasMore)
      ensures loading == old(loading) && error == old(error) && filters == old(filters)
    {
      previousTasks := tasks;
      tasks := edit(tasks);
      var report := Mutate(configured, answers);
      if report.result.Success? {
        ok := true;
      } else {
        tasks := previousTasks;
        ok := false;
      }
    }

    /** `addTask`: sanitise and validate the draft; if valid, create it and, only once the
        backend has answered, put the created task first and count it. Returns whether
        it succeeded and the record sent to the backend. */
    method AddTask(taskData: TaskDraft, answers: seq<Outcome<Task>>) returns (ok: bool, sent: Option<TaskInput>)
      requires |answers| >= MaxRetries
      modifies this
      ensures var v := ValidateNewTask(FieldsOfDraft(SanitizeDraft(taskData)));
        && sent == (if v.Success? then Some(v.value) else None)
        && (ok <==> v.Success? && Retry(Guarded(configured, answers), MaxRetries).result.Success?)
      ensures ok ==> && tasks == [Retry(Guarded(configured, answers), MaxRetries).result.value] + old(tasks)
                     && total == old(total) + 1
      ensures !ok ==> tasks == old(tasks) && total == old(total)
      ensures page == old(page) && hasMore == old(hasMore) && loading == old(loading)
      ensures error == old(error) && filters == old(filters) && previousTasks == old(previousTasks)
    {
      var validation := ValidateNewTask(FieldsOfDraft(SanitizeDraft(taskData)));
      ok, sent := false, None;
      if validation.Success? {
        sent := Some(validation.value);
        var report := Mutate(configured, answers);
        if report.result.Success? {
          tasks := [report.result.value] + tasks;
          total := total + 1;
          ok := true;
        }
      }
    }

    /** `editTask`: sanitise and validate; if valid, optimistically put the caller's task
        object (not the validated data, which is what the backend receives) in place of
        the tasks with its id. */
    method EditTask(task: Task, answers: seq<Outcome<Task>>) returns (ok: bool, sent: Option<TaskInput>)
      requires |answers| >= MaxRetries
      modifies this
      ensures var v := ValidateTask(FieldsOfTask(SanitizeTask(task)));
        && sent == (if v.Success? then Some(v.value) else None)
        && (v.Failure? ==> !ok && tasks == old(tasks) && previousTasks == old(previousTasks))
        && (v.Success? ==> previousTasks == old(tasks)
                           && (ok <==> Retry(Guarded(configured, answers), MaxRetries).result.Success?))
      ensures ok ==> tasks == ReplaceLocal(old(tasks), task)
      ensures !ok ==> tasks == old(tasks)
      ensures total == old(total) && page == old(page) && hasMore == old(hasMore)
      ensures loading == old(loading) && error == old(error) && filters == old(filters)
    {
      var validation := ValidateTask(FieldsOfTask(SanitizeTask(task)));
      if validation.Failure? {
        return false, None;
      }
      sent := Some(validation.value);
      ok := OptimisticUpdate((ts: seq<Task>) => ReplaceLocal(ts, task), answers);
    }

    /** `moveTask`: optimistically set the status of the tasks with the id. */
    method MoveTask(taskId: string, newStatus: Status, answers: seq<Outcome<Task>>) returns (ok: bool)
      requires |answers| >= MaxRetries
      modifies this
      ensures previousTasks == old(tasks)
      ensures ok <==> Retry(Guarded(configured, answers), MaxRetries).result.Success?
      ensures ok ==> tasks == MoveLocal(old(tasks), taskId, newStatus)
      ensures !ok ==> tasks == old(tasks)
      ensures total == old(total) && page == old(page) && hasMore == old(hasMore)
      ensures loading == old(loading) && error == old(error) && filters == old(filters)
    {
      ok := OptimisticUpdate((ts: seq<Task>) => MoveLocal(ts, taskId, newStatus), answers);
    }

    /** `removeTask`: optimistically drop the tasks with the id. */
    method RemoveTask(taskId: string, answers: seq<Outcome<()>>) returns (ok: bool)
      requires |answers| >= MaxRetries
      modifies this
      ensures previousTasks == old(tasks)
      ensures ok <==> Retry(Guarded(configured, answers), MaxRetries).result.Success?
      ensures ok ==> tasks == RemoveLocal(old(tasks), taskId)
      ensures !ok ==> tasks == old(tasks)
      ensures total == old(total) && page == old(page) && hasMore == old(hasMore)
      ensures loading == old(loading) && error == old(error) && filters == old(filters)
    {
      ok := OptimisticUpdate((ts: seq<Task>) => RemoveLocal(ts, taskId), answers);
    }
  }

  /** An archived task can never be edited: its status fails validation, so `editTask`
      returns false before any local change. */
  lemma EditArchivedRejected(task: Task)
    requires task.status == Archived
    ensures ValidateTask(FieldsOfTask(SanitizeTask(task))).Failure?
  {
  }

  /** The list keeps the caller's task while the backend receives the sanitised, trimmed
      data: what is sent is the escaped title, and a title with `<`, `>`, `"` or `'` is
      therefore never sent as typed. */
  lemma EditSendsSanitisedData(task: Task)
    requires ValidateTask(FieldsOfTask(SanitizeTask(task))).Success?
    ensures var sent := ValidateTask(FieldsOfTask(SanitizeTask(task))).value.title;
      sent == Trim(EscapeEach(task.title)) && IsSafe(sent) && (!IsSafe(task.title) ==> sent != task.title)
  {
    SanitizeIsEscapeEach(task.title);
    TrimKeepsSafe(EscapeEach(task.title));
  }
}
