/** The task page (src/components/TasksView.tsx): it splits the loaded tasks into the
    board and the archive, forwards search and filter changes to the store, and turns
    clicks into store mutations, among them archiving every complete task one by one. */
module TasksView {
  import opened Wrappers
  import opened Types
  import opened Seqs
  import opened Sanitize
  import opened Schemas
  import opened Api
  import opened UseTasks
  import opened TaskFiltersBar

  // ---------------------------------------------------------------------------
  // The archive partition

  predicate NotArchived(t: Task) {
    t.status != Archived
  }

  predicate IsArchived(t: Task) {
    t.status == Archived
  }

  /** `activeTasks`: what the board shows. */
  function ActiveTasks(ts: seq<Task>): seq<Task> {
    Filter(ts, NotArchived)
  }

  /** `archivedTasks`: what the archive section lists. */
  function ArchivedTasks(ts: seq<Task>): seq<Task> {
    Filter(ts, IsArchived)
  }

  /** The two views split the list: a task is in exactly the one its status picks, each
      task occurs in the two together as often as in the list, and both keep the list's
      order (splitting a list in two and viewing each part gives the parts' views). */
  lemma ArchivePartition(ts: seq<Task>)
    ensures forall t :: t in ActiveTasks(ts) <==> t in ts && t.status != Archived
    ensures forall t :: t in ArchivedTasks(ts) <==> t in ts && t.status == Archived
    ensures multiset(ActiveTasks(ts)) + multiset(ArchivedTasks(ts)) == multiset(ts)
    ensures forall a, b :: ts == a + b ==>
      && ActiveTasks(ts) == ActiveTasks(a) + ActiveTasks(b)
      && ArchivedTasks(ts) == ArchivedTasks(a) + ArchivedTasks(b)
  {
    forall t ensures t in ActiveTasks(ts) <==> t in ts && t.status != Archived {
      FilterMembership(ts, NotArchived, t);
    }
    forall t ensures t in ArchivedTasks(ts) <==> t in ts && t.status == Archived {
      FilterMembership(ts, IsArchived, t);
    }
    FilterPartition(ts, NotArchived, IsArchived);
    forall a, b | ts == a + b
      ensures ActiveTasks(ts) == ActiveTasks(a) + ActiveTasks(b)
      ensures ArchivedTasks(ts) == ArchivedTasks(a) + ArchivedTasks(b)
    {
      FilterConcat(a, b, NotArchived);
      FilterConcat(a, b, IsArchived);
    }
  }

  // ---------------------------------------------------------------------------
  // Filters

  /** `hasActiveFilters`: a non-empty search text or some truthy filter value. */
  predicate HasActiveFilters(searchQuery: string, f: UiFilters) {
    searchQuery != [] || exists k :: Truthy(f, k)
  }

  /** The page marks filters as active exactly when the search box is non-empty or the
      filter bar counts at least one filter. */
  lemma ActiveFiltersAgree(searchQuery: string, f: UiFilters)
    ensures HasActiveFilters(searchQuery, f) <==> searchQuery != [] || ActiveFiltersCount(f) > 0
  {
    ClearButtonShown(f);
  }

  /** The object `handleFiltersChange` hands to `setFilters`: the four bar values and
      nothing else. */
  function ServerFilters(ui: UiFilters): (f: TaskFilters)
    ensures f.search.None? && f.status == []
    ensures f.priority == ui.priority && f.category == ui.category
    ensures f.assignee == ui.assignee && f.hasDueDate == ui.hasDueDate
  {
    TaskFilters(None, ui.priority, ui.category, ui.assignee, ui.hasDueDate, [])
  }

  /** The object replaces the store's filters whole, so a filter change drops the search
      that is still shown in the search box: a task that misses the search text but
      passes the bar's values was filtered out before and is selected after. */
  lemma FilterChangeDropsSearch(before: TaskFilters, ui: UiFilters, t: Task)
    requires before.search.Some? && before.search.value != [] && !SearchHit(before.search.value, t)
    requires before.status == []
    requires PriorityAllows(ServerFilters(ui), t) && CategoryAllows(ServerFilters(ui), t)
    requires AssigneeAllows(ServerFilters(ui), t) && DueDateAllows(ServerFilters(ui), t)
    ensures !Matches(before, t)
    ensures Matches(ServerFilters(ui), t)
  {
  }

  // ---------------------------------------------------------------------------
  // Archive all

  predicate IsComplete(t: Task) {
    t.status == Complete
  }

  /** The tasks archive-all works through, in list order. */
  function CompleteTasks(ts: seq<Task>): seq<Task> {
    Filter(ts, IsComplete)
  }

  function Ids(ts: seq<Task>): (r: seq<string>)
    ensures |r| == |ts| && forall i :: 0 <= i < |ts| ==> r[i] == ts[i].id
    decreases |ts|
  {
    if ts == [] then [] else Ids(ts[..|ts| - 1]) + [ts[|ts| - 1].id]
  }

  /** The list after a run of `moveTask(ids[k], s)` calls whose outcomes were `oks[k]`: a
      call that failed was rolled back and leaves the list as it found it. */
  function ApplyMoves(ts: seq<Task>, ids: seq<string>, oks: seq<bool>, s: Status): seq<Task>
    requires |ids| == |oks|
    decreases |ids|
  {
    if ids == [] then ts
    else
      var n := |ids| - 1;
      var before := ApplyMoves(ts, ids[..n], oks[..n], s);
      if oks[n] then MoveLocal(before, ids[n], s) else before
  }

  /** One more call: a success applies its move to the list so far, a failure leaves it. */
  lemma ApplyMovesStep(ts: seq<Task>, ids: seq<string>, oks: seq<bool>, x: string, ok: bool, s: Status)
    requires |ids| == |oks|
    ensures ApplyMoves(ts, ids + [x], oks + [ok], s)
         == if ok then MoveLocal(ApplyMoves(ts, ids, oks, s), x, s) else ApplyMoves(ts, ids, oks, s)
  {
    assert (ids + [x])[..|ids|] == ids;
    assert (oks + [ok])[..|oks|] == oks;
  }

  /** Whether each of the first `n` calls succeeds, given the answers its attempts get. */
  function Successes(configured: bool, answers: seq<seq<Outcome<Task>>>, n: nat): (r: seq<bool>)
    requires n <= |answers|
    ensures |r| == n && forall k :: 0 <= k < n ==> r[k] == Succeeds(configured, answers[k])
  {
    if n == 0 then [] else Successes(configured, answers, n - 1) + [Succeeds(configured, answers[n - 1])]
  }

  /** The list with every task whose id is listed given status `s`. */
  function MarkMoved(ts: seq<Task>, ids: seq<string>, s: Status): seq<Task> {
    seq(|ts|, i requires 0 <= i < |ts| => if ts[i].id in ids then ts[i].(status := s) else ts[i])
  }

  /** When every move succeeds, the run gives each task whose id was named the new
      status, whatever the order of the calls and however often an id repeats. */
  lemma {:induction false} ApplyMovesAllSucceeded(ts: seq<Task>, ids: seq<string>, oks: seq<bool>, s: Status)
    requires |ids| == |oks| && forall k :: 0 <= k < |oks| ==> oks[k]
    ensures ApplyMoves(ts, ids, oks, s) == MarkMoved(ts, ids, s)
    decreases |ids|
  {
    if ids != [] {
      var n := |ids| - 1;
      var before := ApplyMoves(ts, ids[..n], oks[..n], s);
      ApplyMovesAllSucceeded(ts, ids[..n], oks[..n], s);
      MoveLocalOnlyStatus(before, ids[n], s);
      var r := MoveLocal(before, ids[n], s);
      assert ids == ids[..n] + [ids[n]];
      forall i | 0 <= i < |ts| ensures r[i] == MarkMoved(ts, ids, s)[i] {
        assert before[i].id == ts[i].id by {
          assert before[i] == MarkMoved(ts, ids[..n], s)[i];
        }
      }
    }
  }

  /** An id is named by archive-all exactly when a complete task carries it. */
  lemma {:induction false} CompleteIdsExact(ts: seq<Task>, x: string)
    ensures x in Ids(CompleteTasks(ts)) <==> exists j :: 0 <= j < |ts| && ts[j].id == x && ts[j].status == Complete
    decreases |ts|
  {
    if ts != [] {
      var n := |ts| - 1;
      CompleteIdsExact(ts[..n], x);
      assert ts == ts[..n] + [ts[n]];
      if x in Ids(CompleteTasks(ts)) && !(x in Ids(CompleteTasks(ts[..n]))) {
        assert ts[n].id == x && ts[n].status == Complete;
      }
      if exists j :: 0 <= j < |ts| && ts[j].id == x && ts[j].status == Complete {
        var j :| 0 <= j < |ts| && ts[j].id == x && ts[j].status == Complete;
        if j == n {
          assert Ids(CompleteTasks(ts))[|Ids(CompleteTasks(ts))| - 1] == x;
        } else {
          assert ts[..n][j] == ts[j];
          assert Ids(CompleteTasks(ts[..n])) <= Ids(CompleteTasks(ts));
        }
      }
    }
  }

  predicate UniqueIds(ts: seq<Task>) {
    forall i, j :: 0 <= i < |ts| && 0 <= j < |ts| && ts[i].id == ts[j].id ==> i == j
  }

  /** With unique ids and every move succeeding, archive-all archives exactly the tasks
      that were complete and leaves every other task as it was. */
  lemma ArchiveAllArchivesComplete(ts: seq<Task>, oks: seq<bool>)
    requires UniqueIds(ts)
    requires |oks| == |CompleteTasks(ts)| && forall k :: 0 <= k < |oks| ==> oks[k]
    ensures var r := ApplyMoves(ts, Ids(CompleteTasks(ts)), oks, Archived);
      && |r| == |ts|
      && (forall i :: 0 <= i < |ts| && ts[i].status == Complete ==> r[i] == ts[i].(status := Archived))
      && (forall i :: 0 <= i < |ts| && ts[i].status != Complete ==> r[i] == ts[i])
  {
    var ids := Ids(CompleteTasks(ts));
    ApplyMovesAllSucceeded(ts, ids, oks, Archived);
    forall i | 0 <= i < |ts| ensures ts[i].id in ids <==> ts[i].status == Complete {
      CompleteIdsExact(ts, ts[i].id);
    }
  }

  // ---------------------------------------------------------------------------
  // The page

  class TasksView {
    /** The `useTasks({ pageSize: 50 })` store the page drives. */
    const store: TaskStore

    var selectedTask: Option<Task>
    var isModalOpen: bool
    var showAddForm: bool
    var showArchived: bool
    var searchQuery: string
    var uiFilters: UiFilters

    constructor(store: TaskStore)
      ensures this.store == store
      ensures selectedTask == None && !isModalOpen && !showAddForm && !showArchived
      ensures searchQuery == [] && uiFilters == Cleared
    {
      this.store := store;
      selectedTask := None;
      isModalOpen := false;
      showAddForm := false;
      showArchived := false;
      searchQuery := [];
      uiFilters := Cleared;
    }

    /** `handleSearchChange`, followed by the reload the store runs when its filters
        change: the box shows the text, the store searches for it from page 1, and the
        query sent selects exactly the tasks the new filters match. */
    method HandleSearchChange(value: string, answers: seq<Answer>) returns (sent: Option<Query>)
      requires |answers| >= MaxRetries
      modifies this, store
      ensures searchQuery == value
      ensures uiFilters == old(uiFilters) && selectedTask == old(selectedTask) && isModalOpen == old(isModalOpen)
      ensures showAddForm == old(showAddForm) && showArchived == old(showArchived)
      ensures store.filters == old(store.filters).(search := if value == [] then None else Some(value))
      ensures store.Loaded() == AfterLoad(old(store.Loaded()).(page := 1), false,
                                          Fetch(store.configured, Pagination(1, store.pageSize), answers).result)
      ensures !store.loading && store.previousTasks == old(store.previousTasks)
      ensures sent.Some? ==> forall t :: Selects(sent.value, t) <==> Matches(store.filters, t)
    {
      searchQuery := value;
      store.SetSearch(value);
      sent := store.Refresh(answers);
    }

    /** `handleFiltersChange`, followed by the reload: the bar shows the new values and
        the store's filters become exactly those values, without the search. */
    method HandleFiltersChange(newFilters: UiFilters, answers: seq<Answer>) returns (sent: Option<Query>)
      requires |answers| >= MaxRetries
      modifies this, store
      ensures uiFilters == newFilters
      ensures searchQuery == old(searchQuery) && selectedTask == old(selectedTask) && isModalOpen == old(isModalOpen)
      ensures showAddForm == old(showAddForm) && showArchived == old(showArchived)
      ensures store.filters == ServerFilters(newFilters)
      ensures store.Loaded() == AfterLoad(old(store.Loaded()).(page := 1), false,
                                          Fetch(store.configured, Pagination(1, store.pageSize), answers).result)
      ensures !store.loading && store.previousTasks == old(store.previousTasks)
      ensures sent.Some? ==> forall t :: Selects(sent.value, t) <==> Matches(ServerFilters(newFilters), t)
    {
      uiFilters := newFilters;
      store.SetFilters(ServerFilters(newFilters));
      sent := store.Refresh(answers);
    }

    /** `handleTaskClick`: the modal opens on the task. */
    method HandleTaskClick(task: Task)
      modifies this
      ensures selectedTask == Some(task) && isModalOpen
      ensures showAddForm == old(showAddForm) && showArchived == old(showArchived)
      ensures searchQuery == old(searchQuery) && uiFilters == old(uiFilters)
    {
      selectedTask := Some(task);
      isModalOpen := true;
    }

    /** `closeModal`. */
    method CloseModal()
      modifies this
      ensures selectedTask == None && !isModalOpen
      ensures showAddForm == old(showAddForm) && showArchived == old(showArchived)
      ensures searchQuery == old(searchQuery) && uiFilters == old(uiFilters)
    {
      isModalOpen := false;
      selectedTask := None;
    }

    /** `handleSaveTask`: the modal's task goes through `editTask`. */
    method HandleSaveTask(updatedTask: Task, answers: seq<Outcome<Task>>) returns (ok: bool)
      requires |answers| >= MaxRetries
      modifies store
      ensures var valid := ValidateTask(FieldsOfTask(SanitizeTask(updatedTask))).Success?;
        && (ok <==> valid && Retry(Guarded(store.configured, answers), MaxRetries).result.Success?)
        && store.previousTasks == (if valid then old(store.tasks) else old(store.previousTasks))
      ensures ok ==> store.tasks == ReplaceLocal(old(store.tasks), updatedTask)
      ensures !ok ==> store.tasks == old(store.tasks)
      ensures updatedTask.status == Archived ==> !ok
      ensures store.Loaded() == old(store.Loaded()).(tasks := store.tasks)
      ensures store.filters == old(store.filters) && store.loading == old(store.loading)
    {
      if updatedTask.status == Archived {
        EditArchivedRejected(updatedTask);
      }
      var sent;
      ok, sent := store.EditTask(updatedTask, answers);
    }

    /** `handleDeleteTask`: `removeTask`. */
    method HandleDeleteTask(taskId: string, answers: seq<Outcome<()>>) returns (ok: bool)
      requires |answers| >= MaxRetries
      modifies store
      ensures ok <==> Retry(Guarded(store.configured, answers), MaxRetries).result.Success?
      ensures ok ==> store.tasks == RemoveLocal(old(store.tasks), taskId)
      ensures !ok ==> store.tasks == old(store.tasks)
      ensures store.previousTasks == old(store.tasks)
      ensures store.Loaded() == old(store.Loaded()).(tasks := store.tasks)
      ensures store.filters == old(store.filters) && store.loading == old(store.loading)
    {
      ok := store.RemoveTask(taskId, answers);
    }

    /** `handleArchiveTask`: a move to archived. */
    method HandleArchiveTask(taskId: string, answers: seq<Outcome<Task>>) returns (ok: bool)
      requires |answers| >= MaxRetries
      modifies store
      ensures ok <==> Retry(Guarded(store.configured, answers), MaxRetries).result.Success?
      ensures ok ==> store.tasks == MoveLocal(old(store.tasks), taskId, Archived)
      ensures !ok ==> store.tasks == old(store.tasks)
      ensures store.previousTasks == old(store.tasks)
      ensures store.Loaded() == old(store.Loaded()).(tasks := store.tasks)
      ensures store.filters == old(store.filters) && store.loading == old(store.loading)
    {
      ok := store.MoveTask(taskId, Archived, answers);
    }

    /** `handleRestoreTask`: a move back to complete, whatever the status was before
        archiving. */
    method HandleRestoreTask(taskId: string, answers: seq<Outcome<Task>>) returns (ok: bool)
      requires |answers| >= MaxRetries
      modifies store
      ensures ok <==> Retry(Guarded(store.configured, answers), MaxRetries).result.Success?
      ensures ok ==> store.tasks == MoveLocal(old(store.tasks), taskId, Complete)
      ensures !ok ==> store.tasks == old(store.tasks)
      ensures store.previousTasks == old(store.tasks)
      ensures store.Loaded() == old(store.Loaded()).(tasks := store.tasks)
      ensures store.filters == old(store.filters) && store.loading == old(store.loading)
    {
      ok := store.MoveTask(taskId, Complete, answers);
    }

    /** `handleArchiveAllComplete`: one awaited move to archived per task that is complete
        when the button is pressed, in list order, and no other calls. `answers[k]` are
        the answers the k-th call's attempts receive; the k-th result says whether that
        move stuck. */
    method HandleArchiveAllComplete(answers: seq<seq<Outcome<Task>>>) returns (issued: seq<string>, results: seq<bool>)
      requires |answers| >= |CompleteTasks(store.tasks)|
      requires forall k :: 0 <= k < |answers| ==> |answers[k]| >= MaxRetries
      modifies store
      ensures issued == Ids(CompleteTasks(old(store.tasks)))
      ensures |results| == |issued|
      ensures forall k :: 0 <= k < |results| ==> results[k] == Succeeds(store.configured, answers[k])
      ensures store.tasks == ApplyMoves(old(store.tasks), issued, results, Archived)
      ensures store.Loaded() == old(store.Loaded()).(tasks := store.tasks)
      ensures store.filters == old(store.filters) && store.loading == old(store.loading)
    {
      var ids := Ids(CompleteTasks(store.tasks));
      ghost var oks := Successes(store.configured, answers, |ids|);
      issued, results := [], [];
      for i := 0 to |ids|
        invariant issued == ids[..i] && results == oks[..i]
        invariant store.tasks == ApplyMoves(old(store.tasks), issued, results, Archived)
        invariant store.total == old(store.total) && store.page == old(store.page)
        invariant store.hasMore == old(store.hasMore) && store.error == old(store.error)
        invariant store.filters == old(store.filters) && store.loading == old(store.loading)
      {
        var ok := ArchiveOne(ids[i], answers[i]);
        ApplyMovesStep(old(store.tasks), issued, results, ids[i], ok, Archived);
        assert oks[i] == ok;
        TakeStep(ids, i);
        TakeStep(oks, i);
        issued := issued + [ids[i]];
        results := results + [ok];
      }
      assert ids[..|ids|] == ids && oks[..|ids|] == oks;
    }

    /** One iteration of archive-all: the move of one task, whose outcome is stated in
        closed form. */
    method ArchiveOne(taskId: string, answers: seq<Outcome<Task>>) returns (ok: bool)
      requires |answers| >= MaxRetries
      modifies store
      ensures ok == Succeeds(store.configured, answers)
      ensures store.tasks == if ok then MoveLocal(old(store.tasks), taskId, Archived) else old(store.tasks)
      ensures store.Loaded() == old(store.Loaded()).(tasks := store.tasks)
      ensures store.filters == old(store.filters) && store.loading == old(store.loading)
    {
      ok := store.MoveTask(taskId, Archived, answers);
      MutationSucceeds(store.configured, answers);
    }

    /** `handleAddTask`: the form closes only when `addTask` reports success. */
    method HandleAddTask(newTask: TaskDraft, answers: seq<Outcome<Task>>) returns (ok: bool)
      requires |answers| >= MaxRetries
      modifies this, store
      ensures ok <==> ValidateNewTask(FieldsOfDraft(SanitizeDraft(newTask))).Success?
                      && Retry(Guarded(store.configured, answers), MaxRetries).result.Success?
      ensures showAddForm == (if ok then false else old(showAddForm))
      ensures ok ==> store.tasks == [Retry(Guarded(store.configured, answers), MaxRetries).result.value] + old(store.tasks)
      ensures !ok ==> store.tasks == old(store.tasks)
      ensures store.Loaded() == old(store.Loaded()).(tasks := store.tasks,
                                                     total := if ok then old(store.total) + 1 else old(store.total))
      ensures store.filters == old(store.filters) && store.loading == old(store.loading)
      ensures store.previousTasks == old(store.previousTasks)
      ensures showArchived == old(showArchived) && searchQuery == old(searchQuery) && uiFilters == old(uiFilters)
      ensures selectedTask == old(selectedTask) && isModalOpen == old(isModalOpen)
    {
      var sent;
      ok, sent := store.AddTask(newTask, answers);
      if ok {
        showAddForm := false;
      }
    }

    /** The `n` shortcut, the add button and the floating add button open the form. */
    method HandleNewTaskShortcut()
      modifies this
      ensures showAddForm
      ensures showArchived == old(showArchived) && searchQuery == old(searchQuery) && uiFilters == old(uiFilters)
      ensures selectedTask == old(selectedTask) && isModalOpen == old(isModalOpen)
    {
      showAddForm := true;
    }

    /** The form's cancel button closes it. */
    method CancelAddForm()
      modifies this
      ensures !showAddForm
      ensures showArchived == old(showArchived) && searchQuery == old(searchQuery) && uiFilters == old(uiFilters)
      ensures selectedTask == old(selectedTask) && isModalOpen == old(isModalOpen)
    {
      showAddForm := false;
    }

    /** The archive section's header flips whether it is open. */
    method ToggleArchived()
      modifies this
      ensures showArchived == !old(showArchived)
      ensures showAddForm == old(showAddForm) && searchQuery == old(searchQuery) && uiFilters == old(uiFilters)
      ensures selectedTask == old(selectedTask) && isModalOpen == old(isModalOpen)
    {
      showArchived := !showArchived;
    }
  }
}
