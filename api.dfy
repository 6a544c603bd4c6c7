/** The task API client (src/lib/api.ts): the query `fetchTasks` builds from its filters,
    the page window and `hasMore` arithmetic, the retry policy every call goes through,
    and the guards for a missing backend client. Each remote call is represented by the
    sequence of answers its successive attempts receive. */
module Api {
  import opened Wrappers
  import opened Text
  import opened Types
  import opened Seqs

  // ---------------------------------------------------------------------------
  // Filters and the predicate they denote

  /** The server-side filters; `None` is an absent or null property, and an absent
      status list is the empty list. */
  datatype TaskFilters = TaskFilters(
    search: Option<string>,
    priority: Option<Priority>,
    category: Option<Category>,
    assignee: Option<Assignee>,
    hasDueDate: Option<bool>,
    status: seq<Status>)

  const NoFilters: TaskFilters := TaskFilters(None, None, None, None, None, [])

  /** Case-insensitive substring search over title, description and notes. */
  predicate SearchHit(query: string, t: Task) {
    || Contains(Lower(t.title), Lower(query))
    || Contains(Lower(t.description), Lower(query))
    || Contains(Lower(t.notes), Lower(query))
  }

  /** Which tasks a filter object selects: every filter that is set must hold, and a
      filter that is unset (or an empty search or status list) imposes nothing. */
  predicate Matches(f: TaskFilters, t: Task) {
    && SearchAllows(f, t)
    && PriorityAllows(f, t)
    && CategoryAllows(f, t)
    && AssigneeAllows(f, t)
    && DueDateAllows(f, t)
    && StatusAllows(f, t)
  }

  predicate SearchAllows(f: TaskFilters, t: Task) {
    f.search.Some? && f.search.value != [] ==> SearchHit(f.search.value, t)
  }

  predicate PriorityAllows(f: TaskFilters, t: Task) {
    f.priority.Some? ==> t.priority == f.priority.value
  }

  predicate CategoryAllows(f: TaskFilters, t: Task) {
    f.category.Some? ==> t.category == f.category.value
  }

  predicate AssigneeAllows(f: TaskFilters, t: Task) {
    f.assignee.Some? ==> t.assignee == f.assignee
  }

  predicate DueDateAllows(f: TaskFilters, t: Task) {
    && (f.hasDueDate == Some(true) ==> t.dueDate.Some?)
    && (f.hasDueDate == Some(false) ==> t.dueDate.None?)
  }

  predicate StatusAllows(f: TaskFilters, t: Task) {
    f.status != [] ==> t.status in f.status
  }

  lemma NoFiltersMatchAll(t: Task)
    ensures Matches(NoFilters, t)
  {
  }

  // ---------------------------------------------------------------------------
  // The query

  datatype Column = TitleColumn | DescriptionColumn | NotesColumn | PriorityColumn
                  | CategoryColumn | AssigneeColumn | DueDateColumn | StatusColumn

  /** A task row's cell in a column; `None` is SQL null. */
  function Cell(t: Task, c: Column): Option<string> {
    match c
    case TitleColumn => Some(t.title)
    case DescriptionColumn => Some(t.description)
    case NotesColumn => Some(t.notes)
    case PriorityColumn => Some(PriorityId(t.priority))
    case CategoryColumn => Some(CategoryId(t.category))
    case AssigneeColumn => if t.assignee.Some? then Some(AssigneeId(t.assignee.value)) else None
    case DueDateColumn => t.dueDate
    case StatusColumn => Some(StatusId(t.status))
  }

  /** One restriction added to the query builder. */
  datatype Clause =
    | AnyIlike(columns: seq<Column>, text: string)   // `or(c.ilike.%text%, ...)`
    | Eq(column: Column, value: string)              // `eq`
    | NotNull(column: Column)                        // `not(c, "is", null)`
    | IsNull(column: Column)                         // `is(c, null)`
    | In(column: Column, values: seq<string>)        // `in`

  predicate Holds(c: Clause, t: Task) {
    match c
    case AnyIlike(cols, text) =>
      exists i :: 0 <= i < |cols| && Cell(t, cols[i]).Some? && Contains(Lower(Cell(t, cols[i]).value), Lower(text))
    case Eq(col, v) => Cell(t, col) == Some(v)
    case NotNull(col) => Cell(t, col).Some?
    case IsNull(col) => Cell(t, col).None?
    case In(col, vs) => Cell(t, col).Some? && Cell(t, col).value in vs
  }

  datatype Order = Order(column: string, ascending: bool)

  /** An inclusive range of row positions. */
  datatype Window = Window(from: int, to: int)

  datatype Query = Query(table: string, clauses: seq<Clause>, order: Option<Order>, range: Option<Window>)

  predicate AllHold(clauses: seq<Clause>, t: Task) {
    forall i :: 0 <= i < |clauses| ==> Holds(clauses[i], t)
  }

  /** A row is selected when every clause holds of it. */
  predicate Selects(q: Query, t: Task) {
    AllHold(q.clauses, t)
  }

  datatype Pagination = Pagination(page: int, pageSize: int)

  const DefaultPagination: Pagination := Pagination(1, 50)

  /** Rows `from..to` of page `page`. */
  function PageWindow(p: Pagination): (w: Window)
    ensures w.to - w.from + 1 == p.pageSize
    ensures p.page == 1 ==> w.from == 0
    ensures p.page >= 1 && p.pageSize >= 0 ==> w.from >= 0
  {
    var from := (p.page - 1) * p.pageSize;
    Window(from, from + p.pageSize - 1)
  }

  /** Page windows tile the rows: each page starts right after the previous one ends. */
  lemma PagesAdjacent(p: Pagination)
    ensures PageWindow(p.(page := p.page + 1)).from == PageWindow(p).to + 1
  {
  }

  function StatusIds(ss: seq<Status>): (r: seq<string>)
    ensures |r| == |ss|
    ensures forall s: Status :: StatusId(s) in r <==> s in ss
  {
    if ss == [] then [] else [StatusId(ss[0])] + StatusIds(ss[1..])
  }

  const SearchColumns: seq<Column> := [TitleColumn, DescriptionColumn, NotesColumn]

  const TasksTable: string := "tasks"

  /** Adding a clause narrows the selection by exactly that clause. */
  lemma SelectsAppend(cs: seq<Clause>, c: Clause)
    ensures forall t :: AllHold(cs + [c], t) <==> AllHold(cs, t) && Holds(c, t)
  {
    var cs' := cs + [c];
    assert cs'[|cs|] == c;
    assert forall i :: 0 <= i < |cs| ==> cs'[i] == cs[i];
  }

  lemma PriorityClause(p: Priority)
    ensures forall t :: Holds(Eq(PriorityColumn, PriorityId(p)), t) <==> t.priority == p
  {
  }

  lemma CategoryClause(c: Category)
    ensures forall t :: Holds(Eq(CategoryColumn, CategoryId(c)), t) <==> t.category == c
  {
  }

  lemma AssigneeClause(a: Assignee)
    ensures forall t :: Holds(Eq(AssigneeColumn, AssigneeId(a)), t) <==> t.assignee == Some(a)
  {
  }

  lemma DueDateClauses()
    ensures forall t :: Holds(NotNull(DueDateColumn), t) <==> t.dueDate.Some?
    ensures forall t :: Holds(IsNull(DueDateColumn), t) <==> t.dueDate.None?
  {
  }

  lemma StatusClause(ss: seq<Status>)
    ensures forall t :: Holds(In(StatusColumn, StatusIds(ss)), t) <==> t.status in ss
  {
  }

  /** The query `fetchTasks` builds, one builder call at a time. */
  method BuildQuery(filters: TaskFilters, pagination: Pagination) returns (query: Query)
    ensures query.table == TasksTable
    ensures forall t :: Selects(query, t) <==> Matches(filters, t)
    ensures query.order == Some(Order("created_at", false))
    ensures query.range == Some(PageWindow(pagination))
  {
    var clauses: seq<Clause> := [];
    ghost var q := clauses;
    if filters.search.Some? && filters.search.value != [] {
      clauses := clauses + [AnyIlike(SearchColumns, filters.search.value)];
    }
    SearchStep(filters, q, clauses);
    q := clauses;
    if filters.priority.Some? {
      clauses := clauses + [Eq(PriorityColumn, PriorityId(filters.priority.value))];
    }
    PriorityStep(filters, q, clauses);
    q := clauses;
    if filters.category.Some? {
      clauses := clauses + [Eq(CategoryColumn, CategoryId(filters.category.value))];
    }
    CategoryStep(filters, q, clauses);
    q := clauses;
    if filters.assignee.Some? {
      clauses := clauses + [Eq(AssigneeColumn, AssigneeId(filters.assignee.value))];
    }
    AssigneeStep(filters, q, clauses);
    q := clauses;
    if filters.hasDueDate == Some(true) {
      clauses := clauses + [NotNull(DueDateColumn)];
    } else if filters.hasDueDate == Some(false) {
      clauses := clauses + [IsNull(DueDateColumn)];
    }
    DueDateStep(filters, q, clauses);
    q := clauses;
    if |filters.status| > 0 {
      clauses := clauses + [In(StatusColumn, StatusIds(filters.status))];
    }
    StatusStep(filters, q, clauses);
    query := Query(TasksTable, clauses, Some(Order("created_at", false)), Some(PageWindow(pagination)));
  }

  /** Each builder step of `fetchTasks` narrows the selection by exactly its filter. */
  lemma SearchStep(f: TaskFilters, before: seq<Clause>, after: seq<Clause>)
    requires after == if f.search.Some? && f.search.value != [] then before + [AnyIlike(SearchColumns, f.search.value)] else before
    ensures forall t :: AllHold(after, t) <==> AllHold(before, t) && SearchAllows(f, t)
  {
    if f.search.Some? && f.search.value != [] {
      SelectsAppend(before, AnyIlike(SearchColumns, f.search.value));
      SearchClause(f.search.value);
    }
  }

  lemma PriorityStep(f: TaskFilters, before: seq<Clause>, after: seq<Clause>)
    requires after == if f.priority.Some? then before + [Eq(PriorityColumn, PriorityId(f.priority.value))] else before
    ensures forall t :: AllHold(after, t) <==> AllHold(before, t) && PriorityAllows(f, t)
  {
    if f.priority.Some? {
      SelectsAppend(before, Eq(PriorityColumn, PriorityId(f.priority.value)));
      PriorityClause(f.priority.value);
    }
  }

  lemma CategoryStep(f: TaskFilters, before: seq<Clause>, after: seq<Clause>)
    requires after == if f.category.Some? then before + [Eq(CategoryColumn, CategoryId(f.category.value))] else before
    ensures forall t :: AllHold(after, t) <==> AllHold(before, t) && CategoryAllows(f, t)
  {
    if f.category.Some? {
      SelectsAppend(before, Eq(CategoryColumn, CategoryId(f.category.value)));
      CategoryClause(f.category.value);
    }
  }

  lemma AssigneeStep(f: TaskFilters, before: seq<Clause>, after: seq<Clause>)
    requires after == if f.assignee.Some? then before + [Eq(AssigneeColumn, AssigneeId(f.assignee.value))] else before
    ensures forall t :: AllHold(after, t) <==> AllHold(before, t) && AssigneeAllows(f, t)
  {
    if f.assignee.Some? {
      SelectsAppend(before, Eq(AssigneeColumn, AssigneeId(f.assignee.value)));
      AssigneeClause(f.assignee.value);
    }
  }

  lemma DueDateStep(f: TaskFilters, before: seq<Clause>, after: seq<Clause>)
    requires after == if f.hasDueDate == Some(true) then before + [NotNull(DueDateColumn)]
                      else if f.hasDueDate == Some(false) then before + [IsNull(DueDateColumn)]
                      else before
    ensures forall t :: AllHold(after, t) <==> AllHold(before, t) && DueDateAllows(f, t)
  {
    DueDateClauses();
    if f.hasDueDate == Some(true) {
      SelectsAppend(before, NotNull(DueDateColumn));
    } else if f.hasDueDate == Some(false) {
      SelectsAppend(before, IsNull(DueDateColumn));
    }
  }

  lemma StatusStep(f: TaskFilters, before: seq<Clause>, after: seq<Clause>)
    requires after == if |f.status| > 0 then before + [In(StatusColumn, StatusIds(f.status))] else before
    ensures forall t :: AllHold(after, t) <==> AllHold(before, t) && StatusAllows(f, t)
  {
    if |f.status| > 0 {
      SelectsAppend(before, In(StatusColumn, StatusIds(f.status)));
      StatusClause(f.status);
    }
  }

  /** The `or` of three `ilike`s holds exactly when the search hits. */
  lemma SearchClause(text: string)
    ensures forall t :: Holds(AnyIlike(SearchColumns, text), t) <==> SearchHit(text, t)
  {
    forall t ensures Holds(AnyIlike(SearchColumns, text), t) <==> SearchHit(text, t) {
      SearchHitClause(text, t);
    }
  }

  lemma SearchHitClause(text: string, t: Task)
    ensures Holds(AnyIlike(SearchColumns, text), t) <==> SearchHit(text, t)
  {
    var cols := SearchColumns;
    if SearchHit(text, t) {
      if Contains(Lower(t.title), Lower(text)) {
        assert Cell(t, cols[0]) == Some(t.title);
      } else if Contains(Lower(t.description), Lower(text)) {
        assert Cell(t, cols[1]) == Some(t.description);
      } else {
        assert Cell(t, cols[2]) == Some(t.notes);
      }
    }
  }

  // ---------------------------------------------------------------------------
  // Responses

  datatype TasksResponse = TasksResponse(tasks: seq<Task>, total: int, page: int, pageSize: int, hasMore: bool)

  /** What the backend answers one attempt: rows and an exact count (either may be null),
      or an error. */
  datatype Answer = Rows(data: Option<seq<Task>>, count: Option<int>) | DbError(error: Thrown)

  /** The response built from a successful answer: a missing count is 0, missing rows are
      an empty page, the requested page is echoed, and more rows exist when this page
      ends before the total. */
  function ResponseOf(data: Option<seq<Task>>, count: Option<int>, p: Pagination): (r: TasksResponse)
    ensures r.tasks == data.GetOr([]) && r.total == count.GetOr(0)
    ensures r.page == p.page && r.pageSize == p.pageSize
    ensures r.hasMore <==> PageWindow(p).from + |r.tasks| < r.total
  {
    var from := PageWindow(p).from;
    var total := count.GetOr(0);
    var rows := data.GetOr([]);
    TasksResponse(rows, total, p.page, p.pageSize, from + |rows| < total)
  }

  function Min(a: int, b: int): int { if a <= b then a else b }

  /** What a backend that holds the matching rows `rows` (already in the requested order)
      answers for page `p`. */
  function ServePage(rows: seq<Task>, p: Pagination): Answer
    requires p.page >= 1 && p.pageSize >= 1
  {
    var w := PageWindow(p);
    Rows(Some(rows[Min(w.from, |rows|)..Min(w.to + 1, |rows|)]), Some(|rows|))
  }

  /** Against such a backend a page holds at most `pageSize` rows, the total is the number
      of matching rows, and `hasMore` holds exactly when rows exist beyond the window. */
  lemma ServedPageShape(rows: seq<Task>, p: Pagination)
    requires p.page >= 1 && p.pageSize >= 1
    ensures var a := ServePage(rows, p);
      var r := ResponseOf(a.data, a.count, p);
      && |r.tasks| <= p.pageSize
      && r.total == |rows|
      && (r.hasMore <==> PageWindow(p).to + 1 < |rows|)
  {
  }

  /** Two consecutive pages together are the rows of both windows, without gap or overlap. */
  lemma ConsecutivePages(rows: seq<Task>, p: Pagination)
    requires p.page >= 1 && p.pageSize >= 1
    ensures var w := PageWindow(p);
      ServePage(rows, p).data.value + ServePage(rows, p.(page := p.page + 1)).data.value
        == rows[Min(w.from, |rows|)..Min(w.to + 1 + p.pageSize, |rows|)]
  {
    var q := p.(page := p.page + 1);
    var w1, w2 := PageWindow(p), PageWindow(q);
    PagesAdjacent(p);
    var lo, mid, hi := Min(w1.from, |rows|), Min(w1.to + 1, |rows|), Min(w2.to + 1, |rows|);
    assert ServePage(rows, p).data.value == rows[lo..mid];
    assert ServePage(rows, q).data.value == rows[mid..hi];
    assert rows[lo..mid] + rows[mid..hi] == rows[lo..hi];
  }

  // ---------------------------------------------------------------------------
  // Retry

  const MaxRetries: int := 3
  const RetryDelay: nat := 1000

  /** One attempt's outcome. */
  datatype Outcome<T> = Ok(value: T) | Err(error: Thrown)

  function Pow2(n: nat): (r: nat)
    ensures r >= 1
  {
    if n == 0 then 1 else 2 * Pow2(n - 1)
  }

  /** The wait after failed attempt `i` (counting from 0). */
  function Backoff(i: nat): nat {
    RetryDelay * Pow2(i)
  }

  /** The waits after the first `k` attempts. */
  function Delays(k: nat): seq<nat> {
    seq(k, i requires 0 <= i < k => Backoff(i))
  }

  /** What the caller of the retry loop sees thrown: errors as they are, anything else
      wrapped as an error whose message is its string form. */
  function AsError(e: Thrown): (r: Thrown)
    ensures r.ErrorThrown?
    ensures e.ErrorThrown? ==> r == e
  {
    match e
    case ErrorThrown(_) => e
    case ValueThrown(text) => ErrorThrown(text)
    case NullThrown => ErrorThrown("null")
  }

  /** The first successful attempt among the first `n`. */
  function FirstOk<T>(outcomes: seq<Outcome<T>>, n: nat): (r: Option<nat>)
    requires n <= |outcomes|
    ensures r.Some? ==> r.value < n && outcomes[r.value].Ok?
    ensures r.Some? ==> forall j :: 0 <= j < r.value ==> outcomes[j].Err?
    ensures r.None? ==> forall j :: 0 <= j < n ==> outcomes[j].Err?
  {
    if n == 0 then None
    else match FirstOk(outcomes, n - 1)
      case Some(k) => Some(k)
      case None => if outcomes[n - 1].Ok? then Some(n - 1) else None
  }

  /** The first success is unique: an `Ok` preceded only by failures is it. */
  lemma FirstOkIs<T>(outcomes: seq<Outcome<T>>, n: nat, k: nat)
    requires k < n <= |outcomes| && outcomes[k].Ok?
    requires forall j :: 0 <= j < k ==> outcomes[j].Err?
    ensures FirstOk(outcomes, n) == Some(k)
  {
  }

  /** The result of a retried call, how many attempts it made and the waits between them. */
  datatype RetryReport<T> = RetryReport(result: Result<T, Thrown>, attempts: nat, delays: seq<nat>)

  /** The retry policy in closed form: attempts run until the first success, at most
      `retries` of them; every failed attempt but the last is followed by a wait of
      1000·2^i ms; when every attempt fails the last error is thrown, and when no attempt
      is made `null` is thrown. */
  function Retry<T>(outcomes: seq<Outcome<T>>, retries: int): RetryReport<T>
    requires retries <= |outcomes|
  {
    var n := if retries > 0 then retries else 0;
    match FirstOk(outcomes, n)
    case Some(k) => RetryReport(Success(outcomes[k].value), k + 1, Delays(k))
    case None =>
      if n == 0 then RetryReport(Failure(NullThrown), 0, [])
      else RetryReport(Failure(AsError(outcomes[n - 1].error)), n, Delays(n - 1))
  }

  /** `withRetry`: the counted loop over attempts. */
  method WithRetry<T>(outcomes: seq<Outcome<T>>, retries: int) returns (report: RetryReport<T>)
    requires retries <= |outcomes|
    ensures report == Retry(outcomes, retries)
  {
    var lastError: Thrown := NullThrown;
    var delays: seq<nat> := [];
    var i := 0;
    while i < retries
      invariant 0 <= i <= |outcomes| && i <= (if retries > 0 then retries else 0)
      invariant forall j :: 0 <= j < i ==> outcomes[j].Err?
      invariant i == 0 ==> lastError == NullThrown && delays == []
      invariant i > 0 ==> lastError == AsError(outcomes[i - 1].error)
      invariant 0 < i < retries ==> delays == Delays(i)
      invariant 0 < i && retries <= i ==> delays == Delays(i - 1)
    {
      if outcomes[i].Ok? {
        assert delays == Delays(i);
        FirstOkIs(outcomes, retries, i);
        report := RetryReport(Success(outcomes[i].value), i + 1, delays);
        assert report == Retry(outcomes, retries);
        return;
      }
      lastError := AsError(outcomes[i].error);
      if i < retries - 1 {
        delays := delays + [Backoff(i)];
      }
      i := i + 1;
    }
    if retries > 0 {
      assert i == retries;
      assert FirstOk(outcomes, i) == None;
    } else {
      assert i == 0 && FirstOk(outcomes, 0) == None;
    }
    report := RetryReport(Failure(lastError), i, delays);
    assert report == Retry(outcomes, retries);
  }

  /** The sum of a sequence of waits. */
  function Sum(ds: seq<nat>): nat {
    if ds == [] then 0 else Sum(ds[..|ds| - 1]) + ds[|ds| - 1]
  }

  /** The waits before attempt `k + 1` add up to 1000·(2^k − 1) ms. */
  lemma {:induction false} TotalWait(k: nat)
    ensures Sum(Delays(k)) == RetryDelay * (Pow2(k) - 1)
  {
    if k > 0 {
      TotalWait(k - 1);
      assert Delays(k)[..k - 1] == Delays(k - 1);
    }
  }

  /** Every wait is 1000·2^i ms, and there is one after every failed attempt except the last. */
  lemma RetryWaits<T>(outcomes: seq<Outcome<T>>, retries: int)
    requires retries <= |outcomes|
    ensures var r := Retry(outcomes, retries);
      && |r.delays| == (if r.attempts == 0 then 0 else r.attempts - 1)
      && forall i :: 0 <= i < |r.delays| ==> r.delays[i] == RetryDelay * Pow2(i)
  {
  }

  /** At most `retries` attempts are made; a success is the first successful attempt and
      no attempt follows it; a failure means every attempt made failed. */
  lemma RetryStopsAtFirstSuccess<T>(outcomes: seq<Outcome<T>>, retries: int)
    requires retries <= |outcomes|
    ensures var r := Retry(outcomes, retries);
      && r.attempts <= (if retries > 0 then retries else 0)
      && (r.result.Success? ==>
            && r.attempts >= 1
            && outcomes[r.attempts - 1] == Ok(r.result.value)
            && forall j :: 0 <= j < r.attempts - 1 ==> outcomes[j].Err?)
      && (r.result.Failure? ==> forall j :: 0 <= j < r.attempts ==> outcomes[j].Err?)
      && (r.result.Failure? && retries > 0 ==> r.attempts == retries)
  {
  }

  /** With the default three attempts all failing: waits of 1000 and 2000 ms, and the third
      attempt's error is thrown. */
  lemma DefaultRetriesExhausted<T>(outcomes: seq<Outcome<T>>)
    requires |outcomes| >= MaxRetries
    requires outcomes[0].Err? && outcomes[1].Err? && outcomes[2].Err?
    ensures Retry(outcomes, MaxRetries) == RetryReport(Failure(AsError(outcomes[2].error)), 3, [1000, 2000])
  {
    assert Pow2(1) == 2;
    assert Delays(2) == [1000, 2000];
  }

  /** With no attempt allowed, `null` is thrown. */
  lemma NoAttemptsThrowsNull<T>(outcomes: seq<Outcome<T>>, retries: int)
    requires retries <= 0
    ensures Retry(outcomes, retries) == RetryReport(Failure(NullThrown), 0, [])
  {
  }

  // ---------------------------------------------------------------------------
  // Calls

  const NotConfigured: string := "Supabase not configured"

  /** What one fetch attempt yields from the backend's answer. */
  function AttemptOutcome(a: Answer, p: Pagination): Outcome<TasksResponse> {
    match a
    case DbError(e) => Err(e)
    case Rows(data, count) => Ok(ResponseOf(data, count, p))
  }

  function FetchOutcomes(answers: seq<Answer>, p: Pagination): (r: seq<Outcome<TasksResponse>>)
    ensures |r| == |answers|
    ensures forall i :: 0 <= i < |answers| ==> r[i] == AttemptOutcome(answers[i], p)
  {
    seq(|answers|, i requires 0 <= i < |answers| => AttemptOutcome(answers[i], p))
  }

  /** `fetchTasks` as a function of the backend's answers: without a client it throws before
      any attempt; otherwise it is the retried fetch. */
  function Fetch(configured: bool, p: Pagination, answers: seq<Answer>): RetryReport<TasksResponse>
    requires |answers| >= MaxRetries
  {
    if !configured then RetryReport(Failure(ErrorThrown(NotConfigured)), 0, [])
    else Retry(FetchOutcomes(answers, p), MaxRetries)
  }

  /** `fetchTasks`: builds the query and runs the attempts. The query is returned as sent
      (`None` when no request is made). */
  method FetchTasks(configured: bool, filters: TaskFilters, pagination: Pagination, answers: seq<Answer>)
    returns (report: RetryReport<TasksResponse>, sent: Option<Query>)
    requires |answers| >= MaxRetries
    ensures report == Fetch(configured, pagination, answers)
    ensures sent.Some? <==> configured
    ensures sent.Some? ==> && sent.value.range == Some(PageWindow(pagination))
                           && sent.value.order == Some(Order("created_at", false))
                           && forall t :: Selects(sent.value, t) <==> Matches(filters, t)
  {
    if !configured {
      report := RetryReport(Failure(ErrorThrown(NotConfigured)), 0, []);
      sent := None;
      return;
    }
    var query := BuildQuery(filters, pagination);
    sent := Some(query);
    report := WithRetry(FetchOutcomes(answers, pagination), MaxRetries);
  }

  /** A successful fetch is the first answer with rows, shaped by `ResponseOf`, and echoes
      the requested page. */
  lemma FetchSuccess(configured: bool, p: Pagination, answers: seq<Answer>)
    requires |answers| >= MaxRetries
    requires Fetch(configured, p, answers).result.Success?
    ensures configured
    ensures var r := Fetch(configured, p, answers);
      var k := r.attempts - 1;
      && 0 <= k < MaxRetries && answers[k].Rows?
      && (forall j :: 0 <= j < k ==> answers[j].DbError?)
      && r.result.value == ResponseOf(answers[k].data, answers[k].count, p)
      && r.result.value.page == p.page
  {
    var outs := FetchOutcomes(answers, p);
    RetryStopsAtFirstSuccess(outs, MaxRetries);
  }

  /** Without a client, a fetch fails at once: no attempt and no wait. */
  lemma UnconfiguredFetch(p: Pagination, answers: seq<Answer>)
    requires |answers| >= MaxRetries
    ensures Fetch(false, p, answers) == RetryReport(Failure(ErrorThrown(NotConfigured)), 0, [])
  {
  }

  /** The outcomes a create, update or delete attempt yields: the backend's answers, or the
      not-configured error raised inside each attempt. */
  function Guarded<T>(configured: bool, answers: seq<Outcome<T>>): (r: seq<Outcome<T>>)
    ensures |r| == |answers|
    ensures configured ==> r == answers
    ensures !configured ==> forall i :: 0 <= i < |r| ==> r[i] == Err(ErrorThrown(NotConfigured))
  {
    if configured then answers else seq(|answers|, i => Err(ErrorThrown(NotConfigured)))
  }

  /** `createTask`, `updateTask` and `deleteTask`: one backend call under the retry policy,
      with the client check inside each attempt. */
  method Mutate<T>(configured: bool, answers: seq<Outcome<T>>) returns (report: RetryReport<T>)
    requires |answers| >= MaxRetries
    ensures report == Retry(Guarded(configured, answers), MaxRetries)
  {
    report := WithRetry(Guarded(configured, answers), MaxRetries);
  }

  /** Unlike a fetch, a mutation without a client goes through all three attempts and both
      waits before it fails. */
  lemma UnconfiguredMutation<T>(answers: seq<Outcome<T>>)
    requires |answers| >= MaxRetries
    ensures Retry(Guarded(false, answers), MaxRetries)
         == RetryReport(Failure(ErrorThrown(NotConfigured)), 3, [1000, 2000])
  {
    DefaultRetriesExhausted(Guarded(false, answers));
  }

  /** Whether a mutation succeeds, stated without the retry loop: a client exists and
      one of the three attempts is answered. */
  predicate Succeeds<T>(configured: bool, answers: seq<Outcome<T>>) {
    configured && exists k :: 0 <= k < MaxRetries && k < |answers| && answers[k].Ok?
  }

  /** A mutation's result is a success exactly when a client exists and some attempt
      within the retry budget succeeds. */
  lemma MutationSucceeds<T>(configured: bool, answers: seq<Outcome<T>>)
    requires |answers| >= MaxRetries
    ensures Retry(Guarded(configured, answers), MaxRetries).result.Success? <==> Succeeds(configured, answers)
  {
    var outs := Guarded(configured, answers);
    var r := Retry(outs, MaxRetries);
    RetryStopsAtFirstSuccess(outs, MaxRetries);
    if Succeeds(configured, answers) {
      var k :| 0 <= k < MaxRetries && k < |answers| && answers[k].Ok?;
      assert outs[k].Ok?;
    }
    if r.result.Success? {
      assert answers[r.attempts - 1].Ok?;
    }
  }
}
