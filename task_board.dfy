/** The kanban board (src/components/TaskBoard.tsx): one column per status of the board,
    the remembered mobile column and collapsed flags, horizontal swipes between columns,
    and drag and drop, which resolves a drop target into a status to move a task to. */
module TaskBoard {
  import opened Wrappers
  import opened Text
  import opened Types
  import opened Seqs

  // ---------------------------------------------------------------------------
  // Reading back the remembered column

  predicate IsDigit(c: char) {
    '0' <= c <= '9'
  }

  function DigitValue(c: char): (v: nat)
    requires IsDigit(c)
    ensures v < 10
  {
    c as int - '0' as int
  }

  function DigitChar(v: nat): (c: char)
    requires v < 10
    ensures IsDigit(c) && DigitValue(c) == v
  {
    ('0' as int + v) as char
  }

  /** The end of the run of decimal digits that starts at `i`. */
  function DigitsEnd(s: string, i: nat): (n: nat)
    requires i <= |s|
    ensures i <= n <= |s|
    ensures forall k :: i <= k < n ==> IsDigit(s[k])
    ensures n == |s| || !IsDigit(s[n])
    decreases |s| - i
  {
    if i < |s| && IsDigit(s[i]) then DigitsEnd(s, i + 1) else i
  }

  /** The number a run of decimal digits denotes, most significant first. */
  function DigitsValue(d: string): nat
    requires forall k :: 0 <= k < |d| ==> IsDigit(d[k])
    decreases |d|
  {
    if d == [] then 0 else DigitsValue(d[..|d| - 1]) * 10 + DigitValue(d[|d| - 1])
  }

  /** `parseInt(s, 10)`: leading white space is skipped, one `+` or `-` is read, then the
      longest run of decimal digits; without a digit the result is `NaN` (`None`). */
  function ParseInt(s: string): (r: Option<int>)
    ensures r.None? <==>
      var b := SpaceEnd(s, 0);
      var d := if b < |s| && (s[b] == '+' || s[b] == '-') then b + 1 else b;
      d == |s| || !IsDigit(s[d])
  {
    var a := SpaceEnd(s, 0);
    var negative := a < |s| && s[a] == '-';
    var b := if a < |s| && (s[a] == '+' || s[a] == '-') then a + 1 else a;
    var e := DigitsEnd(s, b);
    if e == b then None
    else
      var v: int := DigitsValue(s[b..e]);
      Some(if negative then -v else v)
  }

  const ColumnCount: int := |Statuses|

  /** `getInitialColumn`: the remembered index if it parses to an integer in [0, 3), and 0
      otherwise (also when nothing, or the empty string, was remembered). */
  function InitialColumn(saved: Option<string>): (r: int)
    ensures 0 <= r < ColumnCount
    ensures r != 0 ==> saved.Some? && ParseInt(saved.value) == Some(r)
  {
    if saved.Some? && saved.value != [] then
      match ParseInt(saved.value)
      case Some(index) => if 0 <= index < 3 then index else 0
      case None => 0
    else 0
  }

  /** `index.toString()` for a non-negative index. */
  function DecimalString(n: nat): (s: string)
    ensures |s| > 0 && forall k :: 0 <= k < |s| ==> IsDigit(s[k])
    decreases n
  {
    if n < 10 then [DigitChar(n)] else DecimalString(n / 10) + [DigitChar(n % 10)]
  }

  lemma {:induction false} DecimalValue(n: nat)
    ensures DigitsValue(DecimalString(n)) == n
    decreases n
  {
    var s := DecimalString(n);
    if n < 10 {
      assert s[..0] == [];
    } else {
      DecimalValue(n / 10);
      assert s[..|s| - 1] == DecimalString(n / 10);
    }
  }

  /** Printing a non-negative integer and parsing it back gives the integer. */
  lemma ParseDecimal(n: nat)
    ensures ParseInt(DecimalString(n)) == Some(n)
  {
    var s := DecimalString(n);
    assert !IsJsWhitespace(s[0]);
    assert SpaceEnd(s, 0) == 0;
    assert DigitsEnd(s, 0) == |s|;
    assert s[0..|s|] == s;
    DecimalValue(n);
  }

  /** A column the board remembered is the column it comes back to. */
  lemma ColumnRestored(index: int)
    requires 0 <= index < ColumnCount
    ensures InitialColumn(Some(DecimalString(index))) == index
  {
    ParseDecimal(index);
  }

  /** Only the run of digits counts: text after it is ignored. */
  lemma TrailingTextIgnored(d: char, rest: string)
    requires IsDigit(d) && DigitValue(d) < ColumnCount
    requires rest == [] || !IsDigit(rest[0])
    ensures InitialColumn(Some([d] + rest)) == DigitValue(d)
  {
    var s := [d] + rest;
    assert SpaceEnd(s, 0) == 0;
    assert DigitsEnd(s, 0) == 1;
    assert s[0..1] == [d];
    assert [d][..0] == [];
    assert DigitsValue([d]) == DigitValue(d);
    assert s[0] != '-';
    assert ParseInt(s) == Some(DigitValue(d));
  }

  // ---------------------------------------------------------------------------
  // Columns

  /** `getTasksByStatus`. */
  function TasksByStatus(tasks: seq<Task>, s: Status): seq<Task> {
    Filter(tasks, (t: Task) => t.status == s)
  }

  /** A column holds exactly the tasks with its status, each as often as the list does,
      in the list's order. */
  lemma TasksByStatusExact(tasks: seq<Task>, s: Status)
    ensures forall t :: t in TasksByStatus(tasks, s) <==> t in tasks && t.status == s
    ensures forall t: Task :: t.status == s ==> multiset(TasksByStatus(tasks, s))[t] == multiset(tasks)[t]
    ensures forall a, b :: tasks == a + b ==> TasksByStatus(tasks, s) == TasksByStatus(a, s) + TasksByStatus(b, s)
  {
    var p := (t: Task) => t.status == s;
    var q := (t: Task) => t.status != s;
    forall t ensures t in TasksByStatus(tasks, s) <==> t in tasks && t.status == s {
      FilterMembership(tasks, p, t);
    }
    FilterPartition(tasks, p, q);
    forall t: Task | t.status == s ensures multiset(TasksByStatus(tasks, s))[t] == multiset(tasks)[t] {
      FilterMembership(tasks, q, t);
    }
    forall a, b | tasks == a + b
      ensures TasksByStatus(tasks, s) == TasksByStatus(a, s) + TasksByStatus(b, s)
    {
      FilterConcat(a, b, p);
    }
  }

  /** The status whose column has the given droppable id, if any. */
  function ColumnOf(id: string): (r: Option<Status>)
    ensures r.Some? ==> r.value in Statuses && StatusId(r.value) == id
    ensures r.None? ==> forall s :: s in Statuses ==> StatusId(s) != id
  {
    if id == "todo" then Some(Todo)
    else if id == "in-progress" then Some(InProgress)
    else if id == "complete" then Some(Complete)
    else None
  }

  /** The index of the first task at or after `i` with the id. */
  function FindFrom(tasks: seq<Task>, id: string, i: nat): (r: Option<nat>)
    requires i <= |tasks|
    ensures r.Some? ==> i <= r.value < |tasks| && tasks[r.value].id == id
                        && forall j :: i <= j < r.value ==> tasks[j].id != id
    ensures r.None? ==> forall j :: i <= j < |tasks| ==> tasks[j].id != id
    decreases |tasks| - i
  {
    if i == |tasks| then None
    else if tasks[i].id == id then Some(i)
    else FindFrom(tasks, id, i + 1)
  }

  /** `tasks.find(t => t.id === id)`: the first task with the id. */
  function FindTask(tasks: seq<Task>, id: string): (r: Option<Task>)
    ensures r.Some? ==> exists i :: 0 <= i < |tasks| && tasks[i] == r.value && r.value.id == id
                                    && forall j :: 0 <= j < i ==> tasks[j].id != id
    ensures r.None? ==> forall i :: 0 <= i < |tasks| ==> tasks[i].id != id
  {
    match FindFrom(tasks, id, 0)
    case Some(i) => Some(tasks[i])
    case None => None
  }

  /** One call of `onMoveTask`. */
  datatype Move = Move(taskId: string, status: Status)

  /** The collapsed flag of each column. */
  datatype ColumnFlags = ColumnFlags(todo: bool, inProgress: bool, complete: bool)

  const NoneCollapsed: ColumnFlags := ColumnFlags(false, false, false)

  function FlagOf(f: ColumnFlags, s: Status): bool
    requires s in Statuses
  {
    match s
    case Todo => f.todo
    case InProgress => f.inProgress
    case Complete => f.complete
  }

  // ---------------------------------------------------------------------------
  // The board

  class Board {
    var activeTask: Option<Task>
    var collapsedColumns: ColumnFlags
    var activeColumnIndex: int
    var touchStartX: Option<int>
    var touchStartY: Option<int>
    /** What the browser storage holds under `brainActiveColumn` and `brainColumnCollapsed`. */
    var savedColumn: Option<string>
    var savedCollapsed: Option<ColumnFlags>

    predicate Valid()
      reads this
    {
      0 <= activeColumnIndex < ColumnCount
    }

    /** The first render reads back what was remembered; a collapsed state that is absent
        (or could not be parsed) is all columns open. */
    constructor(savedColumn: Option<string>, savedCollapsed: Option<ColumnFlags>)
      ensures Valid()
      ensures activeColumnIndex == InitialColumn(savedColumn)
      ensures collapsedColumns == savedCollapsed.GetOr(NoneCollapsed)
      ensures activeTask == None && touchStartX == None && touchStartY == None
      ensures this.savedColumn == savedColumn && this.savedCollapsed == savedCollapsed
    {
      activeTask := None;
      collapsedColumns := savedCollapsed.GetOr(NoneCollapsed);
      activeColumnIndex := InitialColumn(savedColumn);
      touchStartX := None;
      touchStartY := None;
      this.savedColumn := savedColumn;
      this.savedCollapsed := savedCollapsed;
    }

    /** `handleColumnChange`: show the column and remember it, so that the next board
        opens on it. */
    method HandleColumnChange(index: int)
      requires 0 <= index < ColumnCount
      modifies this
      ensures Valid() && activeColumnIndex == index
      ensures savedColumn == Some(DecimalString(index))
      ensures InitialColumn(savedColumn) == index
      ensures collapsedColumns == old(collapsedColumns) && savedCollapsed == old(savedCollapsed)
      ensures activeTask == old(activeTask) && touchStartX == old(touchStartX) && touchStartY == old(touchStartY)
    {
      activeColumnIndex := index;
      savedColumn := Some(DecimalString(index));
      ColumnRestored(index);
    }

    /** `toggleColumnCollapse`: flips the named column's flag, keeps the other two, and
        remembers the new state. */
    method ToggleColumnCollapse(statusId: Status)
      requires statusId in Statuses
      modifies this
      ensures FlagOf(collapsedColumns, statusId) == !FlagOf(old(collapsedColumns), statusId)
      ensures forall s :: s in Statuses && s != statusId ==> FlagOf(collapsedColumns, s) == FlagOf(old(collapsedColumns), s)
      ensures savedCollapsed == Some(collapsedColumns)
      ensures activeColumnIndex == old(activeColumnIndex) && savedColumn == old(savedColumn)
      ensures activeTask == old(activeTask) && touchStartX == old(touchStartX) && touchStartY == old(touchStartY)
    {
      var prev := collapsedColumns;
      var newState := match statusId
        case Todo => prev.(todo := !prev.todo)
        case InProgress => prev.(inProgress := !prev.inProgress)
        case Complete => prev.(complete := !prev.complete);
      collapsedColumns := newState;
      savedCollapsed := Some(newState);
    }

    /** `handleTouchStart`: remember where the finger went down. */
    method HandleTouchStart(x: int, y: int)
      modifies this
      ensures touchStartX == Some(x) && touchStartY == Some(y)
      ensures activeColumnIndex == old(activeColumnIndex) && savedColumn == old(savedColumn)
      ensures collapsedColumns == old(collapsedColumns) && savedCollapsed == old(savedCollapsed)
      ensures activeTask == old(activeTask)
    {
      touchStartX := Some(x);
      touchStartY := Some(y);
    }

    /** `handleTouchEnd`: a mostly horizontal movement of more than 50 pixels moves one
        column, towards the next column for a swipe to the left and the previous one for a
        swipe to the right, never past the ends. A touch end without a recorded start does
        nothing; any other clears the recorded start. */
    method HandleTouchEnd(x: int, y: int)
      requires Valid()
      modifies this
      ensures Valid()
      ensures old(touchStartX.None? || touchStartY.None?) ==>
        && activeColumnIndex == old(activeColumnIndex) && savedColumn == old(savedColumn)
        && touchStartX == old(touchStartX) && touchStartY == old(touchStartY)
      ensures old(touchStartX.Some? && touchStartY.Some?) ==>
        var diffX := old(touchStartX).value - x;
        var diffY := old(touchStartY).value - y;
        var swipe := Abs(diffX) > Abs(diffY) && Abs(diffX) > 50;
        && touchStartX == None && touchStartY == None
        && (activeColumnIndex == old(activeColumnIndex) + 1 <==> swipe && diffX > 0 && old(activeColumnIndex) < ColumnCount - 1)
        && (activeColumnIndex == old(activeColumnIndex) - 1 <==> swipe && diffX < 0 && old(activeColumnIndex) > 0)
        && (activeColumnIndex == old(activeColumnIndex) || activeColumnIndex == old(activeColumnIndex) + 1
            || activeColumnIndex == old(activeColumnIndex) - 1)
        && (activeColumnIndex != old(activeColumnIndex) ==> savedColumn == Some(DecimalString(activeColumnIndex)))
        && (activeColumnIndex == old(activeColumnIndex) ==> savedColumn == old(savedColumn))
      ensures collapsedColumns == old(collapsedColumns) && savedCollapsed == old(savedCollapsed)
      ensures activeTask == old(activeTask)
    {
      if touchStartX.None? || touchStartY.None? {
        return;
      }
      var diffX := touchStartX.value - x;
      var diffY := touchStartY.value - y;
      if Abs(diffX) > Abs(diffY) && Abs(diffX) > 50 {
        if diffX > 0 && activeColumnIndex < ColumnCount - 1 {
          HandleColumnChange(activeColumnIndex + 1);
        } else if diffX < 0 && activeColumnIndex > 0 {
          HandleColumnChange(activeColumnIndex - 1);
        }
      }
      touchStartX := None;
      touchStartY := None;
    }

    /** `handleDragStart`: the dragged card is the first task with the active id, if any;
        otherwise the overlay keeps what it showed. */
    method HandleDragStart(tasks: seq<Task>, activeId: string)
      modifies this
      ensures FindTask(tasks, activeId).Some? ==> activeTask == FindTask(tasks, activeId)
      ensures FindTask(tasks, activeId).None? ==> activeTask == old(activeTask)
      ensures activeTask.Some? && activeTask != old(activeTask) ==> activeTask.value in tasks && activeTask.value.id == activeId
      ensures activeColumnIndex == old(activeColumnIndex) && savedColumn == old(savedColumn)
      ensures collapsedColumns == old(collapsedColumns) && savedCollapsed == old(savedCollapsed)
      ensures touchStartX == old(touchStartX) && touchStartY == old(touchStartY)
    {
      var task := FindTask(tasks, activeId);
      if task.Some? {
        activeTask := task;
      }
    }

    /** `handleDragEnd`: the overlay is cleared; then a drop on nothing moves nothing, a
        drop on a column moves the task to that column's status, a drop on a card moves it
        to that card's status, and a drop on anything else moves nothing. */
    method HandleDragEnd(tasks: seq<Task>, activeId: string, overId: Option<string>) returns (move: Option<Move>)
      modifies this
      ensures activeTask == None
      ensures overId.None? ==> move.None?
      ensures overId.Some? && ColumnOf(overId.value).Some? ==>
        move == Some(Move(activeId, ColumnOf(overId.value).value))
      ensures overId.Some? && ColumnOf(overId.value).None? ==>
        if exists i :: 0 <= i < |tasks| && tasks[i].id == overId.value
        then move.Some? && move.value.taskId == activeId
             && exists i :: 0 <= i < |tasks| && tasks[i].id == overId.value && tasks[i].status == move.value.status
                            && forall j :: 0 <= j < i ==> tasks[j].id != overId.value
        else move.None?
      ensures move.Some? ==> move.value.taskId == activeId
      ensures activeColumnIndex == old(activeColumnIndex) && savedColumn == old(savedColumn)
      ensures collapsedColumns == old(collapsedColumns) && savedCollapsed == old(savedCollapsed)
      ensures touchStartX == old(touchStartX) && touchStartY == old(touchStartY)
    {
      activeTask := None;
      if overId.None? {
        return None;
      }
      var column := ColumnOf(overId.value);
      if column.Some? {
        move := Some(Move(activeId, column.value));
      } else {
        var overTask := FindTask(tasks, overId.value);
        if overTask.Some? {
          move := Some(Move(activeId, overTask.value.status));
        } else {
          move := None;
        }
      }
    }
  }

  function Abs(n: int): (r: nat)
    ensures r == n || r == -n
  {
    if n < 0 then -n else n
  }

  /** A drop on a column moves the card there even when the column's id is also some
      card's id: columns are checked first. */
  lemma ColumnWinsOverCard(tasks: seq<Task>, s: Status)
    requires s in Statuses
    ensures ColumnOf(StatusId(s)) == Some(s)
  {
  }
}
