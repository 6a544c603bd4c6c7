/** The filter bar (src/components/TaskFilters.tsx): four optional filters that a click
    sets or, when the clicked value is already chosen, clears; a count of the filters in
    effect; and a button that clears them all. */
module TaskFiltersBar {
  import opened Wrappers
  import opened Types
  import opened Seqs

  /** The bar's filter record; `None` is `null`. */
  datatype UiFilters = UiFilters(
    priority: Option<Priority>,
    category: Option<Category>,
    assignee: Option<Assignee>,
    hasDueDate: Option<bool>)

  const Cleared: UiFilters := UiFilters(None, None, None, None)

  /** The four keys of the record. */
  datatype FilterKey = PriorityKey | CategoryKey | AssigneeKey | DueDateKey

  /** A value a button can choose, together with the key it is for. */
  datatype Choice =
    | PriorityChoice(priority: Priority)
    | CategoryChoice(category: Category)
    | AssigneeChoice(assignee: Assignee)
    | DueDateChoice(hasDueDate: bool)

  function KeyOf(c: Choice): FilterKey {
    match c
    case PriorityChoice(_) => PriorityKey
    case CategoryChoice(_) => CategoryKey
    case AssigneeChoice(_) => AssigneeKey
    case DueDateChoice(_) => DueDateKey
  }

  /** `filters[key]`, as the choice that would have set it. */
  function Get(f: UiFilters, k: FilterKey): (r: Option<Choice>)
    ensures r.Some? ==> KeyOf(r.value) == k
  {
    match k
    case PriorityKey => if f.priority.Some? then Some(PriorityChoice(f.priority.value)) else None
    case CategoryKey => if f.category.Some? then Some(CategoryChoice(f.category.value)) else None
    case AssigneeKey => if f.assignee.Some? then Some(AssigneeChoice(f.assignee.value)) else None
    case DueDateKey => if f.hasDueDate.Some? then Some(DueDateChoice(f.hasDueDate.value)) else None
  }

  /** `updateFilter(key, value)`: the key becomes `null` if it already holds the value,
      and the value otherwise; the other keys are copied. */
  function UpdateFilter(f: UiFilters, c: Choice): (r: UiFilters)
    ensures Get(r, KeyOf(c)) == if Get(f, KeyOf(c)) == Some(c) then None else Some(c)
    ensures forall k :: k != KeyOf(c) ==> Get(r, k) == Get(f, k)
  {
    match c
    case PriorityChoice(p) => f.(priority := if f.priority == Some(p) then None else Some(p))
    case CategoryChoice(x) => f.(category := if f.category == Some(x) then None else Some(x))
    case AssigneeChoice(a) => f.(assignee := if f.assignee == Some(a) then None else Some(a))
    case DueDateChoice(b) => f.(hasDueDate := if f.hasDueDate == Some(b) then None else Some(b))
  }

  /** Whether a key's value counts as set for `.filter(Boolean)`: every enum id is a
      non-empty string, so any chosen value counts, except `hasDueDate = false`. */
  predicate Truthy(f: UiFilters, k: FilterKey) {
    match k
    case PriorityKey => f.priority.Some?
    case CategoryKey => f.category.Some?
    case AssigneeKey => f.assignee.Some?
    case DueDateKey => f.hasDueDate == Some(true)
  }

  function Count(b: bool): nat {
    if b then 1 else 0
  }

  /** The array literal the count is taken over, one entry per key. */
  const FilterKeys: seq<FilterKey> := [PriorityKey, CategoryKey, AssigneeKey, DueDateKey]

  /** `activeFiltersCount`: the number of the four keys whose value is truthy. */
  function ActiveFiltersCount(f: UiFilters): (n: nat)
    ensures n == |Filter(FilterKeys, (k: FilterKey) => Truthy(f, k))|
    ensures n <= 4
    ensures n == 0 <==> forall k :: !Truthy(f, k)
    ensures n == 4 <==> forall k :: Truthy(f, k)
  {
    AllKeys(f);
    TruthyKeysCounted(f);
    Count(f.priority.Some?) + Count(f.category.Some?) + Count(f.assignee.Some?)
      + Count(f.hasDueDate == Some(true))
  }

  /** `.filter(Boolean).length` over the four values, one key at a time. */
  lemma TruthyKeysCounted(f: UiFilters)
    ensures |Filter(FilterKeys, (k: FilterKey) => Truthy(f, k))|
         == Count(Truthy(f, PriorityKey)) + Count(Truthy(f, CategoryKey))
            + Count(Truthy(f, AssigneeKey)) + Count(Truthy(f, DueDateKey))
  {
    var p := (k: FilterKey) => Truthy(f, k);
    assert FilterKeys[..3][..2][..1] == [PriorityKey];
    FilterSingle(PriorityKey, p);
  }

  /** A property of every key is a property of the four keys. */
  lemma AllKeys(f: UiFilters)
    ensures (forall k :: Truthy(f, k))
      <==> Truthy(f, PriorityKey) && Truthy(f, CategoryKey) && Truthy(f, AssigneeKey) && Truthy(f, DueDateKey)
    ensures (forall k :: !Truthy(f, k))
      <==> !Truthy(f, PriorityKey) && !Truthy(f, CategoryKey) && !Truthy(f, AssigneeKey) && !Truthy(f, DueDateKey)
  {
    if Truthy(f, PriorityKey) && Truthy(f, CategoryKey) && Truthy(f, AssigneeKey) && Truthy(f, DueDateKey) {
      forall k ensures Truthy(f, k) {
        match k
        case PriorityKey =>
        case CategoryKey =>
        case AssigneeKey =>
        case DueDateKey =>
      }
    }
    if !Truthy(f, PriorityKey) && !Truthy(f, CategoryKey) && !Truthy(f, AssigneeKey) && !Truthy(f, DueDateKey) {
      forall k ensures !Truthy(f, k) {
        match k
        case PriorityKey =>
        case CategoryKey =>
        case AssigneeKey =>
        case DueDateKey =>
      }
    }
  }

  /** The clear button is shown only while some filter is in effect. */
  predicate ShowClearButton(f: UiFilters) {
    ActiveFiltersCount(f) > 0
  }

  /** `clearFilters`: every key back to `null`, so nothing is counted. */
  lemma ClearFiltersClears()
    ensures forall k :: Get(Cleared, k).None?
    ensures ActiveFiltersCount(Cleared) == 0 && !ShowClearButton(Cleared)
  {
    assert forall k :: !Truthy(Cleared, k);
  }

  /** Choosing a value twice, starting from another value, leaves the key `null` and the
      rest as it was. */
  lemma ChooseTwiceClears(f: UiFilters, c: Choice)
    requires Get(f, KeyOf(c)) != Some(c)
    ensures Get(UpdateFilter(UpdateFilter(f, c), c), KeyOf(c)).None?
    ensures forall k :: k != KeyOf(c) ==> Get(UpdateFilter(UpdateFilter(f, c), c), k) == Get(f, k)
  {
    var once := UpdateFilter(f, c);
    assert Get(once, KeyOf(c)) == Some(c);
  }

  /** `hasDueDate = false` is a filter in effect on the server but is not counted. */
  lemma NoDueDateNotCounted(f: UiFilters)
    ensures ActiveFiltersCount(f.(hasDueDate := Some(false))) == ActiveFiltersCount(f.(hasDueDate := None))
    ensures ActiveFiltersCount(f.(hasDueDate := Some(true))) == ActiveFiltersCount(f.(hasDueDate := None)) + 1
  {
  }

  /** The clear button shows exactly when some key is truthy. */
  lemma ClearButtonShown(f: UiFilters)
    ensures ShowClearButton(f) <==> exists k :: Truthy(f, k)
  {
  }
}
