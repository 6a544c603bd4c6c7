/** Server-side input sanitising (src/lib/sanitize.ts): HTML-significant characters are
    replaced by entities, and `sanitizeObject` applies that to every string field of a
    shallow copy of a record. */
module Sanitize {
  import opened Wrappers
  import opened Text
  import opened Types

  /** The four characters the server branch escapes. `&` is not among them. */
  predicate IsEscaped(c: char) {
    c == '<' || c == '>' || c == '"' || c == '\''
  }

  predicate IsSafe(s: string) {
    forall i :: 0 <= i < |s| ==> !IsEscaped(s[i])
  }

  /** The entity each escaped character becomes; any other character stands for itself. */
  function Entity(c: char): (r: string)
    ensures IsSafe(r) && |r| >= 1
    ensures !IsEscaped(c) ==> r == [c]
  {
    if c == '<' then "&lt;"
    else if c == '>' then "&gt;"
    else if c == '"' then "&quot;"
    else if c == '\'' then "&#x27;"
    else [c]
  }

  /** Reference definition: each character replaced by its entity, left to right. */
  function EscapeEach(s: string): (r: string)
    ensures IsSafe(r)
    ensures |r| >= |s|
    decreases |s|
  {
    if s == [] then [] else Entity(s[0]) + EscapeEach(s[1..])
  }

  /** `sanitizeInput` on the server (no `window`): four global replaces, in source order. */
  function SanitizeInput(s: string): (r: string)
    ensures |r| >= |s|
  {
    var r1 := ReplaceAllChar(s, '<', "&lt;");
    var r2 := ReplaceAllChar(r1, '>', "&gt;");
    var r3 := ReplaceAllChar(r2, '"', "&quot;");
    ReplaceAllChar(r3, '\'', "&#x27;")
  }

  /** Text without any of the four characters passes through unchanged. */
  lemma SanitizeSafeUnchanged(s: string)
    requires IsSafe(s)
    ensures SanitizeInput(s) == s
  {
    assert '<' !in s && '>' !in s && '"' !in s && '\'' !in s;
    ReplaceAllCharAbsent(s, '<', "&lt;");
    ReplaceAllCharAbsent(s, '>', "&gt;");
    ReplaceAllCharAbsent(s, '"', "&quot;");
    ReplaceAllCharAbsent(s, '\'', "&#x27;");
  }

  /** The replace chain acts piecewise: sanitising a concatenation sanitises each part. */
  lemma SanitizeConcat(a: string, b: string)
    ensures SanitizeInput(a + b) == SanitizeInput(a) + SanitizeInput(b)
  {
    var a1, b1 := ReplaceAllChar(a, '<', "&lt;"), ReplaceAllChar(b, '<', "&lt;");
    ReplaceAllCharConcat(a, b, '<', "&lt;");
    var a2, b2 := ReplaceAllChar(a1, '>', "&gt;"), ReplaceAllChar(b1, '>', "&gt;");
    ReplaceAllCharConcat(a1, b1, '>', "&gt;");
    var a3, b3 := ReplaceAllChar(a2, '"', "&quot;"), ReplaceAllChar(b2, '"', "&quot;");
    ReplaceAllCharConcat(a2, b2, '"', "&quot;");
    ReplaceAllCharConcat(a3, b3, '\'', "&#x27;");
  }

  /** On one character the chain produces exactly that character's entity: no later
      replace touches an entity produced by an earlier one. */
  lemma SanitizeChar(c: char)
    ensures SanitizeInput([c]) == Entity(c)
  {
    if c == '<' {
      SanitizeLt();
    } else if c == '>' {
      SanitizeGt();
    } else if c == '"' {
      SanitizeQuot();
    } else if c == '\'' {
      SanitizeApos();
    } else {
      SanitizeSafeUnchanged([c]);
    }
  }

  lemma SanitizeLt()
    ensures SanitizeInput("<") == "&lt;"
  {
    ReplaceAllCharSingle('<', '<', "&lt;");
    NotInFour('&', 'l', 't', ';', '>');
    ReplaceAllCharAbsent("&lt;", '>', "&gt;");
    NotInFour('&', 'l', 't', ';', '"');
    ReplaceAllCharAbsent("&lt;", '"', "&quot;");
    NotInFour('&', 'l', 't', ';', '\'');
    ReplaceAllCharAbsent("&lt;", '\'', "&#x27;");
  }

  lemma SanitizeGt()
    ensures SanitizeInput(">") == "&gt;"
  {
    ReplaceAllCharAbsent(">", '<', "&lt;");
    ReplaceAllCharSingle('>', '>', "&gt;");
    NotInFour('&', 'g', 't', ';', '"');
    ReplaceAllCharAbsent("&gt;", '"', "&quot;");
    NotInFour('&', 'g', 't', ';', '\'');
    ReplaceAllCharAbsent("&gt;", '\'', "&#x27;");
  }

  lemma SanitizeQuot()
    ensures SanitizeInput("\"") == "&quot;"
  {
    ReplaceAllCharAbsent("\"", '<', "&lt;");
    ReplaceAllCharAbsent("\"", '>', "&gt;");
    ReplaceAllCharSingle('"', '"', "&quot;");
    NotInSix('&', 'q', 'u', 'o', 't', ';', '\'');
    ReplaceAllCharAbsent("&quot;", '\'', "&#x27;");
  }

  lemma SanitizeApos()
    ensures SanitizeInput("'") == "&#x27;"
  {
    ReplaceAllCharAbsent("'", '<', "&lt;");
    ReplaceAllCharAbsent("'", '>', "&gt;");
    ReplaceAllCharAbsent("'", '"', "&quot;");
    ReplaceAllCharSingle('\'', '\'', "&#x27;");
  }

  /** Membership in a short literal, stated over variables so that no literal is unfolded. */
  lemma NotInFour(a: char, b: char, c: char, d: char, x: char)
    requires x != a && x != b && x != c && x != d
    ensures x !in [a, b, c, d]
  {
  }

  lemma NotInSix(a: char, b: char, c: char, d: char, e: char, f: char, x: char)
    requires x != a && x != b && x != c && x != d && x != e && x != f
    ensures x !in [a, b, c, d, e, f]
  {
  }

  /** Trimming safe text leaves it safe: the result is a slice of it. */
  lemma TrimKeepsSafe(s: string)
    requires IsSafe(s)
    ensures IsSafe(Trim(s))
  {
    TrimInfix(s);
  }

  /** The replace chain equals character-wise escaping. */
  lemma {:induction false} SanitizeIsEscapeEach(s: string)
    ensures SanitizeInput(s) == EscapeEach(s)
    decreases |s|
  {
    if s == [] {
      SanitizeSafeUnchanged(s);
    } else {
      assert s == [s[0]] + s[1..];
      SanitizeConcat([s[0]], s[1..]);
      SanitizeChar(s[0]);
      SanitizeIsEscapeEach(s[1..]);
    }
  }

  /** The output never contains `<`, `>`, `"` or `'`. */
  lemma SanitizeIsSafe(s: string)
    ensures IsSafe(SanitizeInput(s))
  {
    SanitizeIsEscapeEach(s);
  }

  /** Sanitising twice is sanitising once. */
  lemma SanitizeIdempotent(s: string)
    ensures SanitizeInput(SanitizeInput(s)) == SanitizeInput(s)
  {
    SanitizeIsSafe(s);
    SanitizeSafeUnchanged(SanitizeInput(s));
  }

  /** `&` is kept, so the escaping is not injective: `<` and the text `&lt;` collide, and
      no decoding can recover the input. */
  lemma SanitizeCollides()
    ensures "<" != "&lt;" && SanitizeInput("<") == SanitizeInput("&lt;")
  {
    SanitizeChar('<');
    SanitizeSafeUnchanged("&lt;");
  }

  /** A JavaScript value as a record field holds it. */
  datatype JsValue = Str(s: string) | Null | Bool(b: bool) | Num(n: int)

  function SanitizeValue(v: JsValue): JsValue {
    if v.Str? then Str(SanitizeInput(v.s)) else v
  }

  /** Reference definition of `sanitizeObject`'s result, for an object given as the map
      from its own enumerable property names to their values. */
  function SanitizedObject<K>(obj: map<K, JsValue>): map<K, JsValue> {
    map k | k in obj :: SanitizeValue(obj[k])
  }

  /** `sanitizeObject`: a copy of `obj` in which every string-valued own field is
      sanitised and every other field is kept as it is. The argument, a value here,
      cannot be changed by the call. */
  method SanitizeObject<K>(obj: map<K, JsValue>) returns (sanitized: map<K, JsValue>)
    ensures sanitized.Keys == obj.Keys
    ensures forall k :: k in obj && obj[k].Str? ==> sanitized[k] == Str(SanitizeInput(obj[k].s))
    ensures forall k :: k in obj && !obj[k].Str? ==> sanitized[k] == obj[k]
    ensures sanitized == SanitizedObject(obj)
  {
    sanitized := obj;
    var pending := obj.Keys;
    while pending != {}
      invariant pending <= obj.Keys
      invariant sanitized.Keys == obj.Keys
      invariant forall k :: k in obj && k !in pending ==> sanitized[k] == SanitizeValue(obj[k])
      invariant forall k :: k in pending ==> sanitized[k] == obj[k]
      decreases pending
    {
      var key :| key in pending;
      if sanitized[key].Str? {
        sanitized := sanitized[key := Str(SanitizeInput(sanitized[key].s))];
      }
      pending := pending - {key};
    }
  }

  function SanitizeOption(o: Option<string>): Option<string> {
    if o.Some? then Some(SanitizeInput(o.value)) else None
  }

  /** `sanitizeObject` applied to a task, field by field: the string fields are
      sanitised; enum fields and `null`s are left alone. */
  function SanitizeTask(t: Task): Task {
    t.(id := SanitizeInput(t.id), title := SanitizeInput(t.title),
       description := SanitizeInput(t.description), notes := SanitizeInput(t.notes),
       dueDate := SanitizeOption(t.dueDate), createdAt := SanitizeInput(t.createdAt),
       updatedAt := SanitizeInput(t.updatedAt), completedAt := SanitizeOption(t.completedAt))
  }

  function SanitizeDraft(d: TaskDraft): TaskDraft {
    d.(title := SanitizeInput(d.title), description := SanitizeInput(d.description),
       notes := SanitizeInput(d.notes), dueDate := SanitizeOption(d.dueDate))
  }

  function OptionValue(o: Option<string>): JsValue {
    if o.Some? then Str(o.value) else Null
  }

  function AssigneeValue(a: Option<Assignee>): JsValue {
    if a.Some? then Str(AssigneeId(a.value)) else Null
  }

  /** The property names of a task object. */
  datatype TaskField =
    | IdField | TitleField | DescriptionField | StatusField | PriorityField | CategoryField
    | AssigneeField | NotesField | DueDateField | CreatedAtField | UpdatedAtField | CompletedAtField

  /** The fields a task draft has: all but the id and the timestamps. */
  predicate InDraft(f: TaskField) {
    !(f.IdField? || f.CreatedAtField? || f.UpdatedAtField? || f.CompletedAtField?)
  }

  function TaskFieldValue(t: Task, f: TaskField): JsValue {
    match f
    case IdField => Str(t.id)
    case TitleField => Str(t.title)
    case DescriptionField => Str(t.description)
    case StatusField => Str(StatusId(t.status))
    case PriorityField => Str(PriorityId(t.priority))
    case CategoryField => Str(CategoryId(t.category))
    case AssigneeField => AssigneeValue(t.assignee)
    case NotesField => Str(t.notes)
    case DueDateField => OptionValue(t.dueDate)
    case CreatedAtField => Str(t.createdAt)
    case UpdatedAtField => Str(t.updatedAt)
    case CompletedAtField => OptionValue(t.completedAt)
  }

  function DraftFieldValue(d: TaskDraft, f: TaskField): JsValue
    requires InDraft(f)
  {
    match f
    case TitleField => Str(d.title)
    case DescriptionField => Str(d.description)
    case StatusField => Str(StatusId(d.status))
    case PriorityField => Str(PriorityId(d.priority))
    case CategoryField => Str(CategoryId(d.category))
    case AssigneeField => AssigneeValue(d.assignee)
    case NotesField => Str(d.notes)
    case DueDateField => OptionValue(d.dueDate)
  }

  const AllTaskFields: set<TaskField> := {
    IdField, TitleField, DescriptionField, StatusField, PriorityField, CategoryField,
    AssigneeField, NotesField, DueDateField, CreatedAtField, UpdatedAtField, CompletedAtField}

  const DraftFields: set<TaskField> := {
    TitleField, DescriptionField, StatusField, PriorityField, CategoryField,
    AssigneeField, NotesField, DueDateField}

  /** The JavaScript object a task is. */
  function TaskObject(t: Task): map<TaskField, JsValue> {
    map f | f in AllTaskFields :: TaskFieldValue(t, f)
  }

  /** The JavaScript object a task draft is. */
  function DraftObject(d: TaskDraft): map<TaskField, JsValue> {
    map f | f in DraftFields :: DraftFieldValue(d, f)
  }

  /** Sanitising leaves each enum spelling as it is: none contains an escaped
      character. */
  lemma StatusIdUnchanged(s: Status)
    ensures SanitizeInput(StatusId(s)) == StatusId(s)
  {
    SanitizeSafeUnchanged(StatusId(s));
  }

  lemma PriorityIdUnchanged(p: Priority)
    ensures SanitizeInput(PriorityId(p)) == PriorityId(p)
  {
    SanitizeSafeUnchanged(PriorityId(p));
  }

  lemma CategoryIdUnchanged(c: Category)
    ensures SanitizeInput(CategoryId(c)) == CategoryId(c)
  {
    SanitizeSafeUnchanged(CategoryId(c));
  }

  lemma AssigneeIdUnchanged(a: Assignee)
    ensures SanitizeInput(AssigneeId(a)) == AssigneeId(a)
  {
    SanitizeSafeUnchanged(AssigneeId(a));
  }

  /** Sanitising leaves the enum spellings as they are. */
  lemma EnumIdsUnchanged(s: Status, p: Priority, c: Category, a: Assignee)
    ensures SanitizeInput(StatusId(s)) == StatusId(s) && SanitizeInput(PriorityId(p)) == PriorityId(p)
    ensures SanitizeInput(CategoryId(c)) == CategoryId(c) && SanitizeInput(AssigneeId(a)) == AssigneeId(a)
  {
    StatusIdUnchanged(s);
    PriorityIdUnchanged(p);
    CategoryIdUnchanged(c);
    AssigneeIdUnchanged(a);
  }

  /** Field by field: sanitising a task field's value gives that field of
      `SanitizeTask`. */
  lemma TaskFieldSanitized(t: Task, f: TaskField)
    ensures SanitizeValue(TaskFieldValue(t, f)) == TaskFieldValue(SanitizeTask(t), f)
  {
    match f
    case StatusField => StatusIdUnchanged(t.status);
    case PriorityField => PriorityIdUnchanged(t.priority);
    case CategoryField => CategoryIdUnchanged(t.category);
    case AssigneeField =>
      if t.assignee.Some? { AssigneeIdUnchanged(t.assignee.value); }
    case _ =>
  }

  lemma DraftFieldSanitized(d: TaskDraft, f: TaskField)
    requires InDraft(f)
    ensures SanitizeValue(DraftFieldValue(d, f)) == DraftFieldValue(SanitizeDraft(d), f)
  {
    match f
    case StatusField => StatusIdUnchanged(d.status);
    case PriorityField => PriorityIdUnchanged(d.priority);
    case CategoryField => CategoryIdUnchanged(d.category);
    case AssigneeField =>
      if d.assignee.Some? { AssigneeIdUnchanged(d.assignee.value); }
    case _ =>
  }

  /** Sanitising the object of a task yields the object of `SanitizeTask`: enum fields
      and null fields come through unchanged. */
  lemma SanitizeTaskObject(t: Task)
    ensures SanitizedObject(TaskObject(t)) == TaskObject(SanitizeTask(t))
  {
    var o, s := TaskObject(t), TaskObject(SanitizeTask(t));
    forall f | f in s ensures SanitizedObject(o)[f] == s[f] {
      TaskFieldSanitized(t, f);
    }
  }

  lemma SanitizeDraftObject(d: TaskDraft)
    ensures SanitizedObject(DraftObject(d)) == DraftObject(SanitizeDraft(d))
  {
    var o, s := DraftObject(d), DraftObject(SanitizeDraft(d));
    forall f | f in s ensures SanitizedObject(o)[f] == s[f] {
      DraftFieldSanitized(d, f);
    }
  }
}
