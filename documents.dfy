/** The document loader (src/lib/documents.ts): categories are the directories under the
    documents root, every ".md" file in one is a document, and each document's slug,
    title and excerpt are derived from its file name and text. The filesystem is a value:
    the root's listing, each category's listing, and per file its text and timestamps. */
module Documents {
  import opened Wrappers
  import opened Text
  import opened Seqs
  import opened Types

  /** What `readFileSync` and `statSync` give for one file; times are `getTime()` values. */
  datatype FileStat = FileStat(content: string, createdAt: int, updatedAt: int)

  /** One entry of a category directory. */
  datatype DocFile = DocFile(name: string, stat: FileStat)

  /** An entry of the documents root: a plain file, or a category directory with its
      listing (in `readdirSync` order). */
  datatype Node = File(stat: FileStat) | Dir(files: seq<DocFile>)

  datatype Entry = Entry(name: string, node: Node)

  /** The documents root, which may not exist. */
  datatype Root = Missing | Present(entries: seq<Entry>)

  datatype DocumentMeta = DocumentMeta(
    slug: string,
    title: string,
    category: string,
    createdAt: int,
    updatedAt: int,
    excerpt: string)

  datatype Document = Document(
    slug: string,
    title: string,
    category: string,
    content: string,
    createdAt: int,
    updatedAt: int,
    excerpt: string)

  const MdSuffix: string := ".md"
  const ExcerptLength: nat := 150

  /** What a filesystem guarantees: names are non-empty, unique within a directory and
      free of the path separator. */
  predicate WellFormed(root: Root) {
    root.Present? ==>
      && (forall i :: 0 <= i < |root.entries| ==> root.entries[i].name != [] && '/' !in root.entries[i].name)
      && (forall i, j :: 0 <= i < j < |root.entries| ==> root.entries[i].name != root.entries[j].name)
      && (forall i :: 0 <= i < |root.entries| ==> DirWellFormed(root.entries[i].node))
  }

  predicate DirWellFormed(n: Node) {
    n.Dir? ==>
      && (forall i :: 0 <= i < |n.files| ==> '/' !in n.files[i].name)
      && (forall i, j :: 0 <= i < j < |n.files| ==> n.files[i].name != n.files[j].name)
  }

  // ---------------------------------------------------------------- listings

  function CategoryNames(entries: seq<Entry>): (r: seq<string>)
    ensures forall c :: c in r <==> exists k :: 0 <= k < |entries| && entries[k].name == c && entries[k].node.Dir?
    decreases |entries|
  {
    if entries == [] then []
    else
      var init, last := entries[..|entries| - 1], entries[|entries| - 1];
      assert forall k :: 0 <= k < |init| ==> init[k] == entries[k];
      CategoryNames(init) + (if last.node.Dir? then [last.name] else [])
  }

  /** `getCategories`: the directory entries of the root, in listing order; none when the
      root is missing. */
  function GetCategories(root: Root): (r: seq<string>)
    ensures root.Missing? ==> r == []
    ensures root.Present? ==> forall c :: c in r <==>
      exists k :: 0 <= k < |root.entries| && root.entries[k].name == c && root.entries[k].node.Dir?
  {
    if root.Missing? then [] else CategoryNames(root.entries)
  }

  /** The node under a name in a listing: the first entry with that name. */
  function FindEntry(entries: seq<Entry>, name: string): (r: Option<Node>)
    ensures r.Some? ==> exists k :: 0 <= k < |entries| && entries[k].name == name && entries[k].node == r.value
    ensures r.None? ==> forall k :: 0 <= k < |entries| ==> entries[k].name != name
    decreases |entries|
  {
    if entries == [] then None
    else if entries[0].name == name then Some(entries[0].node)
    else FindEntry(entries[1..], name)
  }

  function FindFile(files: seq<DocFile>, name: string): (r: Option<FileStat>)
    ensures r.Some? ==> exists k :: 0 <= k < |files| && files[k].name == name && files[k].stat == r.value
    ensures r.None? ==> forall k :: 0 <= k < |files| ==> files[k].name != name
    decreases |files|
  {
    if files == [] then None
    else if files[0].name == name then Some(files[0].stat)
    else FindFile(files[1..], name)
  }

  /** With unique names, the entry found under a listed name is that entry. */
  lemma {:induction false} FindEntryUnique(entries: seq<Entry>, k: nat)
    requires k < |entries|
    requires forall i, j :: 0 <= i < j < |entries| ==> entries[i].name != entries[j].name
    ensures FindEntry(entries, entries[k].name) == Some(entries[k].node)
    decreases k
  {
    if k > 0 {
      assert entries[0].name != entries[k].name;
      FindEntryUnique(entries[1..], k - 1);
    }
  }

  lemma {:induction false} FindFileUnique(files: seq<DocFile>, k: nat)
    requires k < |files|
    requires forall i, j :: 0 <= i < j < |files| ==> files[i].name != files[j].name
    ensures FindFile(files, files[k].name) == Some(files[k].stat)
    decreases k
  {
    if k > 0 {
      assert files[0].name != files[k].name;
      FindFileUnique(files[1..], k - 1);
    }
  }

  /** `readdirSync` of a category; only called with names `getCategories` returned. */
  function ListDir(root: Root, category: string): seq<DocFile> {
    if root.Missing? then []
    else match FindEntry(root.entries, category)
      case Some(Dir(files)) => files
      case _ => []
  }

  predicate IsMarkdown(f: DocFile) {
    EndsWith(f.name, MdSuffix)
  }

  /** The category's ".md" files, in listing order. */
  function MdFiles(root: Root, category: string): (r: seq<DocFile>)
    ensures |r| <= |ListDir(root, category)|
  {
    Filter(ListDir(root, category), IsMarkdown)
  }

  /** Exactly the ".md" files of the category are selected. */
  lemma MdFilesExact(root: Root, category: string, f: DocFile)
    ensures f in MdFiles(root, category) <==> f in ListDir(root, category) && IsMarkdown(f)
  {
    FilterMembership(ListDir(root, category), IsMarkdown, f);
  }

  // ---------------------------------------------------------------- derivations

  /** `file.replace(".md", "")`: the first ".md" is removed, wherever it is. */
  function Stem(file: string): string {
    ReplaceFirst(file, MdSuffix, "")
  }

  /** The listing's slug: the category, a slash, and the stem. */
  function Slug(category: string, file: string): string {
    category + "/" + Stem(file)
  }

  /** `name.replace(/-/g, " ")`: the title used when the text has no heading. */
  function NameTitle(name: string): string {
    ReplaceAllChar(name, '-', " ")
  }

  /** The name title has the name's length and no dash left. */
  lemma NameTitleShape(name: string)
    ensures |NameTitle(name)| == |name| && '-' !in NameTitle(name)
  {
    ReplaceAllCharRemoves(name, '-', " ");
    ReplaceAllCharLength(name, '-', " ");
  }

  /** The index of the first line terminator at or after `j`, or the length. */
  function LineEnd(s: string, j: nat): (e: nat)
    requires j <= |s|
    ensures j <= e <= |s| && (e == |s| || IsLineTerminator(s[e]))
    ensures forall k :: j <= k < e ==> !IsLineTerminator(s[k])
    decreases |s| - j
  {
    if j == |s| || IsLineTerminator(s[j]) then j else LineEnd(s, j + 1)
  }

  /** Where `^` matches in multiline mode: the start, or just after a line terminator. */
  predicate LineStartAt(s: string, p: nat) {
    p == 0 || (p <= |s| && IsLineTerminator(s[p - 1]))
  }

  /** Where `(.+)` can start once `\s+` has given back characters: the greatest index in
      `[lo, j]` holding a character `.` matches. */
  function CaptureStart(s: string, lo: nat, j: int): (r: Option<nat>)
    ensures r.Some? ==> lo <= r.value <= j && r.value < |s| && !IsLineTerminator(s[r.value])
    ensures r.Some? ==> forall k :: r.value < k <= j ==> k >= |s| || IsLineTerminator(s[k])
    ensures r.None? ==> forall k :: lo <= k <= j ==> k >= |s| || IsLineTerminator(s[k])
    decreases j - lo + 1
  {
    if j < lo then None
    else if j < |s| && !IsLineTerminator(s[j]) then Some(j)
    else CaptureStart(s, lo, j - 1)
  }

  /** `/^#\s+(.+)$/m` tried at index `p`: `#` at a line start, a maximal run of
      whitespace (which may cross lines), then the rest of a line. When the run reaches
      the end of the text, `\s+` gives characters back until `.+` can match one. */
  function HeadingAt(s: string, p: nat): (r: Option<string>)
    requires p <= |s|
    ensures r.Some? ==> |r.value| > 0 && forall k :: 0 <= k < |r.value| ==> !IsLineTerminator(r.value[k])
  {
    if p < |s| && s[p] == '#' && LineStartAt(s, p) then
      var w := SpaceEnd(s, p + 1) - (p + 1);
      if w == 0 then None
      else match CaptureStart(s, p + 2, p + 1 + w)
        case None => None
        case Some(j) => Some(s[j..LineEnd(s, j)])
    else None
  }

  /** The first index at or after `p` where the heading pattern matches. */
  function FirstHeading(s: string, p: nat): (r: Option<string>)
    requires p <= |s|
    ensures r.Some? ==> |r.value| > 0 && forall k :: 0 <= k < |r.value| ==> !IsLineTerminator(r.value[k])
    decreases |s| - p
  {
    match HeadingAt(s, p)
    case Some(t) => Some(t)
    case None => if p == |s| then None else FirstHeading(s, p + 1)
  }

  /** `content.match(/^#\s+(.+)$/m)?.[1]`. */
  function HeadingText(content: string): Option<string> {
    FirstHeading(content, 0)
  }

  /** The title: the first heading's text, else the name with dashes as spaces. */
  function Title(content: string, name: string): string {
    match HeadingText(content)
    case Some(t) => t
    case None => NameTitle(name)
  }

  /** `content.replace(/^#.+\n/, "")`: without the `m` flag only a first line that starts
      with `#`, has at least one more character and ends in `\n` is removed. */
  function StripFirstHeading(content: string): (r: string)
    ensures |r| <= |content|
  {
    if |content| >= 1 && content[0] == '#' then
      var e := LineEnd(content, 1);
      if 1 < e < |content| && content[e] == '\n' then content[e + 1..] else content
    else content
  }

  /** The first paragraph of the trimmed, heading-stripped text, cut to 150 characters. */
  function Excerpt(content: string): (r: string)
    ensures |r| <= ExcerptLength
  {
    Take(BeforeFirst(Trim(StripFirstHeading(content)), "\n\n"), ExcerptLength)
  }

  /** The excerpt never runs past the first blank line. */
  lemma ExcerptOneParagraph(content: string)
    ensures !Contains(Excerpt(content), "\n\n")
  {
    var body := BeforeFirst(Trim(StripFirstHeading(content)), "\n\n");
    BeforeFirstLacks(Trim(StripFirstHeading(content)), "\n\n");
    ContainsPrefix(Take(body, ExcerptLength), body, "\n\n");
  }

  /** The listing entry for one ".md" file of a category. */
  function MetaOf(category: string, f: DocFile): DocumentMeta {
    DocumentMeta(Slug(category, f.name), Title(f.stat.content, Stem(f.name)), category,
                 f.stat.createdAt, f.stat.updatedAt, Excerpt(f.stat.content))
  }

  // ---------------------------------------------------------------- listing all

  /** The entries the inner loop pushes for a category's files, in order. */
  function Metas(category: string, files: seq<DocFile>): (r: seq<DocumentMeta>)
    ensures |r| == |files|
    ensures forall k :: 0 <= k < |r| ==> r[k].category == category
    decreases |files|
  {
    if files == [] then []
    else Metas(category, files[..|files| - 1]) + [MetaOf(category, files[|files| - 1])]
  }

  /** The entries both loops push for the given categories, in order. */
  function Collect(root: Root, categories: seq<string>): seq<DocumentMeta>
    decreases |categories|
  {
    if categories == [] then []
    else
      var last := categories[|categories| - 1];
      Collect(root, categories[..|categories| - 1]) + Metas(last, MdFiles(root, last))
  }

  lemma MetasStep(category: string, files: seq<DocFile>, j: nat)
    requires j < |files|
    ensures Metas(category, files[..j + 1]) == Metas(category, files[..j]) + [MetaOf(category, files[j])]
  {
    assert files[..j + 1][..j] == files[..j];
  }

  lemma CollectStep(root: Root, categories: seq<string>, i: nat)
    requires i < |categories|
    ensures Collect(root, categories[..i + 1])
         == Collect(root, categories[..i]) + Metas(categories[i], MdFiles(root, categories[i]))
  {
    assert categories[..i + 1][..i] == categories[..i];
    var files := MdFiles(root, categories[i]);
    assert files[..|files|] == files;
  }

  /** Every entry collected before sorting. */
  function Collected(root: Root): seq<DocumentMeta> {
    Collect(root, GetCategories(root))
  }

  /** Newest first: no entry is followed by a more recently updated one. */
  predicate NewestFirst(ds: seq<DocumentMeta>) {
    forall i, j :: 0 <= i < j < |ds| ==> ds[i].updatedAt >= ds[j].updatedAt
  }

  /** Puts `d` before the first entry that is not newer than it. */
  function Insert(d: DocumentMeta, ds: seq<DocumentMeta>): (r: seq<DocumentMeta>)
    ensures |r| == |ds| + 1
    decreases |ds|
  {
    if ds == [] || ds[0].updatedAt <= d.updatedAt then [d] + ds
    else [ds[0]] + Insert(d, ds[1..])
  }

  /** `Array.prototype.sort` with comparator `b.updatedAt - a.updatedAt`, which is stable:
      an insertion sort that keeps equally recent entries in input order. */
  function SortNewestFirst(ds: seq<DocumentMeta>): (r: seq<DocumentMeta>)
    ensures |r| == |ds|
    decreases |ds|
  {
    if ds == [] then [] else Insert(ds[0], SortNewestFirst(ds[1..]))
  }

  /** The sorted list is newest first and holds exactly the input's entries. */
  lemma {:induction false} SortNewestFirstSorts(ds: seq<DocumentMeta>)
    ensures NewestFirst(SortNewestFirst(ds)) && multiset(SortNewestFirst(ds)) == multiset(ds)
    decreases |ds|
  {
    if ds != [] {
      SortNewestFirstSorts(ds[1..]);
      InsertSorted(ds[0], SortNewestFirst(ds[1..]));
      assert ds == [ds[0]] + ds[1..];
    }
  }

  /** Where `Insert` puts the entry: after every newer entry, before the rest. */
  lemma {:induction false} InsertAt(d: DocumentMeta, ds: seq<DocumentMeta>) returns (i: nat)
    ensures i <= |ds| && Insert(d, ds) == ds[..i] + [d] + ds[i..]
    ensures forall k :: 0 <= k < i ==> ds[k].updatedAt > d.updatedAt
    ensures i == |ds| || ds[i].updatedAt <= d.updatedAt
    decreases |ds|
  {
    if ds == [] || ds[0].updatedAt <= d.updatedAt {
      i := 0;
    } else {
      var j := InsertAt(d, ds[1..]);
      i := j + 1;
      assert ds[..i] == [ds[0]] + ds[1..][..j];
      assert ds[i..] == ds[1..][j..];
    }
  }

  /** Putting `d` after every newer entry and before the rest of a newest-first list keeps
      it newest first. */
  lemma InsertedInPlace(d: DocumentMeta, ds: seq<DocumentMeta>, i: nat, r: seq<DocumentMeta>)
    requires NewestFirst(ds) && i <= |ds| && r == ds[..i] + [d] + ds[i..]
    requires forall k :: 0 <= k < i ==> ds[k].updatedAt > d.updatedAt
    requires i == |ds| || ds[i].updatedAt <= d.updatedAt
    ensures NewestFirst(r)
  {
    assert forall k :: 0 <= k < i ==> r[k] == ds[k];
    assert forall k :: i < k < |r| ==> r[k] == ds[k - 1];
    forall a, b | 0 <= a < b < |r| ensures r[a].updatedAt >= r[b].updatedAt {
      if b == i {
      } else if a == i {
        assert i < b - 1 ==> ds[i].updatedAt >= ds[b - 1].updatedAt;
      } else if a < i {
        assert b < i ==> ds[a].updatedAt >= ds[b].updatedAt;
        assert i < b ==> ds[a].updatedAt >= ds[b - 1].updatedAt || a == b - 1;
      } else {
        assert ds[a - 1].updatedAt >= ds[b - 1].updatedAt;
      }
    }
  }

  /** Inserting into a newest-first list keeps it newest first and adds exactly `d`. */
  lemma InsertSorted(d: DocumentMeta, ds: seq<DocumentMeta>)
    requires NewestFirst(ds)
    ensures NewestFirst(Insert(d, ds)) && multiset(Insert(d, ds)) == multiset(ds) + multiset{d}
  {
    var i := InsertAt(d, ds);
    InsertedInPlace(d, ds, i, Insert(d, ds));
    InsertAdds(d, ds);
  }

  lemma {:induction false} InsertAdds(d: DocumentMeta, ds: seq<DocumentMeta>)
    ensures multiset(Insert(d, ds)) == multiset(ds) + multiset{d}
    decreases |ds|
  {
    if ds != [] && ds[0].updatedAt > d.updatedAt {
      InsertAdds(d, ds[1..]);
      assert ds == [ds[0]] + ds[1..];
    }
  }

  /** `getAllDocuments`: the outer loop walks the categories, the inner one pushes an
      entry per ".md" file, and the list is then sorted newest first. */
  method GetAllDocuments(root: Root) returns (docs: seq<DocumentMeta>)
    ensures docs == SortNewestFirst(Collected(root))
    ensures NewestFirst(docs) && multiset(docs) == multiset(Collected(root))
  {
    var categories := GetCategories(root);
    var documents: seq<DocumentMeta> := [];
    for i := 0 to |categories|
      invariant documents == Collect(root, categories[..i])
    {
      var category := categories[i];
      documents := PushMetas(documents, category, MdFiles(root, category));
      CollectStep(root, categories, i);
    }
    assert categories[..|categories|] == categories;
    docs := SortNewestFirst(documents);
    SortNewestFirstSorts(documents);
  }

  /** The inner loop of `getAllDocuments`: one entry pushed per file, in order. */
  method PushMetas(documents: seq<DocumentMeta>, category: string, files: seq<DocFile>)
    returns (r: seq<DocumentMeta>)
    ensures r == documents + Metas(category, files)
  {
    r := documents;
    for j := 0 to |files|
      invariant r == documents + Metas(category, files[..j])
    {
      MetasStep(category, files, j);
      AppendAssoc(documents, Metas(category, files[..j]), [MetaOf(category, files[j])]);
      r := r + [MetaOf(category, files[j])];
    }
    assert files[..|files|] == files;
  }

  // ---------------------------------------------------------------- one document

  /** The category part of a slug: the text before its first "/". */
  function SlugCategory(slug: string): string {
    Split(slug, '/')[0]
  }

  /** The file `getDocument` opens: the name part of the slug with ".md" appended, where a
      slug without "/" has the name `undefined`, which the template literal spells out. */
  function SlugFile(slug: string): string {
    var parts := Split(slug, '/');
    (if |parts| >= 2 then parts[1] else "undefined") + MdSuffix
  }

  /** What V8 throws for `name.replace(...)` while `name` is `undefined`. */
  const UndefinedReplace: string := "Cannot read properties of undefined (reading 'replace')"

  /** `getDocument`: `slug.split("/")` gives the category and the name (`undefined` when
      there is no slash), and the file is `<category>/<name>.md`. A missing file gives
      `null`. When the name is `undefined` and the text has no heading, the title fallback
      calls `replace` on `undefined` and throws a TypeError. */
  function GetDocument(root: Root, slug: string): (r: Result<Option<Document>, Thrown>)
    ensures var stat := ListedFile(root, SlugCategory(slug), SlugFile(slug));
      && (r == Success(None) <==> stat.None?)
      && (r.Failure? <==> stat.Some? && '/' !in slug && HeadingText(stat.value.content).None?)
      && (r.Failure? ==> r.error == ErrorThrown(UndefinedReplace))
      && (r.Success? && r.value.Some? ==>
            var d := r.value.value;
            && d.slug == slug && d.category == SlugCategory(slug)
            && d.content == stat.value.content && |d.excerpt| <= ExcerptLength)
  {
    var parts := Split(slug, '/');
    var category := parts[0];
    var name := if |parts| >= 2 then parts[1] else "undefined";
    match ListedFile(root, category, name + MdSuffix)
    case None => Success(None)
    case Some(stat) =>
      if |parts| < 2 && HeadingText(stat.content).None? then Failure(ErrorThrown(UndefinedReplace))
      else
        Success(Some(Document(slug, Title(stat.content, name), category, stat.content,
                              stat.createdAt, stat.updatedAt, Excerpt(stat.content))))
  }

  /** `existsSync` and the reads of `<category>/<file>`. */
  function ListedFile(root: Root, category: string, file: string): Option<FileStat> {
    if root.Missing? then None
    else match FindEntry(root.entries, category)
      case Some(Dir(files)) => FindFile(files, file)
      case _ => None
  }

  // ---------------------------------------------------------------- properties

  /** A heading line `#`, whitespace, then text up to the end of its line gives the text
      as title. The whitespace may include line breaks, so `#` alone on a line takes the
      next line as its title. */
  lemma HeadingFound(s: string, w: string, t: string, rest: string)
    requires s == ['#'] + w + t + rest
    requires |w| >= 1 && IsBlank(w)
    requires |t| >= 1 && !IsJsWhitespace(t[0])
    requires forall k :: 0 <= k < |t| ==> !IsLineTerminator(t[k])
    requires rest == [] || IsLineTerminator(rest[0])
    ensures HeadingText(s) == Some(t)
  {
    var q := 1 + |w|;
    assert forall k :: 1 <= k < q ==> s[k] == w[k - 1];
    assert forall k :: 0 <= k < |t| ==> s[q + k] == t[k];
    assert s[q] == t[0];
    assert SpaceEnd(s, 1) == q;
    assert CaptureStart(s, 2, q) == Some(q);
    assert q + |t| == |s| || s[q + |t|] == rest[0];
    assert LineEnd(s, q) == q + |t|;
    assert s[q..q + |t|] == t;
  }

  /** When the whitespace after `#` runs to the end of the text, `\s+` gives back its
      last character and the title is that one character. */
  lemma HeadingBacktracks(s: string, w: string)
    requires s == ['#'] + w && |w| >= 2 && IsBlank(w) && !IsLineTerminator(w[|w| - 1])
    ensures HeadingText(s) == Some([w[|w| - 1]])
  {
    assert forall k :: 1 <= k < |s| ==> s[k] == w[k - 1];
    assert SpaceEnd(s, 1) == |s|;
    assert CaptureStart(s, 2, |s| - 1) == Some(|w|);
    assert LineEnd(s, |w|) == |s|;
    assert s[|w|..|s|] == [w[|w| - 1]];
  }

  /** Without a heading the title is the name with its dashes turned into spaces. */
  lemma FallbackTitle(content: string, name: string)
    requires HeadingText(content).None?
    ensures Title(content, name) == NameTitle(name)
    ensures |Title(content, name)| == |name| && '-' !in Title(content, name)
  {
    NameTitleShape(name);
  }

  /** A first line `#text` ending in `\n` is removed before the excerpt is taken. */
  lemma HeadingLineStripped(t: string, rest: string)
    requires |t| >= 1 && forall k :: 0 <= k < |t| ==> !IsLineTerminator(t[k])
    ensures StripFirstHeading(['#'] + t + ['\n'] + rest) == rest
  {
    var s := ['#'] + t + ['\n'] + rest;
    assert forall k :: 0 <= k < |t| ==> s[1 + k] == t[k];
    assert s[1 + |t|] == '\n';
    assert LineEnd(s, 1) == 1 + |t|;
    assert s[|t| + 2..] == rest;
  }

  /** With a `\r\n` line end the pattern needs `\n` right after `.+`, which cannot
      cross the `\r`: the heading line stays in the text. */
  lemma CrlfHeadingKept(t: string, rest: string)
    requires |t| >= 1 && forall k :: 0 <= k < |t| ==> !IsLineTerminator(t[k])
    ensures StripFirstHeading(['#'] + t + ['\r', '\n'] + rest) == ['#'] + t + ['\r', '\n'] + rest
  {
    var s := ['#'] + t + ['\r', '\n'] + rest;
    assert forall k :: 0 <= k < |t| ==> s[1 + k] == t[k];
    assert s[1 + |t|] == '\r';
    assert LineEnd(s, 1) == 1 + |t|;
  }

  /** The excerpt is the first paragraph when it fits in 150 characters. */
  lemma ExcerptFirstParagraph(content: string, a: string, b: string)
    requires Trim(StripFirstHeading(content)) == a + "\n\n" + b
    requires !Contains(a, "\n\n") && (a == [] || a[|a| - 1] != '\n') && |a| <= ExcerptLength
    ensures Excerpt(content) == a
  {
    BeforeFirstParagraph(a, b);
  }

  /** The entries that pass `p` keep their order; `UpdatedAt(k)` selects one timestamp. */
  function UpdatedAt(k: int): DocumentMeta -> bool {
    (d: DocumentMeta) => d.updatedAt == k
  }

  /** Inserting `d` puts it ahead of every entry as recent as it. */
  lemma {:induction false} InsertTies(d: DocumentMeta, ds: seq<DocumentMeta>, k: int)
    ensures Filter(Insert(d, ds), UpdatedAt(k)) == Filter([d], UpdatedAt(k)) + Filter(ds, UpdatedAt(k))
    decreases |ds|
  {
    var p := UpdatedAt(k);
    if ds == [] || ds[0].updatedAt <= d.updatedAt {
      FilterConcat([d], ds, p);
    } else {
      var rest := ds[1..];
      InsertTies(d, rest, k);
      assert ds == [ds[0]] + rest;
      FilterCons(ds[0], Insert(d, rest), p);
      FilterCons(ds[0], rest, p);
      FilterSingle(d, p);
      SwapEmpty(if p(ds[0]) then [ds[0]] else [], Filter([d], p), Filter(rest, p));
    }
  }

  /** The sort is stable: the entries with any one timestamp come out in input order. */
  lemma {:induction false} SortKeepsTies(ds: seq<DocumentMeta>, k: int)
    ensures Filter(SortNewestFirst(ds), UpdatedAt(k)) == Filter(ds, UpdatedAt(k))
    decreases |ds|
  {
    if ds != [] {
      SortKeepsTies(ds[1..], k);
      InsertTies(ds[0], SortNewestFirst(ds[1..]), k);
      assert ds == [ds[0]] + ds[1..];
      FilterConcat([ds[0]], ds[1..], UpdatedAt(k));
    }
  }

  /** The number of ".md" files in the given categories. */
  function MdCount(root: Root, categories: seq<string>): nat
    decreases |categories|
  {
    if categories == [] then 0
    else
      var last := categories[|categories| - 1];
      MdCount(root, categories[..|categories| - 1]) + |MdFiles(root, last)|
  }

  /** Exactly one entry per ".md" file. */
  lemma {:induction false} CollectCount(root: Root, categories: seq<string>)
    ensures |Collect(root, categories)| == MdCount(root, categories)
    decreases |categories|
  {
    if categories != [] {
      CollectCount(root, categories[..|categories| - 1]);
    }
  }

  /** Every entry is filed under one of the listed categories. */
  lemma {:induction false} CollectCategories(root: Root, categories: seq<string>, k: nat)
    requires k < |Collect(root, categories)|
    ensures Collect(root, categories)[k].category in categories
    decreases |categories|
  {
    var init, last := categories[..|categories| - 1], categories[|categories| - 1];
    var c: seq<DocumentMeta> := Collect(root, init);
    if k < |c| {
      CollectCategories(root, init, k);
      assert c[k].category in init;
      assert forall x :: x in init ==> x in categories;
    }
  }

  lemma {:induction false} MetasHave(category: string, files: seq<DocFile>, f: DocFile)
    requires f in files
    ensures MetaOf(category, f) in Metas(category, files)
    decreases |files|
  {
    if files[|files| - 1] != f {
      var init := files[..|files| - 1];
      assert files == init + [files[|files| - 1]];
      MetasHave(category, init, f);
    }
  }

  /** Every ".md" file of every category appears in the listing. */
  lemma {:induction false} CollectHas(root: Root, categories: seq<string>, i: nat, f: DocFile)
    requires i < |categories| && f in MdFiles(root, categories[i])
    ensures MetaOf(categories[i], f) in Collect(root, categories)
    decreases |categories|
  {
    var init := categories[..|categories| - 1];
    if i == |categories| - 1 {
      MetasHave(categories[i], MdFiles(root, categories[i]), f);
    } else {
      assert init[i] == categories[i];
      CollectHas(root, init, i, f);
    }
  }

  /** A missing root lists nothing and finds nothing. */
  lemma MissingRoot(slug: string)
    ensures Collected(Missing) == [] && GetDocument(Missing, slug) == Success(None)
  {
  }

  /** A slug without "/" opens `<slug>/undefined.md`; when that file exists and has no
      heading, `getDocument` throws instead of returning a document. */
  lemma SlashlessSlugThrows()
    ensures var root := Present([Entry("cat", Dir([DocFile("undefined.md", FileStat("", 0, 0))]))]);
      GetDocument(root, "cat") == Failure(ErrorThrown(UndefinedReplace))
  {
    var root := Present([Entry("cat", Dir([DocFile("undefined.md", FileStat("", 0, 0))]))]);
    assert '/' !in "cat";
    assert SlugCategory("cat") == "cat" && SlugFile("cat") == "undefined.md";
    assert ListedFile(root, "cat", "undefined.md") == Some(FileStat("", 0, 0));
    assert HeadingText("").None?;
  }

  /** A listed slug need not lead back to its file: the listing removes the FIRST ".md"
      of "a.mdb.md", giving the slug "cat/ab.md", and `getDocument` of that slug looks
      for "cat/ab.md.md", which does not exist, so it returns `null`. */
  lemma ListedSlugMissesFile(f: DocFile)
    requires f.name == "a.mdb.md"
    ensures var root := Present([Entry("cat", Dir([f]))]);
      && f in MdFiles(root, "cat")
      && Slug("cat", f.name) == "cat/ab.md"
      && GetDocument(root, Slug("cat", f.name)) == Success(None)
  {
    var root := Present([Entry("cat", Dir([f]))]);
    assert f in MdFiles(root, "cat") by {
      assert f.name[5..] == MdSuffix;
      MdFilesExact(root, "cat", f);
    }
    FirstMdRemoved(f.name);
    DoubledSuffixAbsent(f, root, Stem(f.name));
    GetDocumentAbsent(root, Slug("cat", f.name), "cat", Stem(f.name));
  }

  /** A listed slug leads back to its file: for a file whose name is its stem followed by
      ".md", `getDocument` of the listing's slug returns the same title, excerpt,
      category and timestamps. */
  lemma ListedSlugResolves(root: Root, i: nat, j: nat)
    requires WellFormed(root) && root.Present?
    requires i < |root.entries| && root.entries[i].node.Dir?
    requires j < |root.entries[i].node.files|
    requires Stem(root.entries[i].node.files[j].name) + MdSuffix == root.entries[i].node.files[j].name
    ensures var f := root.entries[i].node.files[j];
      var m := MetaOf(root.entries[i].name, f);
      GetDocument(root, m.slug)
        == Success(Some(Document(m.slug, m.title, m.category, f.stat.content, m.createdAt, m.updatedAt, m.excerpt)))
  {
    var e := root.entries[i];
    var f := e.node.files[j];
    var stem := Stem(f.name);
    assert '/' !in e.name && DirWellFormed(e.node);
    assert '/' !in stem by {
      forall k | 0 <= k < |stem| ensures stem[k] != '/' {
        assert stem[k] == f.name[k];
      }
    }
    var slug := e.name + ['/'] + stem;
    assert Slug(e.name, f.name) == slug;
    SplitTwo(e.name, '/', stem);
    FindEntryUnique(root.entries, i);
    FindFileUnique(e.node.files, j);
    GetDocumentFound(root, slug, e.name, stem, f.stat);
  }

  /** `"a.mdb.md".replace(".md", "")` is "ab.md": the suffix stays. */
  lemma FirstMdRemoved(name: string)
    requires name == "a.mdb.md"
    ensures Stem(name) == "ab.md" && Slug("cat", name) == "cat/ab.md"
    ensures Split(Slug("cat", name), '/') == ["cat", Stem(name)]
  {
    assert name[0..3][0] != MdSuffix[0];
    assert name[1..4] == MdSuffix;
    assert !OccursAt(name, MdSuffix, 0) && OccursAt(name, MdSuffix, 1);
    assert IndexOf(name, MdSuffix) == Some(1);
    assert name[..1] + name[4..] == "ab.md";
    assert "cat" + "/" + "ab.md" == "cat/ab.md";
    SplitTwo("cat", '/', Stem(name));
  }

  /** The directory holding only "a.mdb.md" has no "ab.md.md". */
  lemma DoubledSuffixAbsent(f: DocFile, root: Root, stem: string)
    requires f.name == "a.mdb.md" && root == Present([Entry("cat", Dir([f]))]) && stem == "ab.md"
    ensures ListedFile(root, "cat", stem + MdSuffix) == None
  {
    assert stem + MdSuffix == "ab.md.md";
    assert f.name != "ab.md.md";
  }

  /** A slug whose file is not listed gives `null`. */
  lemma GetDocumentAbsent(root: Root, slug: string, category: string, name: string)
    requires Split(slug, '/') == [category, name]
    requires ListedFile(root, category, name + MdSuffix).None?
    ensures GetDocument(root, slug) == Success(None)
  { }

  /** A slug with a name part opens that file and never throws. */
  lemma GetDocumentFound(root: Root, slug: string, category: string, name: string, stat: FileStat)
    requires Split(slug, '/') == [category, name]
    requires ListedFile(root, category, name + MdSuffix) == Some(stat)
    ensures GetDocument(root, slug)
         == Success(Some(Document(slug, Title(stat.content, name), category, stat.content,
                                  stat.createdAt, stat.updatedAt, Excerpt(stat.content))))
  {
  }
}
