/** The document sidebar (src/components/Sidebar.tsx): a case-insensitive search over the
    documents' titles and excerpts, the grouping of the matches by category, the
    expandable category sections, and the fixed order in which sections are shown. */
module Sidebar {
  import opened Text
  import opened Seqs
  import opened Documents

  /** `CATEGORY_ORDER`: the only sections the sidebar shows, in this order. */
  const CategoryOrder: seq<string> := ["journal", "concepts", "projects"]

  /** Whether a document's lower-cased title or excerpt contains the lower-cased query. */
  predicate SearchMatches(query: string, d: DocumentMeta) {
    Contains(Lower(d.title), Lower(query)) || Contains(Lower(d.excerpt), Lower(query))
  }

  /** `filteredDocs`. */
  function FilteredDocs(documents: seq<DocumentMeta>, search: string): seq<DocumentMeta> {
    if search == [] then documents
    else Filter(documents, (d: DocumentMeta) => SearchMatches(search, d))
  }

  /** An empty search shows every document; any other shows, in order, exactly the
      documents the query matches. */
  lemma FilteredDocsExact(documents: seq<DocumentMeta>, search: string)
    ensures search == [] ==> FilteredDocs(documents, search) == documents
    ensures search != [] ==> forall d :: d in FilteredDocs(documents, search) <==> d in documents && SearchMatches(search, d)
    ensures forall a, b :: documents == a + b ==>
      FilteredDocs(documents, search) == FilteredDocs(a, search) + FilteredDocs(b, search)
  {
    if search != [] {
      forall d ensures d in FilteredDocs(documents, search) <==> d in documents && SearchMatches(search, d) {
        FilterMembership(documents, (d: DocumentMeta) => SearchMatches(search, d), d);
      }
      forall a, b | documents == a + b
        ensures FilteredDocs(documents, search) == FilteredDocs(a, search) + FilteredDocs(b, search)
      {
        FilterConcat(a, b, (d: DocumentMeta) => SearchMatches(search, d));
      }
    }
  }

  /** The search ignores ASCII case in the query. */
  lemma SearchIgnoresCase(query: string, d: DocumentMeta)
    ensures SearchMatches(Lower(query), d) == SearchMatches(query, d)
  {
    LowerIdempotent(query);
  }

  lemma LowerIdempotent(s: string)
    ensures Lower(Lower(s)) == Lower(s)
  {
  }

  /** The documents of one category, in order. */
  function InCategory(docs: seq<DocumentMeta>, category: string): seq<DocumentMeta> {
    Filter(docs, (d: DocumentMeta) => d.category == category)
  }

  lemma InCategoryStep(docs: seq<DocumentMeta>, i: nat, category: string)
    requires i < |docs|
    ensures InCategory(docs[..i + 1], category)
         == InCategory(docs[..i], category) + (if docs[i].category == category then [docs[i]] else [])
  {
    assert docs[..i + 1][..i] == docs[..i];
  }

  /** `groupedDocs`: one group per category that occurs, holding that category's
      documents in list order. */
  method GroupDocs(docs: seq<DocumentMeta>) returns (groups: map<string, seq<DocumentMeta>>)
    ensures forall c :: c in groups <==> InCategory(docs, c) != []
    ensures forall c :: c in groups ==> groups[c] == InCategory(docs, c)
  {
    groups := map[];
    for i := 0 to |docs|
      invariant forall c :: c in groups <==> InCategory(docs[..i], c) != []
      invariant forall c :: c in groups ==> groups[c] == InCategory(docs[..i], c)
    {
      var doc := docs[i];
      if doc.category !in groups {
        groups := groups[doc.category := []];
      }
      groups := groups[doc.category := groups[doc.category] + [doc]];
      forall c ensures c in groups <==> InCategory(docs[..i + 1], c) != []
        ensures c in groups ==> groups[c] == InCategory(docs[..i + 1], c)
      {
        InCategoryStep(docs, i, c);
      }
    }
    assert docs[..|docs|] == docs;
  }

  /** Grouping puts each document in the group of its own category and in no other. */
  lemma GroupedOnce(docs: seq<DocumentMeta>, d: DocumentMeta, c: string)
    requires d in docs
    ensures d in InCategory(docs, c) <==> c == d.category
    ensures InCategory(docs, d.category) != []
  {
    FilterMembership(docs, (x: DocumentMeta) => x.category == c, d);
    FilterMembership(docs, (x: DocumentMeta) => x.category == d.category, d);
  }

  predicate Rendered(groups: map<string, seq<DocumentMeta>>, c: string) {
    c in groups && |groups[c]| > 0
  }

  /** The sections shown: `CATEGORY_ORDER` without the categories that have no group. */
  function RenderedCategories(groups: map<string, seq<DocumentMeta>>): seq<string> {
    Filter(CategoryOrder, (c: string) => Rendered(groups, c))
  }

  /** The documents listed under the given sections, section by section; a collapsed
      section lists none. */
  function Listed(groups: map<string, seq<DocumentMeta>>, cats: seq<string>, expanded: set<string>): seq<DocumentMeta>
    decreases |cats|
  {
    if cats == [] then []
    else
      var c := cats[|cats| - 1];
      Listed(groups, cats[..|cats| - 1], expanded) + (if c in groups && c in expanded then groups[c] else [])
  }

  /** What the list shows: the shown sections' documents, for expanded sections only. */
  function VisibleDocs(groups: map<string, seq<DocumentMeta>>, expanded: set<string>): seq<DocumentMeta> {
    Listed(groups, RenderedCategories(groups), expanded)
  }

  /** Groups that are exactly the categories of `docs`. */
  ghost predicate GroupsOf(groups: map<string, seq<DocumentMeta>>, docs: seq<DocumentMeta>) {
    && (forall c :: c in groups <==> InCategory(docs, c) != [])
    && (forall c :: c in groups ==> groups[c] == InCategory(docs, c))
  }

  lemma {:induction false} ListedExact(groups: map<string, seq<DocumentMeta>>, docs: seq<DocumentMeta>,
                                       cats: seq<string>, expanded: set<string>, d: DocumentMeta)
    requires GroupsOf(groups, docs)
    ensures d in Listed(groups, cats, expanded) <==> d in docs && d.category in cats && d.category in expanded
    decreases |cats|
  {
    if cats != [] {
      var init := cats[..|cats| - 1];
      var c := cats[|cats| - 1];
      ListedExact(groups, docs, init, expanded, d);
      assert cats == init + [c];
      if c in groups {
        FilterMembership(docs, (x: DocumentMeta) => x.category == c, d);
      }
      if d in docs && d.category == c {
        GroupedOnce(docs, d, c);
      }
    }
  }

  /** A listed document is one the search matched, of a category in `CATEGORY_ORDER`
      whose section is expanded; every such document is listed. A document of any other
      category is never listed. */
  lemma VisibleDocsExact(groups: map<string, seq<DocumentMeta>>, docs: seq<DocumentMeta>,
                         expanded: set<string>, d: DocumentMeta)
    requires GroupsOf(groups, docs)
    ensures d in VisibleDocs(groups, expanded) <==> d in docs && d.category in CategoryOrder && d.category in expanded
  {
    var p := (c: string) => Rendered(groups, c);
    ListedExact(groups, docs, RenderedCategories(groups), expanded, d);
    FilterMembership(CategoryOrder, p, d.category);
    if d in docs {
      GroupedOnce(docs, d, d.category);
    }
  }

  /** The sections appear in `CATEGORY_ORDER`'s order, and a section is shown exactly
      when its category is in that order and has a document. */
  lemma RenderedCategoriesExact(groups: map<string, seq<DocumentMeta>>, c: string)
    ensures c in RenderedCategories(groups) <==> c in CategoryOrder && c in groups && |groups[c]| > 0
    ensures forall a, b :: CategoryOrder == a + b ==>
      RenderedCategories(groups) == Filter(a, (c: string) => Rendered(groups, c)) + Filter(b, (c: string) => Rendered(groups, c))
  {
    FilterMembership(CategoryOrder, (c: string) => Rendered(groups, c), c);
    forall a, b | CategoryOrder == a + b
      ensures RenderedCategories(groups) == Filter(a, (c: string) => Rendered(groups, c)) + Filter(b, (c: string) => Rendered(groups, c))
    {
      FilterConcat(a, b, (c: string) => Rendered(groups, c));
    }
  }

  class SidebarState {
    var search: string
    var expandedCategories: set<string>

    /** Every section of `CATEGORY_ORDER` starts expanded. */
    constructor()
      ensures search == []
      ensures expandedCategories == {"journal", "concepts", "projects"}
      ensures forall c :: c in CategoryOrder ==> c in expandedCategories
    {
      search := [];
      expandedCategories := {"journal", "concepts", "projects"};
    }

    /** The search box. */
    method SetSearch(value: string)
      modifies this
      ensures search == value && expandedCategories == old(expandedCategories)
    {
      search := value;
    }

    /** `toggleCategory`: the category's section flips between expanded and collapsed;
        every other section keeps its state. */
    method ToggleCategory(cat: string)
      modifies this
      ensures cat in expandedCategories <==> cat !in old(expandedCategories)
      ensures forall c :: c != cat ==> (c in expandedCategories <==> c in old(expandedCategories))
      ensures search == old(search)
    {
      var next := expandedCategories;
      if cat in next {
        next := next - {cat};
      } else {
        next := next + {cat};
      }
      expandedCategories := next;
    }
  }
}
