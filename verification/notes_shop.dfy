/** The notes catalogue page (`components/NotesShop.jsx`): the filter-then-sort pipeline
    over the fetched notes, the subject chips, the filter reset and the query string
    `fetchNotes` sends. */
module NotesShop {
  import opened Wrappers
  import opened Entities
  import opened Text
  import opened Lists
  import Uri

  /** The price bounds as the number inputs hold them: `None` for an empty input. */
  datatype PriceRange = PriceRange(min: Option<int>, max: Option<int>)

  /** The page's filter state; `page` is the current page number. */
  datatype Filters = Filters(
    category: string,
    search: string,
    sortBy: string,
    page: int,
    price: PriceRange,
    subjects: seq<string>)

  // ---------------------------------------------------------------------------
  // Filtering

  predicate CategoryOk(f: Filters, n: Note) { f.category == "" || n.category == f.category }
  predicate SearchOk(f: Filters, n: Note) {
    f.search == "" || MatchesCi(n.title, f.search) || MatchesCi(n.description, f.search)
  }
  predicate SubjectOk(f: Filters, n: Note) { f.subjects == [] || n.subject in f.subjects }
  predicate MinOk(f: Filters, n: Note) { f.price.min.None? || n.price >= f.price.min.value }
  predicate MaxOk(f: Filters, n: Note) { f.price.max.None? || n.price <= f.price.max.value }

  /** A note passes every active filter; an empty filter restricts nothing. */
  predicate Passes(f: Filters, n: Note) {
    CategoryOk(f, n) && SearchOk(f, n) && SubjectOk(f, n) && MinOk(f, n) && MaxOk(f, n)
  }

  function PassesFn(f: Filters): Note -> bool {
    n => Passes(f, n)
  }

  /** The callbacks the five `filter` calls pass. A price callback is only used when its
      bound is set. */
  function InCategory(f: Filters): Note -> bool { (n: Note) => n.category == f.category }
  function MentionsSearch(f: Filters): Note -> bool {
    (n: Note) => MatchesCi(n.title, f.search) || MatchesCi(n.description, f.search)
  }
  function InSubjects(f: Filters): Note -> bool { (n: Note) => n.subject in f.subjects }
  function AtLeastMin(f: Filters): Note -> bool { (n: Note) => n.price >= f.price.min.GetOr(0) }
  function AtMostMax(f: Filters): Note -> bool { (n: Note) => n.price <= f.price.max.GetOr(0) }

  /** The staged pipeline of `filteredAndSortedNotes`: each filter applies only when its
      input is set. */
  function Staged(notes: seq<Note>, f: Filters): seq<Note> {
    var a := Stage(notes, f.category != "", InCategory(f));
    var b := Stage(a, f.search != "", MentionsSearch(f));
    var c := Stage(b, f.subjects != [], InSubjects(f));
    var d := Stage(c, f.price.min.Some?, AtLeastMin(f));
    Stage(d, f.price.max.Some?, AtMostMax(f))
  }

  /** The filter stages of `filteredAndSortedNotes`, as one filter by every active condition. */
  function Filtered(notes: seq<Note>, f: Filters): (r: seq<Note>)
    ensures r == Filter(notes, PassesFn(f))
  {
    FilteredIsConjunction(notes, f);
    Staged(notes, f)
  }

  /** The conditions of the first k stages, conjoined. */
  function UpTo1(f: Filters): Note -> bool { (n: Note) => CategoryOk(f, n) }
  function UpTo2(f: Filters): Note -> bool { (n: Note) => CategoryOk(f, n) && SearchOk(f, n) }
  function UpTo3(f: Filters): Note -> bool { (n: Note) => UpTo2(f)(n) && SubjectOk(f, n) }
  function UpTo4(f: Filters): Note -> bool { (n: Note) => UpTo3(f)(n) && MinOk(f, n) }

  lemma Stage1(notes: seq<Note>, f: Filters)
    ensures Stage(notes, f.category != "", InCategory(f)) == Filter(notes, UpTo1(f))
  {
    StageIsFilter(notes, f.category != "", InCategory(f), UpTo1(f));
  }

  lemma Stage2(notes: seq<Note>, f: Filters)
    ensures Stage(Filter(notes, UpTo1(f)), f.search != "", MentionsSearch(f)) == Filter(notes, UpTo2(f))
  {
    StageStep(notes, UpTo1(f), f.search != "", MentionsSearch(f), UpTo2(f));
  }

  lemma Stage3(notes: seq<Note>, f: Filters)
    ensures Stage(Filter(notes, UpTo2(f)), f.subjects != [], InSubjects(f)) == Filter(notes, UpTo3(f))
  {
    StageStep(notes, UpTo2(f), f.subjects != [], InSubjects(f), UpTo3(f));
  }

  lemma Stage4(notes: seq<Note>, f: Filters)
    ensures Stage(Filter(notes, UpTo3(f)), f.price.min.Some?, AtLeastMin(f)) == Filter(notes, UpTo4(f))
  {
    StageStep(notes, UpTo3(f), f.price.min.Some?, AtLeastMin(f), UpTo4(f));
  }

  lemma Stage5(notes: seq<Note>, f: Filters)
    ensures Stage(Filter(notes, UpTo4(f)), f.price.max.Some?, AtMostMax(f)) == Filter(notes, PassesFn(f))
  {
    forall x ensures PassesFn(f)(x) == (UpTo4(f)(x) && (!f.price.max.Some? || AtMostMax(f)(x))) {
      assert PassesFn(f)(x) == Passes(f, x);
      assert UpTo4(f)(x) == (UpTo3(f)(x) && MinOk(f, x));
      assert UpTo3(f)(x) == (UpTo2(f)(x) && SubjectOk(f, x));
      assert UpTo2(f)(x) == (CategoryOk(f, x) && SearchOk(f, x));
      assert AtMostMax(f)(x) == (x.price <= f.price.max.GetOr(0));
    }
    StageStep(notes, UpTo4(f), f.price.max.Some?, AtMostMax(f), PassesFn(f));
  }

  /** Running the stages one after another keeps exactly the notes that pass all of them. */
  lemma FilteredIsConjunction(notes: seq<Note>, f: Filters)
    ensures Staged(notes, f) == Filter(notes, PassesFn(f))
  {
    Stage1(notes, f);
    Stage2(notes, f);
    Stage3(notes, f);
    Stage4(notes, f);
    Stage5(notes, f);
  }

  // ---------------------------------------------------------------------------
  // Sorting

  function CreatedAt(n: Note): int { n.createdAt }
  function Price(n: Note): int { n.price }
  function Downloads(n: Note): int { n.downloads }
  function Rating(n: Note): int { n.rating }

  /** A sort choice: the key to compare and whether larger keys come first. */
  datatype SortOrder = SortOrder(key: Note -> int, descending: bool)

  /** The comparator the `switch (sortBy)` picks; `None` for an unrecognised choice. */
  function SortFor(sortBy: string): Option<SortOrder> {
    if sortBy == "newest" then Some(SortOrder(CreatedAt, true))
    else if sortBy == "oldest" then Some(SortOrder(CreatedAt, false))
    else if sortBy == "price-low" then Some(SortOrder(Price, false))
    else if sortBy == "price-high" then Some(SortOrder(Price, true))
    else if sortBy == "downloads" then Some(SortOrder(Downloads, true))
    else if sortBy == "rating" then Some(SortOrder(Rating, true))
    else None
  }

  /** `filteredAndSortedNotes()`. */
  function FilteredAndSorted(notes: seq<Note>, f: Filters): (r: seq<Note>)
    ensures multiset(r) == multiset(Filter(notes, PassesFn(f)))
    ensures SortFor(f.sortBy).Some? ==>
      SortedBy(r, SortFor(f.sortBy).value.key, SortFor(f.sortBy).value.descending)
    ensures SortFor(f.sortBy).None? ==> r == Filter(notes, PassesFn(f))
  {
    var filtered := Filtered(notes, f);
    match SortFor(f.sortBy)
    case None => filtered
    case Some(o) => SortBy(filtered, o.key, o.descending)
  }

  /** Every shown note passes every active filter. */
  lemma ShownPass(notes: seq<Note>, f: Filters)
    ensures forall n :: n in FilteredAndSorted(notes, f) ==> Passes(f, n)
  {
    var r := FilteredAndSorted(notes, f);
    forall n | n in r ensures Passes(f, n) {
      assert n in multiset(r);
      assert n in Filter(notes, PassesFn(f));
      FilterMembership(notes, PassesFn(f), n);
    }
  }

  /** The six recognised choices sort by the key and direction the comparators use. */
  lemma SortChoices(notes: seq<Note>, f: Filters)
    ensures var r := FilteredAndSorted(notes, f);
      && (f.sortBy == "newest" ==> SortedBy(r, CreatedAt, true))
      && (f.sortBy == "oldest" ==> SortedBy(r, CreatedAt, false))
      && (f.sortBy == "price-low" ==> SortedBy(r, Price, false))
      && (f.sortBy == "price-high" ==> SortedBy(r, Price, true))
      && (f.sortBy == "downloads" ==> SortedBy(r, Downloads, true))
      && (f.sortBy == "rating" ==> SortedBy(r, Rating, true))
  {
  }

  /** A note is shown exactly when it was fetched and passes every active filter. */
  lemma ShownIff(notes: seq<Note>, f: Filters, n: Note)
    ensures n in FilteredAndSorted(notes, f) <==> n in notes && Passes(f, n)
  {
    var r := FilteredAndSorted(notes, f);
    FilterMembership(notes, PassesFn(f), n);
    assert n in r <==> n in multiset(r);
  }

  /** With no filter set, every fetched note is shown, and in fetch order unless a sort applies. */
  lemma NoFiltersShowAll(notes: seq<Note>, f: Filters)
    requires f.category == "" && f.search == "" && f.subjects == [] && f.price == PriceRange(None, None)
    ensures multiset(FilteredAndSorted(notes, f)) == multiset(notes)
    ensures SortFor(f.sortBy).None? ==> FilteredAndSorted(notes, f) == notes
  {
    FilterAll(notes, PassesFn(f));
  }

  // ---------------------------------------------------------------------------
  // Filter state transitions

  /** `handleSubjectToggle(subject)` on the subject list. */
  function ToggleSubject(subjects: seq<string>, subject: string): (r: seq<string>)
    ensures subject in r <==> subject !in subjects
    ensures forall x :: x != subject ==> (x in r <==> x in subjects)
    ensures subject !in subjects ==> r == subjects + [subject]
  {
    if subject in subjects then
      var r := Filter(subjects, s => s != subject);
      forall x ensures x in r <==> x in subjects && x != subject {
        FilterMembership(subjects, s => s != subject, x);
      }
      r
    else subjects + [subject]
  }

  /** Toggling a chip that is off, and then again, restores the list. */
  lemma ToggleSubjectTwice(subjects: seq<string>, subject: string)
    requires subject !in subjects
    ensures ToggleSubject(ToggleSubject(subjects, subject), subject) == subjects
  {
    var p := (s: string) => s != subject;
    FilterConcat(subjects, [subject], p);
    FilterAll(subjects, p);
    assert Filter([subject], p) == [];
  }

  /** Toggling a chip that is on takes it out where it stands: the other subjects keep
      their order, and with it the order they are joined in for the query. */
  lemma ToggleSubjectRemovesInPlace(before: seq<string>, subject: string, after: seq<string>)
    requires subject !in before && subject !in after
    ensures ToggleSubject(before + [subject] + after, subject) == before + after
  {
    var p := (s: string) => s != subject;
    var subjects := before + [subject] + after;
    assert subject in subjects by {
      assert subjects[|before|] == subject;
    }
    assert forall i :: 0 <= i < |before| ==> p(before[i]);
    assert forall i :: 0 <= i < |after| ==> p(after[i]);
    FilterDropsOne(before, subject, after, p);
  }

  /** Toggling keeps the subject list free of duplicates. */
  lemma ToggleSubjectNoDuplicates(subjects: seq<string>, subject: string)
    requires NoDuplicates(subjects)
    ensures NoDuplicates(ToggleSubject(subjects, subject))
  {
    if subject in subjects {
      NoDuplicatesFilter(subjects, s => s != subject);
    }
  }

  /** The page-level handler: the subject list is toggled and the page resets to 1. */
  function HandleSubjectToggle(f: Filters, subject: string): (r: Filters)
    ensures r.page == 1
    ensures r.subjects == ToggleSubject(f.subjects, subject)
    ensures r.(subjects := f.subjects, page := f.page) == f
  {
    f.(subjects := ToggleSubject(f.subjects, subject), page := 1)
  }

  /** `clearFilters()`: category, price bounds, subjects and page go back to their
      initial values; the search text and sort choice stay. */
  function ClearFilters(f: Filters): (r: Filters)
    ensures r.category == "" && r.price == PriceRange(None, None) && r.subjects == [] && r.page == 1
    ensures r.search == f.search && r.sortBy == f.sortBy
  {
    Filters("", f.search, f.sortBy, 1, PriceRange(None, None), [])
  }

  /** After a reset, only the search text still restricts the list. */
  lemma ClearedFiltersOnlySearch(notes: seq<Note>, f: Filters, n: Note)
    ensures n in FilteredAndSorted(notes, ClearFilters(f)) <==> n in notes && SearchOk(f, n)
  {
    ShownIff(notes, ClearFilters(f), n);
  }

  // ---------------------------------------------------------------------------
  // The query string of `fetchNotes`

  /** The names `fetchNotes` appends, in order: each one only when its input is truthy. */
  function ParamNames(f: Filters): seq<string> {
    (if f.category != "" then ["category"] else [])
    + ((if f.search != "" then ["search"] else [])
    + ((if f.sortBy != "" then ["sort"] else [])
    + ((if f.page != 0 then ["page"] else [])
    + ((if f.price.min.Some? then ["minPrice"] else [])
    + ((if f.price.max.Some? then ["maxPrice"] else [])
    + (if f.subjects != [] then ["subjects"] else []))))))
  }

  /** The parameters `fetchNotes` appends, given a search value encoder. Each one is
      appended only when its input is truthy, in this order; subjects are comma-joined. */
  function QueryWith(f: Filters, encodeSearch: string -> string): (ps: Uri.QueryParams)
    ensures Uri.Names(ps) == ParamNames(f)
    ensures f.category != "" ==> ps[0] == ("category", f.category)
    ensures f.search != "" ==> Uri.Lookup(ps, "search") == Some(encodeSearch(f.search))
    ensures f.subjects != [] ==> Uri.Lookup(ps, "subjects") == Some(Join(f.subjects, ','))
    ensures f.page != 0 ==> Uri.Lookup(ps, "page") == Some(IntToString(f.page))
    ensures f.sortBy != "" ==> Uri.Lookup(ps, "sort") == Some(f.sortBy)
    ensures f.price.min.Some? ==> Uri.Lookup(ps, "minPrice") == Some(IntToString(f.price.min.value))
    ensures f.price.max.Some? ==> Uri.Lookup(ps, "maxPrice") == Some(IntToString(f.price.max.value))
  {
    var rest7 := Uri.AppendIf(f.subjects != [], "subjects", Join(f.subjects, ','));
    var rest6 := Uri.AppendIf(f.price.max.Some?, "maxPrice", IntToString(f.price.max.GetOr(0))) + rest7;
    var rest5 := Uri.AppendIf(f.price.min.Some?, "minPrice", IntToString(f.price.min.GetOr(0))) + rest6;
    var rest4 := Uri.AppendIf(f.page != 0, "page", IntToString(f.page)) + rest5;
    var rest3 := Uri.AppendIf(f.sortBy != "", "sort", f.sortBy) + rest4;
    var rest2 := Uri.AppendIf(f.search != "", "search", encodeSearch(f.search)) + rest3;
    var ps := Uri.AppendIf(f.category != "", "category", f.category) + rest2;
    QueryNames(f, encodeSearch(f.search), ps, rest2, rest3, rest4, rest5, rest6, rest7);
    SearchLookup(f, encodeSearch(f.search), ps, rest2, rest3);
    PageLookup(f, encodeSearch(f.search), ps, rest2, rest3, rest4, rest5);
    SortLookup(f, encodeSearch(f.search), ps, rest2, rest3, rest4);
    PriceLookups(f, encodeSearch(f.search), ps, rest2, rest3, rest4, rest5, rest6, rest7);
    SubjectsLookup(f, encodeSearch(f.search), ps, rest2, rest3, rest4, rest5, rest6, rest7);
    ps
  }

  lemma QueryNames(f: Filters, search: string, ps: Uri.QueryParams,
                   rest2: Uri.QueryParams, rest3: Uri.QueryParams, rest4: Uri.QueryParams,
                   rest5: Uri.QueryParams, rest6: Uri.QueryParams, rest7: Uri.QueryParams)
    requires rest7 == Uri.AppendIf(f.subjects != [], "subjects", Join(f.subjects, ','))
    requires rest6 == Uri.AppendIf(f.price.max.Some?, "maxPrice", IntToString(f.price.max.GetOr(0))) + rest7
    requires rest5 == Uri.AppendIf(f.price.min.Some?, "minPrice", IntToString(f.price.min.GetOr(0))) + rest6
    requires rest4 == Uri.AppendIf(f.page != 0, "page", IntToString(f.page)) + rest5
    requires rest3 == Uri.AppendIf(f.sortBy != "", "sort", f.sortBy) + rest4
    requires rest2 == Uri.AppendIf(f.search != "", "search", search) + rest3
    requires ps == Uri.AppendIf(f.category != "", "category", f.category) + rest2
    ensures Uri.Names(ps) == ParamNames(f)
  {
    Uri.NamesConcat(Uri.AppendIf(f.price.max.Some?, "maxPrice", IntToString(f.price.max.GetOr(0))), rest7);
    Uri.NamesConcat(Uri.AppendIf(f.price.min.Some?, "minPrice", IntToString(f.price.min.GetOr(0))), rest6);
    Uri.NamesConcat(Uri.AppendIf(f.page != 0, "page", IntToString(f.page)), rest5);
    Uri.NamesConcat(Uri.AppendIf(f.sortBy != "", "sort", f.sortBy), rest4);
    Uri.NamesConcat(Uri.AppendIf(f.search != "", "search", search), rest3);
    Uri.NamesConcat(Uri.AppendIf(f.category != "", "category", f.category), rest2);
  }

  lemma SearchLookup(f: Filters, search: string, ps: Uri.QueryParams, rest2: Uri.QueryParams, rest3: Uri.QueryParams)
    requires rest2 == Uri.AppendIf(f.search != "", "search", search) + rest3
    requires ps == Uri.AppendIf(f.category != "", "category", f.category) + rest2
    ensures f.search != "" ==> Uri.Lookup(ps, "search") == Some(search)
  {
    Uri.AppendIfSkips(f.category != "", "category", f.category, rest2, "search");
    Uri.AppendIfFinds(f.search != "", "search", search, rest3);
  }

  lemma PageLookup(f: Filters, search: string, ps: Uri.QueryParams, rest2: Uri.QueryParams,
                   rest3: Uri.QueryParams, rest4: Uri.QueryParams, rest5: Uri.QueryParams)
    requires rest4 == Uri.AppendIf(f.page != 0, "page", IntToString(f.page)) + rest5
    requires rest3 == Uri.AppendIf(f.sortBy != "", "sort", f.sortBy) + rest4
    requires rest2 == Uri.AppendIf(f.search != "", "search", search) + rest3
    requires ps == Uri.AppendIf(f.category != "", "category", f.category) + rest2
    ensures f.page != 0 ==> Uri.Lookup(ps, "page") == Some(IntToString(f.page))
  {
    Uri.AppendIfSkips(f.category != "", "category", f.category, rest2, "page");
    Uri.AppendIfSkips(f.search != "", "search", search, rest3, "page");
    Uri.AppendIfSkips(f.sortBy != "", "sort", f.sortBy, rest4, "page");
    Uri.AppendIfFinds(f.page != 0, "page", IntToString(f.page), rest5);
  }

  lemma SortLookup(f: Filters, search: string, ps: Uri.QueryParams, rest2: Uri.QueryParams,
                   rest3: Uri.QueryParams, rest4: Uri.QueryParams)
    requires rest3 == Uri.AppendIf(f.sortBy != "", "sort", f.sortBy) + rest4
    requires rest2 == Uri.AppendIf(f.search != "", "search", search) + rest3
    requires ps == Uri.AppendIf(f.category != "", "category", f.category) + rest2
    ensures f.sortBy != "" ==> Uri.Lookup(ps, "sort") == Some(f.sortBy)
  {
    Uri.AppendIfSkips(f.category != "", "category", f.category, rest2, "sort");
    Uri.AppendIfSkips(f.search != "", "search", search, rest3, "sort");
    Uri.AppendIfFinds(f.sortBy != "", "sort", f.sortBy, rest4);
  }

  lemma PriceLookups(f: Filters, search: string, ps: Uri.QueryParams,
                     rest2: Uri.QueryParams, rest3: Uri.QueryParams, rest4: Uri.QueryParams,
                     rest5: Uri.QueryParams, rest6: Uri.QueryParams, rest7: Uri.QueryParams)
    requires rest6 == Uri.AppendIf(f.price.max.Some?, "maxPrice", IntToString(f.price.max.GetOr(0))) + rest7
    requires rest5 == Uri.AppendIf(f.price.min.Some?, "minPrice", IntToString(f.price.min.GetOr(0))) + rest6
    requires rest4 == Uri.AppendIf(f.page != 0, "page", IntToString(f.page)) + rest5
    requires rest3 == Uri.AppendIf(f.sortBy != "", "sort", f.sortBy) + rest4
    requires rest2 == Uri.AppendIf(f.search != "", "search", search) + rest3
    requires ps == Uri.AppendIf(f.category != "", "category", f.category) + rest2
    ensures f.price.min.Some? ==> Uri.Lookup(ps, "minPrice") == Some(IntToString(f.price.min.value))
    ensures f.price.max.Some? ==> Uri.Lookup(ps, "maxPrice") == Some(IntToString(f.price.max.value))
  {
    assert Uri.Lookup(ps, "minPrice") == Uri.Lookup(rest5, "minPrice") by {
      Uri.AppendIfSkips(f.category != "", "category", f.category, rest2, "minPrice");
      Uri.AppendIfSkips(f.search != "", "search", search, rest3, "minPrice");
      Uri.AppendIfSkips(f.sortBy != "", "sort", f.sortBy, rest4, "minPrice");
      Uri.AppendIfSkips(f.page != 0, "page", IntToString(f.page), rest5, "minPrice");
    }
    Uri.AppendIfFinds(f.price.min.Some?, "minPrice", IntToString(f.price.min.GetOr(0)), rest6);
    assert Uri.Lookup(ps, "maxPrice") == Uri.Lookup(rest6, "maxPrice") by {
      Uri.AppendIfSkips(f.category != "", "category", f.category, rest2, "maxPrice");
      Uri.AppendIfSkips(f.search != "", "search", search, rest3, "maxPrice");
      Uri.AppendIfSkips(f.sortBy != "", "sort", f.sortBy, rest4, "maxPrice");
      Uri.AppendIfSkips(f.page != 0, "page", IntToString(f.page), rest5, "maxPrice");
      Uri.AppendIfSkips(f.price.min.Some?, "minPrice", IntToString(f.price.min.GetOr(0)), rest6, "maxPrice");
    }
    Uri.AppendIfFinds(f.price.max.Some?, "maxPrice", IntToString(f.price.max.GetOr(0)), rest7);
  }

  lemma SubjectsLookup(f: Filters, search: string, ps: Uri.QueryParams,
                       rest2: Uri.QueryParams, rest3: Uri.QueryParams, rest4: Uri.QueryParams,
                       rest5: Uri.QueryParams, rest6: Uri.QueryParams, rest7: Uri.QueryParams)
    requires rest7 == Uri.AppendIf(f.subjects != [], "subjects", Join(f.subjects, ','))
    requires rest6 == Uri.AppendIf(f.price.max.Some?, "maxPrice", IntToString(f.price.max.GetOr(0))) + rest7
    requires rest5 == Uri.AppendIf(f.price.min.Some?, "minPrice", IntToString(f.price.min.GetOr(0))) + rest6
    requires rest4 == Uri.AppendIf(f.page != 0, "page", IntToString(f.page)) + rest5
    requires rest3 == Uri.AppendIf(f.sortBy != "", "sort", f.sortBy) + rest4
    requires rest2 == Uri.AppendIf(f.search != "", "search", search) + rest3
    requires ps == Uri.AppendIf(f.category != "", "category", f.category) + rest2
    ensures f.subjects != [] ==> Uri.Lookup(ps, "subjects") == Some(Join(f.subjects, ','))
  {
    LastOfSix(f.category != "", f.search != "", f.sortBy != "", f.page != 0, f.price.min.Some?, f.price.max.Some?,
      f.category, search, f.sortBy, IntToString(f.page), IntToString(f.price.min.GetOr(0)), IntToString(f.price.max.GetOr(0)),
      rest7, ps);
  }

  /** Six appends under names other than "subjects" do not hide the "subjects" pair after them. */
  lemma LastOfSix(a1: bool, a2: bool, a3: bool, a4: bool, a5: bool, a6: bool,
                  v1: string, v2: string, v3: string, v4: string, v5: string, v6: string,
                  tail: Uri.QueryParams, ps: Uri.QueryParams)
    requires ps == Uri.AppendIf(a1, "category", v1) + (Uri.AppendIf(a2, "search", v2) + (Uri.AppendIf(a3, "sort", v3)
      + (Uri.AppendIf(a4, "page", v4) + (Uri.AppendIf(a5, "minPrice", v5) + (Uri.AppendIf(a6, "maxPrice", v6) + tail)))))
    ensures Uri.Lookup(ps, "subjects") == Uri.Lookup(tail, "subjects")
  {
    var r6 := Uri.AppendIf(a6, "maxPrice", v6) + tail;
    var r5 := Uri.AppendIf(a5, "minPrice", v5) + r6;
    var r4 := Uri.AppendIf(a4, "page", v4) + r5;
    var r3 := Uri.AppendIf(a3, "sort", v3) + r4;
    var r2 := Uri.AppendIf(a2, "search", v2) + r3;
    Uri.AppendIfSkips(a6, "maxPrice", v6, tail, "subjects");
    Uri.AppendIfSkips(a5, "minPrice", v5, r6, "subjects");
    Uri.AppendIfSkips(a4, "page", v4, r5, "subjects");
    Uri.AppendIfSkips(a3, "sort", v3, r4, "subjects");
    Uri.AppendIfSkips(a2, "search", v2, r3, "subjects");
    Uri.AppendIfSkips(a1, "category", v1, r2, "subjects");
  }

  /** The parameters as the page builds them: the search text is run through
      `encodeURIComponent` before `URLSearchParams` encodes it again. */
  function QueryAsWritten(f: Filters): (ps: Uri.QueryParams)
    ensures f.search != "" ==> Uri.Lookup(ps, "search") == Some(Uri.EncodeUriComponent(f.search))
  {
    QueryWith(f, Uri.EncodeUriComponent)
  }

  /** `encodeURIComponent("a b")` is "a%20b". */
  lemma EncodeSpaceExample()
    ensures Uri.EncodeUriComponent("a b") == "a%20b" && Uri.IsAscii("a%20b")
  {
    assert Uri.UriEncodeChar(' ') == "%20" by {
      assert Uri.Utf8(' ') == [32];
      assert Uri.PercentBytes([32]) == Uri.PercentByte(32) + Uri.PercentBytes([]);
    }
    assert "a b"[1..] == " b" && " b"[1..] == "b" && "b"[1..] == "";
  }

  /** As written, a search for "a b" reaches the server as the text "a%20b". */
  lemma SearchDoubleEncoded()
    ensures var f := Filters("", "a b", "newest", 1, PriceRange(None, None), []);
      Uri.Received(QueryAsWritten(f), "search") == Some("a%20b")
  {
    var f := Filters("", "a b", "newest", 1, PriceRange(None, None), []);
    EncodeSpaceExample();
    Uri.ReceivedAscii(QueryAsWritten(f), "search");
  }

  /** The evident intent: the search text is appended as typed and the serializer
      encodes it once. */
  function Query(f: Filters): (ps: Uri.QueryParams)
    ensures f.search != "" ==> Uri.Lookup(ps, "search") == Some(f.search)
    ensures f.sortBy != "" ==> Uri.Lookup(ps, "sort") == Some(f.sortBy)
  {
    QueryWith(f, AsTyped)
  }

  function AsTyped(search: string): string { search }

  /** With single encoding, ASCII search text reaches the server exactly as typed. */
  lemma SearchArrivesAsTyped(f: Filters)
    requires f.search != "" && Uri.IsAscii(f.search)
    ensures Uri.Received(Query(f), "search") == Some(f.search)
  {
    Uri.ReceivedAscii(Query(f), "search");
  }

  /** After a reset the query carries only the search text, the sort choice and page 1. */
  lemma ClearedQuery(f: Filters)
    ensures var ps := Query(ClearFilters(f));
      Uri.Names(ps) == (if f.search != "" then ["search"] else []) + (if f.sortBy != "" then ["sort"] else []) + ["page"]
      && Uri.Lookup(ps, "page") == Some("1")
      && (f.search != "" ==> Uri.Lookup(ps, "search") == Some(f.search))
      && (f.sortBy != "" ==> Uri.Lookup(ps, "sort") == Some(f.sortBy))
  {
    var g := ClearFilters(f);
    assert g.category == "" && g.page == 1 && g.subjects == [] && g.price == PriceRange(None, None);
    var s1: seq<string> := if g.search != "" then ["search"] else [];
    var s2: seq<string> := if g.sortBy != "" then ["sort"] else [];
    assert ParamNames(g) == s1 + s2 + ["page"] by {
      assert ParamNames(g) == [] + (s1 + (s2 + (["page"] + ([] + ([] + [])))));
    }
    assert Uri.Lookup(Query(g), "page") == Some(IntToString(1));
    assert IntToString(1) == "1" by {
      assert NatToString(1) == [DigitChar(1)];
    }
  }
}
