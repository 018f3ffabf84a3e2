/** The note administration list (`components/ManageNotes.jsx`): the sort field and
    direction the header buttons drive, the client-side search over the loaded notes,
    and the query string the list is fetched with. */
module ManageNotes {
  import opened Wrappers
  import opened Entities
  import opened Text
  import opened Lists
  import Uri

  /** The sort field and direction; the page starts at ("createdAt", "desc"). */
  datatype SortState = SortState(field: string, direction: string)

  const InitialSort: SortState := SortState("createdAt", "desc")

  /** `toggleSortDirection()`: "asc" becomes "desc" and anything else becomes "asc". */
  function ToggleDirection(direction: string): (r: string)
    ensures r == "asc" || r == "desc"
    ensures r == "desc" <==> direction == "asc"
  {
    if direction == "asc" then "desc" else "asc"
  }

  /** Toggling twice restores either of the two directions the page produces. */
  lemma ToggleDirectionTwice(direction: string)
    requires direction == "asc" || direction == "desc"
    ensures ToggleDirection(ToggleDirection(direction)) == direction
  {
  }

  /** `handleSortChange(field)`: the current field flips direction; a new field starts descending. */
  function SortChange(s: SortState, field: string): (r: SortState)
    ensures r.field == field
    ensures s.field == field ==> r.direction == ToggleDirection(s.direction)
    ensures s.field != field ==> r.direction == "desc"
  {
    if s.field == field then s.(direction := ToggleDirection(s.direction))
    else SortState(field, "desc")
  }

  /** Clicking the same header twice returns to the state before the clicks. */
  lemma SortChangeTwice(s: SortState)
    requires s.direction == "asc" || s.direction == "desc"
    ensures SortChange(SortChange(s, s.field), s.field) == s
  {
  }

  /** Every state reachable from the initial one has a direction of "asc" or "desc". */
  lemma SortChangeKeepsDirection(s: SortState, field: string)
    requires s.direction == "asc" || s.direction == "desc"
    ensures var r := SortChange(s, field); r.direction == "asc" || r.direction == "desc"
  {
  }

  /** A note matches when its title, or its description when it has one, contains the
      query case-insensitively. */
  predicate Matches(q: string, n: Note) {
    MatchesCi(n.title, q) || (n.description != "" && MatchesCi(n.description, q))
  }

  function MatchesFn(q: string): Note -> bool {
    (n: Note) => Matches(q, n)
  }

  /** `filteredNotes`. */
  function FilteredNotes(notes: seq<Note>, q: string): (r: seq<Note>)
    ensures |r| <= |notes|
    ensures forall i :: 0 <= i < |r| ==> Matches(q, r[i])
    ensures multiset(r) <= multiset(notes)
  {
    Filter(notes, MatchesFn(q))
  }

  /** A note is kept exactly when it is loaded and matches. */
  lemma FilteredNotesIff(notes: seq<Note>, q: string, n: Note)
    ensures n in FilteredNotes(notes, q) <==> n in notes && Matches(q, n)
  {
    FilterMembership(notes, MatchesFn(q), n);
  }

  /** An empty query keeps every note, in order. */
  lemma EmptyQueryKeepsAll(notes: seq<Note>)
    ensures FilteredNotes(notes, "") == notes
  {
    forall i | 0 <= i < |notes| ensures MatchesFn("")(notes[i]) {
      MatchesEmpty(notes[i].title);
    }
    FilterAll(notes, MatchesFn(""));
  }

  /** The parameters of `fetchNotes`, each appended only when truthy. */
  function Query(s: SortState, category: string): (ps: Uri.QueryParams)
    ensures Uri.Names(ps) ==
      (if s.field != "" then ["sort"] else [])
      + ((if s.direction != "" then ["order"] else [])
      + (if category != "" then ["category"] else []))
    ensures s.field != "" ==> ps[0] == ("sort", s.field)
    ensures s.direction != "" ==> Uri.Lookup(ps, "order") == Some(s.direction)
    ensures category != "" ==> Uri.Lookup(ps, "category") == Some(category)
  {
    var p1 := Uri.AppendIf(s.field != "", "sort", s.field);
    var p2 := Uri.AppendIf(s.direction != "", "order", s.direction);
    var p3 := Uri.AppendIf(category != "", "category", category);
    Uri.NamesConcat(p2, p3);
    Uri.NamesConcat(p1, p2 + p3);
    Uri.LookupConcat(p1, p2 + p3, "order");
    Uri.LookupConcat(p2, p3, "order");
    Uri.LookupConcat(p1, p2 + p3, "category");
    Uri.LookupConcat(p2, p3, "category");
    p1 + (p2 + p3)
  }

  /** The initial state always sends both sort parameters. */
  lemma InitialQuery(category: string)
    ensures Uri.Lookup(Query(InitialSort, category), "sort") == Some("createdAt")
    ensures Uri.Lookup(Query(InitialSort, category), "order") == Some("desc")
  {
  }
}
