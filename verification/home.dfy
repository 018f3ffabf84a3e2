/** The landing page (`home/Home.jsx`): the featured-notes search and category filter,
    the favourite heart on each card, and the search box that hands over to the catalogue. */
module Home {
  import opened Wrappers
  import opened Entities
  import opened Text
  import opened Lists
  import Favorites
  import Uri

  const AllCategories: string := "all"

  /** A note is shown when the term is in its title, or in its subject when it has one,
      and the selected category is "all" or the note's own. */
  predicate Shown(term: string, category: string, n: Note) {
    (MatchesCi(n.title, term) || (n.subject != "" && MatchesCi(n.subject, term)))
    && (category == AllCategories || n.category == category)
  }

  function ShownFn(term: string, category: string): Note -> bool {
    (n: Note) => Shown(term, category, n)
  }

  /** `filteredNotes`. */
  function FilteredNotes(notes: seq<Note>, term: string, category: string): (r: seq<Note>)
    ensures forall i :: 0 <= i < |r| ==> Shown(term, category, r[i])
    ensures category != AllCategories ==> forall i :: 0 <= i < |r| ==> r[i].category == category
    ensures multiset(r) <= multiset(notes)
  {
    Filter(notes, ShownFn(term, category))
  }

  /** A note is listed exactly when it is loaded and shown; the list keeps the fetched order. */
  lemma FilteredNotesIff(notes: seq<Note>, more: seq<Note>, term: string, category: string, n: Note)
    ensures n in FilteredNotes(notes, term, category) <==> n in notes && Shown(term, category, n)
    ensures FilteredNotes(notes + more, term, category)
      == FilteredNotes(notes, term, category) + FilteredNotes(more, term, category)
  {
    FilterMembership(notes, ShownFn(term, category), n);
    FilterConcat(notes, more, ShownFn(term, category));
  }

  /** No term and "all" categories show every note in order. */
  lemma NoFilterShowsAll(notes: seq<Note>)
    ensures FilteredNotes(notes, "", AllCategories) == notes
  {
    forall i | 0 <= i < |notes| ensures ShownFn("", AllCategories)(notes[i]) {
      MatchesEmpty(notes[i].title);
    }
    FilterAll(notes, ShownFn("", AllCategories));
  }

  /** The heart on a card toggles that note and leaves every other favourite as it was;
      signed out, it only redirects to the login page. */
  lemma ToggleFavoriteOnlyThatNote(s: Favorites.FavState, note: Note, other: string)
    requires other != note.id
    ensures var r := Favorites.Toggle(s, note);
      Favorites.IsInFavorites(r.0, other) == Favorites.IsInFavorites(s, other)
    ensures s.user.None? ==> Favorites.Toggle(s, note).1 == Favorites.RedirectToLogin
  {
    if s.user.Some? {
      if Favorites.IsInFavorites(s, note.id) {
        RemoveLeavesOther(s, note.id, other);
      } else {
        AddLeavesOther(s, note, other);
      }
    }
  }

  /** A removal by id leaves any other id's membership as it was. */
  lemma RemoveLeavesOther(s: Favorites.FavState, id: string, other: string)
    requires s.user.Some? && other != id
    ensures Favorites.IsInFavorites(Favorites.Remove(s, id), other) == Favorites.IsInFavorites(s, other)
  {
    var r := Favorites.Remove(s, id);
    if Favorites.IsInFavorites(s, other) {
      var i :| 0 <= i < |s.favorites| && s.favorites[i].id == other;
      Favorites.RemoveKeepsOthers(s, id, s.favorites[i]);
      var j :| 0 <= j < |r.favorites| && r.favorites[j] == s.favorites[i];
      assert r.favorites[j].id == other;
    }
    if Favorites.IsInFavorites(r, other) {
      var j :| 0 <= j < |r.favorites| && r.favorites[j].id == other;
      Favorites.RemoveKeepsOthers(s, id, r.favorites[j]);
      var i :| 0 <= i < |s.favorites| && s.favorites[i] == r.favorites[j];
      assert s.favorites[i].id == other;
    }
  }

  /** Appending a note not yet present leaves any other id's membership as it was. */
  lemma AddLeavesOther(s: Favorites.FavState, note: Note, other: string)
    requires s.user.Some? && other != note.id && !Favorites.IsInFavorites(s, note.id)
    ensures Favorites.IsInFavorites(Favorites.Add(s, note), other) == Favorites.IsInFavorites(s, other)
  {
    var r := Favorites.Add(s, note);
    assert r.favorites == s.favorites + [note];
    if Favorites.IsInFavorites(r, other) {
      var j :| 0 <= j < |r.favorites| && r.favorites[j].id == other;
      assert s.favorites[j].id == other;
    }
    if Favorites.IsInFavorites(s, other) {
      var i :| 0 <= i < |s.favorites| && s.favorites[i].id == other;
      assert r.favorites[i].id == other;
    }
  }

  const NotesSearchPrefix: string := "/notes?search="

  /** `handleSearch`: the address the page moves to, or `None` when the term is blank.
      The term itself, untrimmed, is what gets encoded. */
  function HandleSearch(term: string): (target: Option<string>)
    ensures target.Some? <==> !AllSpace(term)
    ensures target.Some? ==> target.value == NotesSearchPrefix + Uri.EncodeUriComponent(term)
  {
    TrimEmptyIff(term);
    if Trim(term) != "" then Some(NotesSearchPrefix + Uri.EncodeUriComponent(term)) else None
  }

  /** The address is plain ASCII whatever the term, and a term of unreserved characters
      is carried verbatim. */
  lemma HandleSearchTarget(term: string)
    requires !AllSpace(term)
    ensures Uri.IsAscii(HandleSearch(term).value[|NotesSearchPrefix|..])
    ensures (forall i :: 0 <= i < |term| ==> Uri.IsUriUnreserved(term[i]))
      ==> HandleSearch(term).value == NotesSearchPrefix + term
  {
    Uri.EncodeUriIsAscii(term);
    Uri.EncodeUriIdentityIff(term);
    assert HandleSearch(term).value[|NotesSearchPrefix|..] == Uri.EncodeUriComponent(term);
  }
}
