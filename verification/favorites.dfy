/** The per-user favorites store (`FavoritesContext`): an ordered list of notes used as
    a set keyed by note id, mirrored into storage under `favorites-<uid>` while a user
    is signed in. Each operation returns the state after React has run the effects the
    change triggers, so the storage component already reflects the save effect. */
module Favorites {
  import opened Wrappers
  import opened Entities
  import opened Storage
  import Lists

  datatype FavState = FavState(user: Option<User>, favorites: seq<Note>, storage: Store)

  /** The storage key of one user's favorites. */
  function Key(uid: string): (k: string)
    ensures |k| == |uid| + 10 && k[..10] == "favorites-" && k[10..] == uid
  {
    "favorites-" + uid
  }

  /** Distinct users never share a favorites key. */
  lemma KeyInjective(a: string, b: string)
    ensures Key(a) == Key(b) <==> a == b
  {
    if Key(a) == Key(b) {
      assert a == Key(a)[10..] == Key(b)[10..] == b;
    }
  }

  /** No favorites key collides with the keys the session and the HTTP client use. */
  lemma KeyIsNotASessionKey(uid: string)
    ensures Key(uid) != AuthTokenKey && Key(uid) != UserRoleKey && Key(uid) != ApiTokenKey
  {
    assert Key(uid)[0] == 'f';
  }

  /** `favorites.some(n => n._id === id)`. */
  predicate HasId(favorites: seq<Note>, id: string) {
    exists i :: 0 <= i < |favorites| && favorites[i].id == id
  }

  /** `isInFavorites(id)`. */
  predicate IsInFavorites(s: FavState, id: string)
    ensures IsInFavorites(s, id) <==> exists n :: n in s.favorites && n.id == id
  {
    HasId(s.favorites, id)
  }

  /** `favoritesCount`. */
  function FavoritesCount(s: FavState): (n: nat)
    ensures n == |s.favorites|
    ensures n == 0 <==> forall id :: !IsInFavorites(s, id)
  {
    if s.favorites == [] then 0
    else
      assert IsInFavorites(s, s.favorites[0].id);
      |s.favorites|
  }

  /** The save effect: with a user signed in, the list in memory is written under that user's key. */
  function Save(s: FavState): (r: FavState)
    ensures r.user == s.user && r.favorites == s.favorites
    ensures s.user.None? ==> r.storage == s.storage
    ensures s.user.Some? ==> var k := Key(s.user.value.uid);
      k in r.storage && r.storage[k] == NoteList(s.favorites) && SameExcept(s.storage, r.storage, k)
  {
    match s.user
    case None => s
    case Some(u) => s.(storage := Put(s.storage, Key(u.uid), NoteList(s.favorites)))
  }

  /** What the load effect reads: the stored list under `key`. Any stored string counts
      as no list, the way an empty string is falsy. */
  function Stored(st: Store, key: string): (r: Option<seq<Note>>)
    ensures r.Some? <==> key in st && st[key].NoteList?
    ensures r.Some? ==> st[key] == NoteList(r.value)
  {
    if key in st && st[key].NoteList? then Some(st[key].notes) else None
  }

  /** The state invariant: signed out means an empty list; signed in means the list in
      memory is exactly what is stored under the user's key. */
  predicate Consistent(s: FavState) {
    match s.user
    case None => s.favorites == []
    case Some(u) => Key(u.uid) in s.storage && s.storage[Key(u.uid)] == NoteList(s.favorites)
  }

  // ---------------------------------------------------------------------------
  // Mutations

  /** `addToFavorites(note)`. */
  function Add(s: FavState, note: Note): (r: FavState)
    ensures r.user == s.user
    ensures s.user.None? ==> r == s
    ensures HasId(s.favorites, note.id) ==> r == s
    ensures s.user.Some? && !HasId(s.favorites, note.id) ==>
      r.favorites == s.favorites + [note] && SameExcept(s.storage, r.storage, Key(s.user.value.uid))
    ensures s.user.Some? ==> IsInFavorites(r, note.id)
  {
    if s.user.None? then s
    else if HasId(s.favorites, note.id) then s
    else
      var r := Save(s.(favorites := s.favorites + [note]));
      assert r.favorites[|s.favorites|] == note;
      r
  }

  /** `removeFromFavorites(id)`. */
  function Remove(s: FavState, id: string): (r: FavState)
    ensures r.user == s.user
    ensures s.user.None? ==> r == s
    ensures s.user.Some? ==> !IsInFavorites(r, id)
    ensures s.user.Some? ==> r.favorites == Lists.RemoveKey(s.favorites, NoteId, id)
    ensures s.user.Some? ==> SameExcept(s.storage, r.storage, Key(s.user.value.uid))
  {
    if s.user.None? then s
    else Save(s.(favorites := Lists.RemoveKey(s.favorites, NoteId, id)))
  }

  /** A second add of the same note changes nothing. */
  lemma AddIdempotent(s: FavState, note: Note)
    ensures Add(Add(s, note), note) == Add(s, note)
  {
  }

  /** A fresh id grows the count by one; a known id or no user leaves it as it was. */
  lemma AddCount(s: FavState, note: Note)
    ensures s.user.Some? && !IsInFavorites(s, note.id) ==> FavoritesCount(Add(s, note)) == FavoritesCount(s) + 1
    ensures s.user.None? || IsInFavorites(s, note.id) ==> FavoritesCount(Add(s, note)) == FavoritesCount(s)
  {
  }

  /** Removal keeps every entry with another id, in order. */
  lemma RemoveKeepsOthers(s: FavState, id: string, n: Note)
    requires s.user.Some?
    ensures n in Remove(s, id).favorites <==> n in s.favorites && n.id != id
  {
    Lists.RemoveKeyKeepsOthers(s.favorites, NoteId, id, n);
  }

  /** Removing an id that is not present leaves the list unchanged. */
  lemma RemoveAbsent(s: FavState, id: string)
    requires !IsInFavorites(s, id)
    ensures Remove(s, id).favorites == s.favorites
  {
  }

  /** Adding a fresh note and removing it again restores the list. */
  lemma AddThenRemove(s: FavState, note: Note)
    requires s.user.Some? && !IsInFavorites(s, note.id)
    ensures Remove(Add(s, note), note.id).favorites == s.favorites
  {
    Lists.RemoveKeyConcat(s.favorites, [note], NoteId, note.id);
    assert Lists.RemoveKey([note], NoteId, note.id) == [];
  }

  /** Both mutations keep the store consistent with storage. */
  lemma MutationsPreserveConsistency(s: FavState, note: Note, id: string)
    requires Consistent(s)
    ensures Consistent(Add(s, note))
    ensures Consistent(Remove(s, id))
  {
  }

  // ---------------------------------------------------------------------------
  // Toggling from a note page (Home, NoteDetails and NotesShop share this handler)

  datatype ToggleEffect = RedirectToLogin | RemovedFavorite | AddedFavorite

  /** `toggleFavorite(note)`: sends a signed-out visitor to the login page; otherwise removes
      a favorited note or adds a new one. */
  function Toggle(s: FavState, note: Note): (r: (FavState, ToggleEffect))
    ensures s.user.None? ==> r == (s, RedirectToLogin)
    ensures s.user.Some? ==> (IsInFavorites(r.0, note.id) <==> !IsInFavorites(s, note.id))
    ensures s.user.Some? ==> (r.1 == RemovedFavorite <==> IsInFavorites(s, note.id))
  {
    if s.user.None? then (s, RedirectToLogin)
    else if HasId(s.favorites, note.id) then (Remove(s, note.id), RemovedFavorite)
    else (Add(s, note), AddedFavorite)
  }

  /** Toggling a note that is not a favorite twice restores the list. */
  lemma ToggleTwice(s: FavState, note: Note)
    requires s.user.Some? && !IsInFavorites(s, note.id)
    ensures Toggle(Toggle(s, note).0, note).0.favorites == s.favorites
  {
    AddThenRemove(s, note);
  }

  // ---------------------------------------------------------------------------
  // Reacting to a change of the signed-in user

  /** The commit the source performs when the user changes. The load effect schedules the
      stored list, if there is one, but does nothing when the key is absent; the save
      effect runs in the same commit with the list still in memory, and once more after
      the scheduled list arrives. */
  function OnUserChangeAsWritten(s: FavState, newUser: Option<User>): (r: FavState)
    ensures r.user == newUser
    ensures newUser.None? ==> r.favorites == [] && r.storage == s.storage
    ensures newUser.Some? ==> var k := Key(newUser.value.uid);
      r.favorites == Stored(s.storage, k).GetOr(s.favorites)
      && k in r.storage && r.storage[k] == NoteList(r.favorites)
      && SameExcept(s.storage, r.storage, k)
  {
    match newUser
    case None => s.(user := None, favorites := [])
    case Some(u) =>
      var loaded := Stored(s.storage, Key(u.uid));
      var first := Save(s.(user := newUser));
      match loaded
      case None => first
      case Some(l) => Save(first.(favorites := l))
  }

  /** As written, a direct switch from one user to another who has nothing stored hands the
      first user's list to the second and saves it under the second user's key. */
  lemma AsWrittenLeaksOnDirectSwitch()
    ensures var a := User("A", "a@example.com", "", "");
      var b := User("B", "b@example.com", "", "");
      var n := Note("n1", "Calculus", "", "printed", "Mathematics", 0, 0, 0, 0, "", "");
      var s := FavState(Some(a), [n], map[Key("A") := NoteList([n])]);
      var r := OnUserChangeAsWritten(s, Some(b));
      Consistent(s) && r.favorites == [n] && r.storage[Key("B")] == NoteList([n])
  {
    var n := Note("n1", "Calculus", "", "printed", "Mathematics", 0, 0, 0, 0, "", "");
    var st: Store := map[Key("A") := NoteList([n])];
    assert Key("B") != Key("A") by {
      assert Key("B")[10] != Key("A")[10];
    }
    assert Key("B") !in st;
  }

  /** The evident intent: a signed-in user always sees exactly what is stored under their
      own key, and an empty list when nothing is stored. */
  function OnUserChange(s: FavState, newUser: Option<User>): (r: FavState)
    ensures r.user == newUser
    ensures newUser.None? ==> r.favorites == [] && r.storage == s.storage
    ensures newUser.Some? ==> var k := Key(newUser.value.uid);
      r.favorites == Stored(s.storage, k).GetOr([])
      && k in r.storage && r.storage[k] == NoteList(r.favorites)
      && SameExcept(s.storage, r.storage, k)
  {
    match newUser
    case None => s.(user := None, favorites := [])
    case Some(u) => Save(s.(user := newUser, favorites := Stored(s.storage, Key(u.uid)).GetOr([])))
  }

  /** After a user change the list no longer depends on what was in memory before: one
      user's favorites are never shown to another. */
  lemma UserChangeIgnoresPreviousList(s: FavState, t: FavState, newUser: Option<User>)
    requires s.storage == t.storage
    ensures OnUserChange(s, newUser).favorites == OnUserChange(t, newUser).favorites
  {
  }

  /** The corrected transition differs from the source only where the source leaks: when it
      loads a list, both agree. */
  lemma UserChangeAgreesWhenStored(s: FavState, u: User)
    requires Stored(s.storage, Key(u.uid)).Some?
    ensures OnUserChange(s, Some(u)) == OnUserChangeAsWritten(s, Some(u))
  {
  }

  /** A user change keeps the store consistent. */
  lemma UserChangePreservesConsistency(s: FavState, newUser: Option<User>)
    ensures Consistent(OnUserChange(s, newUser))
  {
  }

  /** Signing out and back in as the same user restores that user's favorites. */
  lemma SignOutSignInRestores(s: FavState)
    requires Consistent(s) && s.user.Some?
    ensures OnUserChange(OnUserChange(s, None), s.user).favorites == s.favorites
  {
  }
}
