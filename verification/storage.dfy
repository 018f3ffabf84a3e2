/** Browser `localStorage` as a map from keys to stored values. Each value is either a
    plain string or a serialized list of notes (what `JSON.stringify` of a favorites
    array produces; `JSON.parse` gives the same list back). */
module Storage {
  import opened Wrappers
  import opened Entities

  datatype Stored = Str(text: string) | NoteList(notes: seq<Note>)

  type Store = map<string, Stored>

  /** The key `AuthProvider` keeps the bearer token under. */
  const AuthTokenKey: string := "auth-token"
  /** The key `AuthProvider` keeps the admin marker under. */
  const UserRoleKey: string := "userRole"
  /** The key the HTTP client reads its bearer token from. */
  const ApiTokenKey: string := "token"

  /** `localStorage.getItem(key)`. */
  function Get(st: Store, key: string): Option<Stored> {
    if key in st then Some(st[key]) else None
  }

  /** The string stored under `key`, if a string is stored there. */
  function GetText(st: Store, key: string): (r: Option<string>)
    ensures r.Some? <==> key in st && st[key].Str?
    ensures r.Some? ==> r.value == st[key].text
  {
    if key in st && st[key].Str? then Some(st[key].text) else None
  }

  /** The two stores agree on every key other than `key`. */
  ghost predicate SameExcept(a: Store, b: Store, key: string) {
    forall k :: k != key ==> (k in a <==> k in b) && (k in a ==> a[k] == b[k])
  }

  /** `localStorage.setItem(key, v)`. */
  function Put(st: Store, key: string, v: Stored): (r: Store)
    ensures key in r && r[key] == v
    ensures SameExcept(st, r, key)
  {
    st[key := v]
  }

  /** `localStorage.removeItem(key)`. */
  function Delete(st: Store, key: string): (r: Store)
    ensures key !in r
    ensures SameExcept(st, r, key)
  {
    st - {key}
  }
}
