/** The administration page (`components/Admin.jsx`): the cookie guard in front of it,
    the admin switch on each user and the deletes of users. Its book and blog-post deletes
    are `Deletes.AfterDelete` over those lists. */
module Admin {
  import opened Wrappers
  import opened Lists
  import Deletes

  /** The cookie jar as `js-cookie` reads it. */
  type Cookies = map<string, string>

  const RoleCookie: string := "userRole"
  const TokenCookie: string := "authToken"
  const AdminRole: string := "admin"

  /** A cookie that is present and non-empty. */
  function Cookie(c: Cookies, name: string): (r: Option<string>)
    ensures r.Some? <==> name in c && c[name] != ""
    ensures r.Some? ==> r.value == c[name]
  {
    if name in c && c[name] != "" then Some(c[name]) else None
  }

  /** The first step of `checkAdminAccess`: the token to verify with the server, or `None`
      when the page sends the visitor to the login page straight away. */
  function AccessToken(c: Cookies): (token: Option<string>)
    ensures token.Some? <==> RoleCookie in c && c[RoleCookie] == AdminRole && Cookie(c, TokenCookie).Some?
    ensures token.Some? ==> token == Cookie(c, TokenCookie)
  {
    match Cookie(c, RoleCookie)
    case None => None
    case Some(role) => if role != AdminRole then None else Cookie(c, TokenCookie)
  }

  /** `checkAdminAccess` as a whole; `verify` is the server's answer to `/verify-admin`
      (its `isAdmin` flag, or an error). The visitor stays exactly when both checks pass. */
  function StaysOnPage(c: Cookies, verify: Result<bool, string>): (stays: bool)
    ensures stays <==> AccessToken(c).Some? && verify == Ok(true)
  {
    match AccessToken(c)
    case None => false
    case Some(_) => verify.Ok? && verify.value
  }

  /** Without both cookies the server is never consulted: its answer changes nothing. */
  lemma GuardPrecedesServer(c: Cookies, v1: Result<bool, string>, v2: Result<bool, string>)
    requires RoleCookie !in c || c[RoleCookie] != AdminRole || Cookie(c, TokenCookie).None?
    ensures !StaysOnPage(c, v1) && StaysOnPage(c, v1) == StaysOnPage(c, v2)
  {
  }

  // ---------------------------------------------------------------------------
  // Lists

  datatype AdminUser = AdminUser(id: string, email: string, displayName: string, isAdmin: bool)

  function UserId(u: AdminUser): string { u.id }

  /** `handleToggleAdmin(id, wasAdmin)` once the server answered 200: the users with that
      id get `isAdmin = !wasAdmin`, everyone else is left alone. */
  function ToggleAdmin(users: seq<AdminUser>, id: string, wasAdmin: bool, answer: Deletes.Answer): (r: seq<AdminUser>)
    ensures |r| == |users|
    ensures forall i :: 0 <= i < |r| ==> r[i].(isAdmin := users[i].isAdmin) == users[i]
    ensures answer == Some(200) ==> forall i :: 0 <= i < |r| && users[i].id == id ==> r[i].isAdmin == !wasAdmin
    ensures forall i :: 0 <= i < |r| && (users[i].id != id || answer != Some(200)) ==> r[i] == users[i]
  {
    if answer == Some(200) then
      seq(|users|, i requires 0 <= i < |users| =>
        if users[i].id == id then users[i].(isAdmin := !wasAdmin) else users[i])
    else users
  }

  /** Switching a user back with the value the page then shows restores the list. */
  lemma ToggleAdminTwice(users: seq<AdminUser>, id: string, wasAdmin: bool)
    requires forall i :: 0 <= i < |users| && users[i].id == id ==> users[i].isAdmin == wasAdmin
    ensures ToggleAdmin(ToggleAdmin(users, id, wasAdmin, Some(200)), id, !wasAdmin, Some(200)) == users
  {
    var once := ToggleAdmin(users, id, wasAdmin, Some(200));
    var twice := ToggleAdmin(once, id, !wasAdmin, Some(200));
    assert forall i :: 0 <= i < |users| ==> twice[i] == users[i];
  }

  /** `handleDeleteUser`. */
  function DeleteUser(users: seq<AdminUser>, id: string, confirmed: bool, answer: Deletes.Answer): (r: seq<AdminUser>)
    ensures Deletes.Confirmed(confirmed, answer) ==> forall i :: 0 <= i < |r| ==> r[i].id != id
    ensures !Deletes.Confirmed(confirmed, answer) ==> r == users
  {
    Deletes.AfterDelete(users, UserId, id, confirmed, answer)
  }

  /** Deleting a user leaves every other user, admin flag included, in its place. */
  lemma DeleteUserKeepsOthers(users: seq<AdminUser>, id: string, u: AdminUser)
    requires u.id != id
    ensures u in DeleteUser(users, id, true, Some(200)) <==> u in users
  {
    Deletes.AfterDeleteKeepsOthers(users, [], UserId, id, true, Some(200), u);
  }
}
