# NoteCafe storefront logic in Dafny

This project models the sequential logic of the NoteCafe React storefront: its notes and books
catalogue, per-user favorites, the session context and the axios client wrapper. It models that
logic as pure functions over immutable records, sequences and a key/value map that stands for
`localStorage`. Everything the browser, Firebase or the backend would answer is a parameter.
This covers a sign-in outcome, a server reply, the outcome of each transport attempt, the clock
and a confirmation dialog.

Module layout, one module per source file or shared concern:

- `Wrappers`, `Text`, `Lists`, `Uri`: shared vocabulary.
  - `Option`/`Result`.
  - ECMAScript `trim`, ASCII case mapping, `includes`, `split`/`join`, decimal rendering and `||` on strings.
  - `filter`, removal by `_id`, `new Set` order, `slice` and an insertion sort by key.
  - `encodeURIComponent`, the `URLSearchParams` serializer and its decoder.
- `Entities`, `Storage`: the note and user records, and `localStorage` with the keys `auth-token`, `userRole` and `token`.
- `Favorites`: `contects/FavoritesContext.jsx`, as a state machine over an optional user, the list and the storage map.
- `HttpClient`, `Endpoints`: `utils/api.js`.
  - The request interceptor.
  - The retry/backoff/normalization policy, plus a `Send` method that runs a request through it.
  - The `booksApi.getAll`/`notesApi.getAll` defaulting.
- `Auth`: `contects/AuthProvider.jsx`. The provider is an oracle, and the model tracks what happens to the storage map.
- One module per page:
  - `NotesShop`, `ManageNotes`, `DashboardManage` (`dashboard/Manage.jsx`), `Home`, `Shop`;
  - `SearchBar`, `Blog`, `ManageBooks`, `UploadNotes`, `SingleNote`, `NoteDetails`;
  - `Admin` and `Profile`.
- `Deletes`: the delete-after-confirmation step the pages share.
  - `Deletes.AfterDelete` is the delete step of the pages that also check for a 200 status: the book and post deletes of `components/Admin.jsx` and of `components/Profile.jsx` (lines 140-172), and, through `Admin.DeleteUser`, the user delete.
  - `Deletes.AfterRequest` is the step of the pages that do not check the status. `components/ManageBooks.jsx` filters once `booksApi.delete` has not thrown. `dashboard/Manage.jsx` (lines 32-48) filters once the reply's body has been read as JSON.

Three behaviours of the code worth noting, each modelled as written:

- `logOut` rethrows a provider failure, and in that case removes neither storage key.
- A 401 answer removes the `token` key, which the HTTP client reads. It does not remove the `auth-token` key the session writes. So signing in never gives the HTTP client a bearer token (`Auth.SignInDoesNotAuthorizeApi`).
- The favorites load effect leaves the in-memory list alone when the new user has nothing stored, rather than clearing it. This is the first finding below.

## Model

| member | source | states |
|---|---|---|
| Favorites.FavoritesCount | src/contects/FavoritesContext.jsx:56 | the count is the length of the in-memory list, and it is zero exactly when no id is a favorite |
| Favorites.Key | src/contects/FavoritesContext.jsx:13 | the storage key is the ten characters `favorites-` followed by the whole user id |
| Favorites.KeyInjective | src/contects/FavoritesContext.jsx:25 | two users share a favorites key exactly when their ids are equal |
| Favorites.IsInFavorites | src/contects/FavoritesContext.jsx:47-49 | true exactly when some favorite carries that `_id` |
| Favorites.Save | src/contects/FavoritesContext.jsx:23-27 | with a user, the list is written under `favorites-<uid>` and no other key changes; signed out, storage is untouched |
| Favorites.KeyIsNotASessionKey | src/contects/FavoritesContext.jsx:13 | a favorites key never collides with `auth-token`, `userRole` or `token` |
| Favorites.Add | src/contects/FavoritesContext.jsx:30-37 | no-op signed out or when the `_id` is present; otherwise appends at the end, saves, and touches only the user's key |
| Favorites.Remove | src/contects/FavoritesContext.jsx:40-44 | no-op signed out; otherwise no entry with that `_id` remains and only the user's key changes |
| Favorites.AddIdempotent | src/contects/FavoritesContext.jsx:34-36 | adding the same note twice equals adding it once |
| Favorites.AddCount | src/contects/FavoritesContext.jsx:34-35 | a new note raises the count by one; otherwise the count is unchanged |
| Favorites.RemoveKeepsOthers | src/contects/FavoritesContext.jsx:43 | an entry survives a removal exactly when its `_id` differs |
| Favorites.RemoveAbsent | src/contects/FavoritesContext.jsx:43 | removing an absent id leaves the list unchanged |
| Favorites.AddThenRemove | src/contects/FavoritesContext.jsx:30-44 | removing a note just added restores the list |
| Favorites.MutationsPreserveConsistency | src/contects/FavoritesContext.jsx:23-44 | add and remove keep "memory equals the stored list of the signed-in user" |
| Favorites.Toggle | src/home/Home.jsx:226-242 | signed out, it only redirects; otherwise membership of the note's id flips, with a removal exactly when it was present |
| Favorites.ToggleTwice | src/components/NoteDetails.jsx:101-115 | toggling a non-favorite twice restores the list |
| Favorites.OnUserChangeAsWritten | src/contects/FavoritesContext.jsx:11-27 | the source's user-change commit: a signed-in user with nothing stored keeps the previous list, which is saved under the new key |
| Favorites.AsWrittenLeaksOnDirectSwitch | src/contects/FavoritesContext.jsx:11-20 | concrete switch from user A to user B: B sees A's note and it is stored under B's key |
| Favorites.OnUserChange | src/contects/FavoritesContext.jsx:11-20 | corrected: the list becomes exactly what is stored for the new user, or empty |
| Favorites.UserChangeIgnoresPreviousList | src/contects/FavoritesContext.jsx:11-20 | after a user change the list does not depend on the previous in-memory list |
| Favorites.UserChangeAgreesWhenStored | src/contects/FavoritesContext.jsx:13-16 | when a list is stored, the corrected and as-written transitions coincide |
| Favorites.UserChangePreservesConsistency | src/contects/FavoritesContext.jsx:11-27 | every user change leaves the store consistent |
| Favorites.SignOutSignInRestores | src/contects/FavoritesContext.jsx:11-20 | signing out and back in as the same user restores their favorites |
| HttpClient.ApiToken | src/utils/api.js:21-22 | the bearer token is the truthy string under `token` |
| HttpClient.InterceptRequest | src/utils/api.js:18-30 | `_t` is set to the clock and overrides a caller's `_t`; other params are kept; `Authorization` is `Bearer <token>` iff a token is stored; other headers are kept |
| HttpClient.InterceptTwice | src/utils/api.js:26-29 | a resent request is stamped afresh: intercepting twice equals intercepting once at the later time |
| HttpClient.BackoffDelay | src/utils/api.js:51-52 | the wait before resend k is 1000·k ms, between 1000 and 3000 |
| HttpClient.Normalize | src/utils/api.js:59-107 | the status and `data.message`, or 'An error occurred'; 401 additionally deletes `token` and nothing else; no response means status 0 with the network or unexpected message; the message is never empty |
| HttpClient.UnauthorizedKeepsSession | src/utils/api.js:66-70 | a 401 keeps `auth-token` and `userRole` |
| HttpClient.OnResponseError | src/utils/api.js:42-108 | a resend happens iff the failure is retryable and the counter is below 3; it increments the counter and waits 1000·counter; otherwise the request rejects with the normalized error |
| HttpClient.ClientErrorsAreNotResent | src/utils/api.js:46-59 | a 4xx is never resent |
| HttpClient.IsRetryable | src/utils/api.js:46 | a failure may be resent exactly when there was no response or its status is in the 5xx range |
| HttpClient.Send | src/utils/api.js:40-108 | 1 to 4 attempts with delays 1000, 2000, 3000; every attempt before the last failed retryably; success iff the last attempt delivered; a failure is the normalized last failure; stopping early means a non-retryable failure |
| Endpoints.BooksParams | src/utils/api.js:116-121 | `_t` is always present; `category` is present iff given |
| Endpoints.BooksStampOverwritten | src/utils/api.js:26-29 | the endpoint's own stamp is replaced by the interceptor's |
| Endpoints.NormalizeBook | src/utils/api.js:129-137 | each field follows its `\|\|` fallback chain (`title`→`bookTitle`→'Untitled', `price`→0, …); no defaulted field is empty |
| Endpoints.NormalizeBookIdempotent | src/utils/api.js:129-137 | normalizing a normalized book changes nothing |
| Endpoints.GetAllBooks | src/utils/api.js:113-146 | rejects when the body is missing or `success` is falsy, with the body's message or 'Failed to fetch books', and with the `.map` TypeError when a successful body has no `books`; otherwise maps every book in order |
| Endpoints.GetAllBooksStable | src/utils/api.js:124-142 | a successful page fed back through the endpoint is returned unchanged |
| Endpoints.NormalizeNote | src/utils/api.js:171-183 | each note field follows its fallback; `createdAt` falls back to the clock |
| Endpoints.NormalizeNoteIdempotent | src/utils/api.js:171-183 | a second normalization changes nothing and no longer reads the clock |
| Endpoints.GetAllNotes | src/utils/api.js:155-192 | rejects when the body is missing or `success` is falsy, with the message or 'Failed to fetch notes', and with the `.map` TypeError when a successful body has no `notes`; otherwise maps every note in order |
| Endpoints.GetAllNotesKeepsIds | src/utils/api.js:171-172 | the i-th note keeps the i-th `_id` |
| Auth.GetToken | src/contects/AuthProvider.jsx:191 | the stored `auth-token`, when a string is stored there |
| Auth.IsAdmin | src/contects/AuthProvider.jsx:190 | true exactly when the text stored under `userRole` is `admin` |
| Auth.GenerateToken | src/contects/AuthProvider.jsx:23-61 | no user: nothing happens; an ID token is stored under `auth-token`; otherwise the fallback is stored only when `success` and `token` are truthy; on failure the storage is untouched, the error is set and the call rejects |
| Auth.IdTokenWins | src/contects/AuthProvider.jsx:28-30 | with an ID token the fallback's answer is irrelevant |
| Auth.RefreshToken | src/contects/AuthProvider.jsx:192 | the given user, or else the signed-in one, goes through the token round |
| Auth.CreateUser | src/contects/AuthProvider.jsx:64-86 | sign-up stores a token on success; 'auth/email-already-in-use' maps to its message and other codes to the generic one; loading ends |
| Auth.LoginMessage | src/contects/AuthProvider.jsx:108-114 | the invalid-credential and too-many-requests codes map to their messages; any other code maps to the generic one |
| Auth.Login | src/contects/AuthProvider.jsx:89-119 | password sign-in: the admin marker is set iff it was set before, or the sign-in succeeded with both configured admin credentials; it is never cleared |
| Auth.LoginWithGoogle | src/contects/AuthProvider.jsx:122-145 | Google sign-in: the admin marker is set iff it was set before, or the sign-in succeeded and the account's email is the configured admin email; it is never cleared |
| Auth.LogOut | src/contects/AuthProvider.jsx:148-163 | success removes `userRole` and `auth-token` and nothing else; a provider failure leaves the storage and user as they were and propagates |
| Auth.OnAuthStateChanged | src/contects/AuthProvider.jsx:166-179 | the user follows the provider; a failing token round leaves `loading` as it was |
| Auth.LoginThenLogOut | src/contects/AuthProvider.jsx:89-163 | after sign-in and sign-out, neither a token nor the admin marker remains |
| Auth.SignInDoesNotAuthorizeApi | src/contects/AuthProvider.jsx:29 | sign-in never changes the bearer header the HTTP client adds |
| Auth.CreateUserThenLogOut | src/contects/AuthProvider.jsx:64-163 | sign-up never changes the admin marker; a successful sign-out after it leaves no user, no token and no marker |
| Auth.LogOutThenNoUserCallback | src/contects/AuthProvider.jsx:166-179 | the provider's no-user callback after a successful sign-out changes nothing further |
| Auth.ListenerStoresRefreshedToken | src/contects/AuthProvider.jsx:166-179 | a signed-in callback sets the user and stores what the token refresh for that user stores |
| NotesShop.Filtered | src/components/NotesShop.jsx:236-258 | the five guarded filter stages equal one filter by the conjunction of the active filters |
| NotesShop.FilteredIsConjunction | src/components/NotesShop.jsx:238-258 | the staged pipeline is the single conjunctive filter |
| NotesShop.FilteredAndSorted | src/components/NotesShop.jsx:235-284 | the output is a permutation of the filtered notes, sorted by the chosen key and direction; an unrecognised choice keeps the filter order |
| NotesShop.ShownPass | src/components/NotesShop.jsx:238-258 | every shown note satisfies every active filter |
| NotesShop.ShownIff | src/components/NotesShop.jsx:235-258 | a note is shown iff it was fetched and passes |
| NotesShop.SortChoices | src/components/NotesShop.jsx:260-278 | 'newest'/'oldest' sort by `createdAt` descending/ascending and 'price-low'/'price-high' by price; 'downloads' and 'rating' sort descending |
| NotesShop.NoFiltersShowAll | src/components/NotesShop.jsx:238-258 | unset filters restrict nothing |
| NotesShop.ToggleSubject | src/components/NotesShop.jsx:155-159 | a present subject is removed and an absent one appended; other subjects are unaffected |
| NotesShop.ToggleSubjectTwice | src/components/NotesShop.jsx:155-159 | toggling an absent subject twice restores the list |
| NotesShop.ToggleSubjectRemovesInPlace | src/components/NotesShop.jsx:157 | removing a subject that occurs once takes it out where it stands; the others keep their order, and so does the `subjects` query value joined from them |
| Lists.FilterDropsOne | src/components/NotesShop.jsx:157 | filtering out the single failing element between two all-passing runs leaves the two runs joined |
| NotesShop.ToggleSubjectNoDuplicates | src/components/NotesShop.jsx:155-159 | toggling keeps the subject list duplicate-free |
| NotesShop.HandleSubjectToggle | src/components/NotesShop.jsx:154-161 | the page resets to 1 and nothing else but the subjects changes |
| NotesShop.ClearFilters | src/components/NotesShop.jsx:163-168 | category, price bounds, subjects and page reset; search and sort stay |
| NotesShop.ClearedFiltersOnlySearch | src/components/NotesShop.jsx:163-168 | after a reset only the search restricts the list |
| NotesShop.QueryWith | src/components/NotesShop.jsx:59-67 | parameters appear only for truthy inputs, in source order, each with its input's value: the category, the encoded search, the sort, the page and the two price bounds in decimal, and the comma-joined subjects |
| NotesShop.QueryAsWritten | src/components/NotesShop.jsx:62 | as written, the search value is `encodeURIComponent`-ed before appending |
| NotesShop.SearchDoubleEncoded | src/components/NotesShop.jsx:62 | the search "a b" reaches the server as "a%20b" |
| NotesShop.Query | src/components/NotesShop.jsx:59-67 | corrected: the search value is appended as typed; the sort value is passed through |
| NotesShop.SearchArrivesAsTyped | src/components/NotesShop.jsx:62-69 | with single encoding an ASCII search is decoded back to itself |
| NotesShop.ClearedQuery | src/components/NotesShop.jsx:163-168 | after a reset the query carries only search, sort and page 1, with the kept search text and sort choice as values |
| Uri.EncodeUriComponent | src/components/NotesShop.jsx:62 | never shorter; the same length iff every character is unreserved |
| Uri.EncodeUriIdentityIff | src/home/Home.jsx:247 | encoding changes a string iff it has a reserved character |
| Uri.EncodeUriIsAscii | src/home/Home.jsx:247 | the encoding is pure ASCII |
| Uri.FormRoundTrip | src/components/NotesShop.jsx:69 | decoding undoes the `URLSearchParams` serializer on ASCII text |
| Uri.Lookup | src/components/NotesShop.jsx:59-67 | the first value with that name; `None` iff the name is absent |
| ManageNotes.ToggleDirection | src/components/ManageNotes.jsx:134-136 | 'asc' becomes 'desc' and anything else becomes 'asc' |
| ManageNotes.ToggleDirectionTwice | src/components/ManageNotes.jsx:134-136 | twice from 'asc' or 'desc' restores it |
| ManageNotes.SortChange | src/components/ManageNotes.jsx:138-145 | the same field toggles the direction; a new field is set with 'desc' |
| ManageNotes.SortChangeTwice | src/components/ManageNotes.jsx:138-145 | clicking the current field twice restores the state |
| ManageNotes.SortChangeKeepsDirection | src/components/ManageNotes.jsx:138-145 | the direction stays 'asc' or 'desc' from the initial state on |
| ManageNotes.FilteredNotesIff | src/components/ManageNotes.jsx:147-150 | a note is kept iff its title, or its non-empty description, contains the query case-insensitively |
| ManageNotes.FilteredNotes | src/components/ManageNotes.jsx:147-150 | every kept note matches the query, and the result draws on the notes without adding any |
| ManageNotes.EmptyQueryKeepsAll | src/components/ManageNotes.jsx:147-150 | an empty query keeps every note in order |
| ManageNotes.Query | src/components/ManageNotes.jsx:43-46 | `sort`, `order` and `category` appear only when truthy, in that order |
| ManageNotes.InitialQuery | src/components/ManageNotes.jsx:12-45 | the initial state sends sort=createdAt and order=desc |
| DashboardManage.FilteredBooksIff | src/dashboard/Manage.jsx:51 | a book is kept iff `bookTitle` contains the term; the order is preserved |
| DashboardManage.FilteredBooks | src/dashboard/Manage.jsx:51 | every kept book has the term in its `bookTitle`, and the result draws on the books without adding any |
| DashboardManage.Page | src/dashboard/Manage.jsx:53-55 | page p is `filtered[(p-1)·10 .. p·10)` clamped; at most 10 rows |
| DashboardManage.PageCount | src/dashboard/Manage.jsx:121 | ceil(n/10): the least k with 10k ≥ n |
| DashboardManage.PagesUpToPrefix | src/dashboard/Manage.jsx:53-55 | pages 1..k are the first 10k rows |
| DashboardManage.PagesCoverList | src/dashboard/Manage.jsx:53-55 | pages 1..ceil(n/10) concatenate to the filtered list |
| DashboardManage.RowNumberIsGlobalPosition | src/dashboard/Manage.jsx:97 | row i of page p shows the book at 1-based position (p-1)·10+i+1 |
| Home.FilteredNotesIff | src/home/Home.jsx:219-224 | a note is kept iff it matches the title, or its subject when present, and the category is 'all' or equal |
| Home.FilteredNotes | src/home/Home.jsx:219-224 | every kept note is shown by the filter, is in the chosen category unless that is 'all', and comes from the input |
| Home.NoFilterShowsAll | src/home/Home.jsx:219-224 | an empty term with 'all' keeps every note in order |
| Home.ToggleFavoriteOnlyThatNote | src/home/Home.jsx:226-242 | the heart changes only that note's membership; signed out, it redirects |
| Home.RemoveLeavesOther | src/contects/FavoritesContext.jsx:40-44 | removing one id leaves every other id's favorite membership as it was |
| Home.AddLeavesOther | src/contects/FavoritesContext.jsx:30-37 | adding a new note leaves every other id's favorite membership as it was |
| Home.HandleSearch | src/home/Home.jsx:244-249 | navigates iff the term is not blank, to `/notes?search=` plus the encoded untrimmed term |
| Home.HandleSearchTarget | src/home/Home.jsx:247 | the target is ASCII; unreserved terms are carried verbatim |
| Shop.Query | src/components/Shop.jsx:71-89 | page and limit=12 come first and always; `category` iff not 'all'; `subject` iff non-empty and not 'All Subjects'; `sort` and `search` iff non-empty |
| Shop.HandleSearch | src/components/Shop.jsx:113-117 | the page resets to 1 and nothing else changes |
| Shop.ClearFilters | src/components/Shop.jsx:119-125 | category 'all', subject 'All Subjects', sort 'newest', empty search, page 1 |
| Shop.ClearedQuery | src/components/Shop.jsx:119-125 | after a reset the parameters are exactly page=1, limit=12, sort=newest |
| Shop.ClearedMatchesInitial | src/components/Shop.jsx:119-125 | a reset fetches what the page fetched when it opened |
| SearchBar.FilteredSuggestions | src/components/SearchBar.jsx:47-53 | at most 4 suggestions, each matching title, category or excerpt; the prefix of the match list |
| SearchBar.OfferedAreMatching | src/components/SearchBar.jsx:47-52 | each suggestion is one of the inputs and matches |
| SearchBar.EmptyTermOffersFirst | src/components/SearchBar.jsx:47-53 | an empty term offers the first four suggestions |
| SearchBar.SearchChange | src/components/SearchBar.jsx:34-39 | the list opens iff the new value is non-empty |
| SearchBar.SearchChangeOffers | src/components/SearchBar.jsx:34-53 | typing an empty value offers nothing; a non-empty one offers the filtered suggestions for it, each a matching input |
| SearchBar.Focus | src/components/SearchBar.jsx:79 | focusing opens the list and keeps the term |
| SearchBar.ClickClosesThenFocusReopens | src/components/SearchBar.jsx:41-79 | after a click nothing is offered; focusing again offers the suggestions for the clicked title |
| SearchBar.SuggestionClick | src/components/SearchBar.jsx:41-45 | the term becomes the title and the list closes |
| SearchBar.ClickedSuggestionStillMatches | src/components/SearchBar.jsx:41-52 | the clicked suggestion matches the new term |
| Blog.FilteredPostsIff | src/components/Blog.jsx:116-121 | a post is kept iff its title or excerpt matches and the category is 'all' or equal; the order is preserved |
| Blog.FilteredPosts | src/components/Blog.jsx:116-121 | no more posts than given, each shown by the filter and drawn from the input |
| Blog.TypedTermFiltersPage | src/components/Blog.jsx:108-121 | after typing a value, a post is on the page iff it is one of the posts and matches that value and the category |
| Blog.NoFilterShowsAll | src/components/Blog.jsx:116-121 | an empty term with 'all' keeps every post |
| Blog.AllPostsShown | src/components/Blog.jsx:21-121 | the opening page shows all six posts |
| Blog.SuggestionClick | src/components/Blog.jsx:112-114 | the term becomes the post's title and that post stays shown |
| Blog.SuggestedPostIsShown | src/components/Blog.jsx:116-121 | a post the box suggests is on the page, unless only its category matched |
| ManageBooks.FilteredBooksIff | src/components/ManageBooks.jsx:58-63 | a book is kept iff a present title or author matches and the category is 'all' or equal; the order is preserved |
| ManageBooks.FilteredBooks | src/components/ManageBooks.jsx:58-63 | every kept book is shown by the filter, has a title or an author, and comes from the input |
| ManageBooks.UntitledAuthorlessHidden | src/components/ManageBooks.jsx:59-60 | a book with neither title nor author is never kept |
| ManageBooks.EndpointBooksListed | src/components/ManageBooks.jsx:23-63 | books defaulted by the endpoint are always listed for an empty term |
| ManageBooks.Categories | src/components/ManageBooks.jsx:65 | 'all' first, then exactly the book categories, without repeats |
| ManageBooks.CategoriesOrderAndUniqueness | src/components/ManageBooks.jsx:65 | categories appear in first-appearance order; no repeat unless a book is filed under 'all' |
| Deletes.AfterRequest | src/components/ManageBooks.jsx:45-56 | once the user confirmed and the request went through, whatever its status, no book with that id remains; otherwise the list is unchanged |
| Deletes.AfterRequestKeepsOthers | src/components/ManageBooks.jsx:49 | a delete that went through removes exactly that id; the rest keep their order |
| UploadNotes.Tags | src/components/UploadNotes.jsx:79-85 | one tag more than there are commas; the i-th tag is the i-th comma-free piece of the text, trimmed, and those pieces joined with ',' give back the text |
| UploadNotes.TagChange | src/components/UploadNotes.jsx:79-85 | only the tags change |
| UploadNotes.TagsRoundTrip | src/components/UploadNotes.jsx:80 | tags typed without white space join back to the input |
| UploadNotes.FirstInvalid | src/components/UploadNotes.jsx:87-113 | reports the first failing field in the order title, description, subject, price, file, thumbnail; `None` iff all pass |
| UploadNotes.ValidateForm | src/components/UploadNotes.jsx:87-113 | true iff no text field is blank after trim and a subject is chosen |
| UploadNotes.FirstInvalidDependsOnEarlierFields | src/components/UploadNotes.jsx:88-111 | the reported field depends only on it and the fields before it |
| UploadNotes.BuildNote | src/components/UploadNotes.jsx:147-164 | the preview falls back to the thumbnail and the author name to 'Anonymous'; downloads = views = 0 and ratings = [] |
| UploadNotes.Submit | src/components/UploadNotes.jsx:115-130 | guards in order: API not connected, then no user or email, then an invalid form; a post happens only after all three pass |
| UploadNotes.PostedNotesAreComplete | src/components/UploadNotes.jsx:118-164 | every posted note has its required fields non-blank and an author email |
| SingleNote.AverageRating | src/components/SingleNote.jsx:45-49 | 0 for missing or empty ratings; otherwise the mean of the values |
| SingleNote.SumBounds | src/components/SingleNote.jsx:47 | n values within [lo, hi] sum to within [n·lo, n·hi] |
| SingleNote.AverageWithinRange | src/components/SingleNote.jsx:45-49 | the mean lies between the least and the greatest allowed value |
| SingleNote.RenderStars | src/components/SingleNote.jsx:52-68 | exactly five icons: full through floor(r), a half at floor(r)+1 iff the fraction is ≥ 0.5, empty otherwise |
| SingleNote.AtMostOneHalfStar | src/components/SingleNote.jsx:55-61 | at most one half icon, and only empty icons after it |
| SingleNote.WholeRatingStars | src/components/SingleNote.jsx:54-63 | a whole rating k draws k full icons and no half |
| SingleNote.FindByUser | src/components/SingleNote.jsx:194 | the first rating by that user, or `None` iff there is none |
| SingleNote.LoadOwnRating | src/components/SingleNote.jsx:192-200 | an existing rating loads its value and comment; otherwise the form is untouched |
| SingleNote.LoadOwnRatingIff | src/components/SingleNote.jsx:192-200 | the form changes only when the user has rated |
| NoteDetails.TogglePreview | src/components/NoteDetails.jsx:93-99 | visibility flips iff a preview address exists; otherwise an error is reported |
| NoteDetails.TogglePreviewTwice | src/components/NoteDetails.jsx:93-99 | two clicks restore the visibility |
| NoteDetails.Label | src/components/NoteDetails.jsx:306 | a price is shown iff price > 0; otherwise 'Download Free' |
| NoteDetails.LabelAgreesWithPriceFilter | src/components/NoteDetails.jsx:306 | a note the shop's "free" filter (max price 0) passes is labelled 'Download Free'; one a positive minimum passes shows its price |
| NoteDetails.FileType | src/components/NoteDetails.jsx:469 | the upper-cased text after the last '.', or the whole URL when there is none, or 'Document' when that is empty |
| NoteDetails.FileTypeOfExtension | src/components/NoteDetails.jsx:469 | `name.ext` has type `EXT` |
| Admin.AccessToken | src/components/Admin.jsx:20-26 | a token is found iff the `userRole` cookie is 'admin' and the `authToken` cookie is non-empty; that token is the cookie's value |
| Admin.StaysOnPage | src/components/Admin.jsx:19-41 | the visitor stays iff both cookies pass and the server confirms `isAdmin` |
| Admin.GuardPrecedesServer | src/components/Admin.jsx:23-26 | without the cookies the server's answer is irrelevant |
| Admin.ToggleAdmin | src/components/Admin.jsx:96-115 | after a 200, users with that id get `isAdmin = !wasAdmin`; the length is kept and everyone else is unchanged |
| Admin.ToggleAdminTwice | src/components/Admin.jsx:106-110 | toggling back with the shown value restores the list |
| Admin.DeleteUser | src/components/Admin.jsx:79-93 | after confirmation and a 200, no user with that id remains; otherwise the list is unchanged |
| Deletes.AfterDelete | src/components/Admin.jsx:117-149 | after confirmation and a 200, no book or post with that id remains; a refusal, a thrown request or another status leaves the list unchanged |
| Admin.DeleteUserKeepsOthers | src/components/Admin.jsx:88 | a confirmed delete keeps every other user unchanged |
| Deletes.AfterDeleteKeepsOthers | src/components/Admin.jsx:126 | exactly the records with that id go, the rest keep their order |
| Profile.InputChange | src/components/Profile.jsx:95-101 | only the named field changes |
| Profile.InputChangeRestores | src/components/Profile.jsx:95-101 | typing the old value back restores the profile |
| Profile.AddSkill | src/components/Profile.jsx:103-111 | a non-blank entry is appended trimmed and the box cleared; a blank one changes nothing |
| Profile.AddSkillTwice | src/components/Profile.jsx:103-111 | a second click right after adding changes nothing |
| Profile.RemoveSkill | src/components/Profile.jsx:113-118 | every copy of the skill goes and nothing else changes |
| Profile.RemoveSkillKeepsOthers | src/components/Profile.jsx:113-118 | exactly the other skills survive |
| Profile.RemoveSkillInOrder | src/components/Profile.jsx:113-118 | the filter works skill by skill in order: another skill stays, the removed one goes, and a joined list gives the joined results |
| Profile.RemoveUndoesAdd | src/components/Profile.jsx:103-118 | removing a skill right after adding it as new restores the skill list |
| Lists.DistinctFirstAppearanceOrder | src/components/ManageBooks.jsx:65 | `new Set` keeps first-appearance order |
| Text.TrimEmptyIff | src/components/UploadNotes.jsx:88 | `!s.trim()` holds iff every character is ECMAScript white space |
| Text.LastPieceIsLastOfSplit | src/components/NoteDetails.jsx:469 | `split('.').pop()` is the text after the last '.' |
| Text.JoinSplit | src/components/UploadNotes.jsx:80 | joining the pieces of a split restores the string |

## Left out
- SingleNote.AverageRating, SingleNote.RenderStars: `calculateAverageRating` and `renderStars` (`components/SingleNote.jsx:45`, `:52`) are defined but never called by the page, so these members describe what the helpers compute, not anything the page shows.
- Endpoints.GetAllBooks, Endpoints.GetAllNotes: the rejection for a missing list is a fixed stand-in text. The engine's own `TypeError` message is not modelled.
- Network, Firebase, cookies and timers. The axios instance configuration (15 s timeout, credentials) is not modelled. Backoff waits are returned as numbers. Provider calls, server replies and transport attempts are parameters.
- UI effects: toasts, navigation, `window.open`, share/clipboard, animations, rendering and the upload progress timer.
- `JSON.stringify`/`JSON.parse`: favorites are stored as a note list, not as text. The model reads any non-list value under a favorites key as nothing stored. In the source only the empty string behaves that way. Other non-JSON text makes `JSON.parse` in the load effect (`contects/FavoritesContext.jsx:14`) throw, so the effect fails instead of keeping the list. Valid JSON that is not a list is set as the favorites and breaks the later `.some` and `.filter` calls.
- Floating point and dates:
  - `toFixed`, `parseFloat` and `Number()` are not modelled. Price bounds are `Option<int>`, `None` for an empty input.
  - `createdAt` is an integer timestamp and `new Date()` is a parameter.
  - The upload form keeps its price as text.
  - `SingleNote.AverageRating` works over reals.
- Unicode case mapping: `toLowerCase`/`toUpperCase` map ASCII letters only.
- Uri.FormRoundTrip: the decoder is proved exact for ASCII text only, because it turns each `%XX` into one character instead of reassembling UTF-8.
- Lists.SortBy: the sort is proved ordered and a permutation. Its stability is not stated.
- Optional text fields that the pages test with `x && x.includes(q)` are strings with "" for absent. For these guarded fields only, this gives the same result as the source.
- Fields the pages read without a guard are assumed present. These are `note.title` and `note.description` in `components/NotesShop.jsx:244-245`, `note.title` in `components/ManageNotes.jsx:148` and `home/Home.jsx:220`, and `book.bookTitle` in `dashboard/Manage.jsx:51`. In the source, a record missing one of them makes `toLowerCase` throw a TypeError and the page fails to render. The model instead reads the missing field as "" and filters the record like any other. These pages fetch raw records, not through the endpoint defaulting.
- NotesShop.FilteredAndSorted: the numeric sort keys (`createdAt`, `price`, `downloads`, `rating`) are assumed present on every note. A note without one makes the source comparator return `NaN` (`b.rating - a.rating` at `components/NotesShop.jsx:277`, for instance). UploadNotes posts such notes: it sets `ratings: []` but no `rating`. `Array.prototype.sort` then treats the pair as equal, and with an inconsistent comparator the resulting order is implementation-defined. The model sorts by an integer key instead.
- Profile.InputChange: an input name outside the four text fields, which would add a new key, is not modelled. No input on the page sets a name.
- Profile.InputChange, Profile.AddSkill, Profile.RemoveSkill: `handleInputChange`, `handleAddSkill` and `handleRemoveSkill` (`components/Profile.jsx:95-118`) are defined but never wired to a control, so these members describe what the handlers would compute, not anything the page does.
- Profile photo picking (`handleImageChange`, `components/Profile.jsx:84-93`): reading a file into a data-URL preview is file I/O and is not modelled.
- Profile saving (`handleSave`, `components/Profile.jsx:120-138`): it is a server `PUT` whose reply replaces the profile. The reply is server data, so it is not modelled.
- Auth.Login, Auth.LoginWithGoogle, Auth.CreateUser: each handler is modelled as one atomic step. In the source, a successful sign-in also fires the `onAuthStateChanged` listener (`contects/AuthProvider.jsx:166-176`), which runs its own token round while the handler's round (`:94`) is still pending. That interleaving is not composed. So `r.0.error == None` after a successful handler holds only for the handler alone: a failing listener round can set the server error message (`:57`) after the handler has cleared the error and resolved. Which `auth-token` ends up stored is also last-writer-wins between the two rounds. `Auth.OnAuthStateChanged` and `Auth.ListenerStoresRefreshedToken` state the listener's step on its own.
- `PrivateRoute`, the route table, the admin seeding script and the presentational pages are not part of this model.

## Findings

| source | as written | input that shows it | evidently intended | confidence | as-written member | corrected member |
|---|---|---|---|---|---|---|
| src/contects/FavoritesContext.jsx:11-20 | when the new user has no stored list, the load effect does nothing, so the previous user's list stays in memory and the save effect writes it under the new user's key | user A, with favorite n1 stored, switches directly to user B, who has nothing stored | each user sees exactly their own stored list, or an empty one | medium, not executed | Favorites.AsWrittenLeaksOnDirectSwitch | Favorites.UserChangeIgnoresPreviousList |
| src/components/NotesShop.jsx:62 | the search text is passed through `encodeURIComponent` and then encoded again by `URLSearchParams.toString()` | search "a b" is received by the server as "a%20b" | the serializer encodes the text once and the server receives "a b" | high, not executed | NotesShop.SearchDoubleEncoded | NotesShop.SearchArrivesAsTyped |
