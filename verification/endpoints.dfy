/** The catalogue endpoints of `utils/api.js`: `booksApi.getAll` and `notesApi.getAll`.
    Each checks the response envelope's `success` flag and fills every missing field of
    every record with a default, so pages can read the fields without guarding them. */
module Endpoints {
  import opened Wrappers
  import opened Text
  import HttpClient
  import Storage

  const PlaceholderImage: string := "https://via.placeholder.com/400x300?text=No+Image"
  const BooksFailure: string := "Failed to fetch books"
  const NotesFailure: string := "Failed to fetch notes"
  /** Stands for the `TypeError` that `.map` on a missing list throws; the engine's own
      wording is not modelled. */
  const MissingListError: string := "TypeError: cannot read 'map' of undefined"

  // ---------------------------------------------------------------------------
  // Request parameters

  /** `{category, _t: Date.now()}` as axios serializes it: an undefined category is dropped. */
  function BooksParams(category: Option<string>, now: int): (p: map<string, HttpClient.ParamValue>)
    ensures HttpClient.CacheBusterParam in p && p[HttpClient.CacheBusterParam] == HttpClient.PNum(now)
    ensures "category" in p <==> category.Some?
    ensures category.Some? ==> p["category"] == HttpClient.PText(category.value)
    ensures |p.Keys| <= 2
  {
    var base := map[HttpClient.CacheBusterParam := HttpClient.PNum(now)];
    match category
    case Some(c) => base["category" := HttpClient.PText(c)]
    case None => base
  }

  /** The endpoint's own time stamp never reaches the wire: the request interceptor
      overwrites it with its own clock reading. */
  lemma BooksStampOverwritten(category: Option<string>, t0: int, t1: int, headers: map<string, string>, st: Storage.Store)
    ensures var sent := HttpClient.InterceptRequest(HttpClient.RequestConfig(BooksParams(category, t0), headers), st, t1);
      sent.params == BooksParams(category, t1)
  {
  }

  // ---------------------------------------------------------------------------
  // Books

  /** A book record as the backend may send it; "" stands for a missing text field. */
  datatype RawBook = RawBook(
    id: string, title: string, bookTitle: string, author: string, authorName: string,
    description: string, price: Option<int>, category: string, imageURL: string, imgUrl: string)

  datatype Book = Book(
    id: string, title: string, author: string, description: string, price: int,
    category: string, imageURL: string)

  /** The record mapping inside `booksApi.getAll`. */
  function NormalizeBook(b: RawBook): (r: Book)
    ensures r.id == b.id && r.description == b.description
    ensures r.title != "" && r.author != "" && r.category != "" && r.imageURL != ""
    ensures r.title == (if b.title != "" then b.title else if b.bookTitle != "" then b.bookTitle else "Untitled")
    ensures r.author == (if b.author != "" then b.author else if b.authorName != "" then b.authorName else "Unknown Author")
    ensures r.imageURL == (if b.imageURL != "" then b.imageURL else if b.imgUrl != "" then b.imgUrl else PlaceholderImage)
    ensures b.category != "" ==> r.category == b.category
    ensures b.category == "" ==> r.category == "uncategorized"
    ensures r.price == b.price.GetOr(0)
  {
    Book(
      b.id,
      OrElse(b.title, OrElse(b.bookTitle, "Untitled")),
      OrElse(b.author, OrElse(b.authorName, "Unknown Author")),
      b.description,
      b.price.GetOr(0),
      OrElse(b.category, "uncategorized"),
      OrElse(b.imageURL, OrElse(b.imgUrl, PlaceholderImage)))
  }

  /** A normalized book read back as a raw record, aliases empty. */
  function BookAsRaw(b: Book): RawBook {
    RawBook(b.id, b.title, "", b.author, "", b.description, Some(b.price), b.category, b.imageURL, "")
  }

  /** Normalization is idempotent: a record that already has every field passes unchanged. */
  lemma NormalizeBookIdempotent(b: RawBook)
    ensures NormalizeBook(BookAsRaw(NormalizeBook(b))) == NormalizeBook(b)
  {
  }

  /** The response envelope; `message` is "" when absent and `books` is `None` when the
      list is missing. */
  datatype BooksResponse = BooksResponse(success: bool, message: string, books: Option<seq<RawBook>>)

  datatype BooksPage = BooksPage(success: bool, message: string, books: seq<Book>)

  /** What `booksApi.getAll` resolves or rejects with, given the unwrapped response body
      (`None` when the body is empty). A successful body without a list makes `.map`
      throw, and the call rejects with that error. */
  function GetAllBooks(response: Option<BooksResponse>): (r: Result<BooksPage, string>)
    ensures r.Ok? <==> response.Some? && response.value.success && response.value.books.Some?
    ensures response.Some? && !response.value.success && response.value.message != "" ==> r == Err(response.value.message)
    ensures (response.None? || (!response.value.success && response.value.message == "")) ==> r == Err(BooksFailure)
    ensures response.Some? && response.value.success && response.value.books.None? ==> r == Err(MissingListError)
    ensures r.Ok? ==> r.value.success && r.value.message == response.value.message
    ensures r.Ok? ==> |r.value.books| == |response.value.books.value|
    ensures r.Ok? ==> forall i :: 0 <= i < |r.value.books| ==> r.value.books[i] == NormalizeBook(response.value.books.value[i])
  {
    match response
    case None => Err(BooksFailure)
    case Some(resp) =>
      if !resp.success then Err(OrElse(resp.message, BooksFailure))
      else match resp.books
        case None => Err(MissingListError)
        case Some(raw) => Ok(BooksPage(resp.success, resp.message, seq(|raw|, i requires 0 <= i < |raw| => NormalizeBook(raw[i]))))
  }

  /** Feeding a successful page back through the endpoint changes nothing. */
  lemma GetAllBooksStable(response: BooksResponse)
    requires GetAllBooks(Some(response)).Ok?
    ensures var page := GetAllBooks(Some(response)).value;
      var again := BooksResponse(true, page.message, Some(seq(|page.books|, i requires 0 <= i < |page.books| => BookAsRaw(page.books[i]))));
      GetAllBooks(Some(again)) == Ok(page)
  {
    var page := GetAllBooks(Some(response)).value;
    var raws := seq(|page.books|, i requires 0 <= i < |page.books| => BookAsRaw(page.books[i]));
    forall i | 0 <= i < |page.books|
      ensures NormalizeBook(raws[i]) == page.books[i]
    {
      NormalizeBookIdempotent(response.books.value[i]);
    }
    var again := GetAllBooks(Some(BooksResponse(true, page.message, Some(raws)))).value;
    assert again.books == page.books;
  }

  // ---------------------------------------------------------------------------
  // Notes

  /** A note record as the backend may send it; "" stands for a missing text field. */
  datatype RawNote = RawNote(
    id: string, title: string, description: string, category: string, author: string,
    createdAt: string, downloads: Option<int>, views: Option<int>, ratings: Option<seq<int>>,
    fileUrl: string, thumbnailUrl: string)

  datatype ApiNote = ApiNote(
    id: string, title: string, description: string, category: string, author: string,
    createdAt: string, downloads: int, views: int, ratings: seq<int>,
    fileUrl: string, thumbnailUrl: string)

  /** The record mapping inside `notesApi.getAll`; `nowIso` is `new Date().toISOString()`. */
  function NormalizeNote(n: RawNote, nowIso: string): (r: ApiNote)
    ensures r.id == n.id && r.description == n.description && r.fileUrl == n.fileUrl
    ensures r.title == (if n.title != "" then n.title else "Untitled Note")
    ensures r.category == (if n.category != "" then n.category else "uncategorized")
    ensures r.author == (if n.author != "" then n.author else "Anonymous")
    ensures r.createdAt == (if n.createdAt != "" then n.createdAt else nowIso)
    ensures r.thumbnailUrl == (if n.thumbnailUrl != "" then n.thumbnailUrl else PlaceholderImage)
    ensures r.downloads == n.downloads.GetOr(0) && r.views == n.views.GetOr(0)
    ensures r.ratings == n.ratings.GetOr([])
    ensures r.title != "" && r.category != "" && r.author != "" && r.thumbnailUrl != ""
  {
    ApiNote(
      n.id,
      OrElse(n.title, "Untitled Note"),
      n.description,
      OrElse(n.category, "uncategorized"),
      OrElse(n.author, "Anonymous"),
      OrElse(n.createdAt, nowIso),
      n.downloads.GetOr(0),
      n.views.GetOr(0),
      n.ratings.GetOr([]),
      n.fileUrl,
      OrElse(n.thumbnailUrl, PlaceholderImage))
  }

  function NoteAsRaw(n: ApiNote): RawNote {
    RawNote(n.id, n.title, n.description, n.category, n.author, n.createdAt,
      Some(n.downloads), Some(n.views), Some(n.ratings), n.fileUrl, n.thumbnailUrl)
  }

  /** Normalization is idempotent, and a second pass no longer reads the clock. */
  lemma NormalizeNoteIdempotent(n: RawNote, nowIso: string, later: string)
    requires nowIso != ""
    ensures NormalizeNote(NoteAsRaw(NormalizeNote(n, nowIso)), later) == NormalizeNote(n, nowIso)
  {
  }

  /** As for books, `notes` is `None` when the list is missing. */
  datatype NotesResponse = NotesResponse(success: bool, message: string, notes: Option<seq<RawNote>>)

  datatype NotesPage = NotesPage(success: bool, message: string, notes: seq<ApiNote>)

  /** What `notesApi.getAll` resolves or rejects with; a successful body without a list
      rejects with the error `.map` throws. */
  function GetAllNotes(response: Option<NotesResponse>, nowIso: string): (r: Result<NotesPage, string>)
    ensures r.Ok? <==> response.Some? && response.value.success && response.value.notes.Some?
    ensures response.Some? && !response.value.success && response.value.message != "" ==> r == Err(response.value.message)
    ensures (response.None? || (!response.value.success && response.value.message == "")) ==> r == Err(NotesFailure)
    ensures response.Some? && response.value.success && response.value.notes.None? ==> r == Err(MissingListError)
    ensures r.Ok? ==> r.value.success && r.value.message == response.value.message
    ensures r.Ok? ==> |r.value.notes| == |response.value.notes.value|
    ensures r.Ok? ==> forall i :: 0 <= i < |r.value.notes| ==> r.value.notes[i] == NormalizeNote(response.value.notes.value[i], nowIso)
  {
    match response
    case None => Err(NotesFailure)
    case Some(resp) =>
      if !resp.success then Err(OrElse(resp.message, NotesFailure))
      else match resp.notes
        case None => Err(MissingListError)
        case Some(raw) => Ok(NotesPage(resp.success, resp.message, seq(|raw|, i requires 0 <= i < |raw| => NormalizeNote(raw[i], nowIso))))
  }

  /** A note keeps its identity and order through the endpoint: the i-th record of the
      page is the i-th record the server sent. */
  lemma GetAllNotesKeepsIds(response: NotesResponse, nowIso: string)
    requires GetAllNotes(Some(response), nowIso).Ok?
    ensures var page := GetAllNotes(Some(response), nowIso).value;
      forall i :: 0 <= i < |page.notes| ==> page.notes[i].id == response.notes.value[i].id
  {
  }
}
