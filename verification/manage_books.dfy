/** The book administration page (`components/ManageBooks.jsx`): a search over title and
    author, a category strip built from the loaded books, and removal after a delete. */
module ManageBooks {
  import opened Wrappers
  import opened Text
  import opened Lists
  import Endpoints

  /** A book as this page reads it: title and author are read with optional chaining,
      so a missing one differs from an empty one. */
  datatype Book = Book(id: string, title: Option<string>, author: Option<string>, category: string)

  const AllCategories: string := "all"

  /** `book.title?.toLowerCase().includes(term)`: false when the field is missing. */
  predicate FieldMatches(field: Option<string>, term: string) {
    field.Some? && MatchesCi(field.value, term)
  }

  predicate Shown(term: string, category: string, b: Book) {
    (FieldMatches(b.title, term) || FieldMatches(b.author, term))
    && (category == AllCategories || b.category == category)
  }

  function ShownFn(term: string, category: string): Book -> bool {
    (b: Book) => Shown(term, category, b)
  }

  /** `filteredBooks`. */
  function FilteredBooks(books: seq<Book>, term: string, category: string): (r: seq<Book>)
    ensures forall i :: 0 <= i < |r| ==> Shown(term, category, r[i])
    ensures forall i :: 0 <= i < |r| ==> r[i].title.Some? || r[i].author.Some?
    ensures multiset(r) <= multiset(books)
  {
    Filter(books, ShownFn(term, category))
  }

  /** A book is listed exactly when it is loaded and shown, in the loaded order. */
  lemma FilteredBooksIff(books: seq<Book>, more: seq<Book>, term: string, category: string, b: Book)
    ensures b in FilteredBooks(books, term, category) <==> b in books && Shown(term, category, b)
    ensures FilteredBooks(books + more, term, category)
      == FilteredBooks(books, term, category) + FilteredBooks(more, term, category)
  {
    FilterMembership(books, ShownFn(term, category), b);
    FilterConcat(books, more, ShownFn(term, category));
  }

  /** A book with neither a title nor an author is never listed, whatever the term. */
  lemma UntitledAuthorlessHidden(books: seq<Book>, term: string, category: string, b: Book)
    requires b.title.None? && b.author.None?
    ensures b !in FilteredBooks(books, term, category)
  {
    FilterMembership(books, ShownFn(term, category), b);
  }

  /** The page's view of a book the catalogue endpoint returned. */
  function FromEndpoint(b: Endpoints.Book): Book {
    Book(b.id, Some(b.title), Some(b.author), b.category)
  }

  /** Books that went through the endpoint's defaulting always have a title, so an empty
      search lists every one of them in the selected category. */
  lemma EndpointBooksListed(raw: Endpoints.RawBook, category: string)
    requires category == AllCategories || Endpoints.NormalizeBook(raw).category == category
    ensures Shown("", category, FromEndpoint(Endpoints.NormalizeBook(raw)))
  {
    MatchesEmpty(Endpoints.NormalizeBook(raw).title);
  }

  function CategoriesOf(books: seq<Book>): (r: seq<string>)
    ensures |r| == |books|
    ensures forall i :: 0 <= i < |books| ==> r[i] == books[i].category
  {
    seq(|books|, i requires 0 <= i < |books| => books[i].category)
  }

  /** `['all', ...new Set(books.map(b => b.category))]`. */
  function Categories(books: seq<Book>): (r: seq<string>)
    ensures |r| >= 1 && r[0] == AllCategories
    ensures forall c :: c in r[1..] <==> exists i :: 0 <= i < |books| && books[i].category == c
    ensures NoDuplicates(r[1..])
  {
    var cs := CategoriesOf(books);
    var d := Distinct(cs);
    var r := [AllCategories] + d;
    assert r[1..] == d;
    forall c ensures c in d <==> exists i :: 0 <= i < |books| && books[i].category == c {
      if c in d {
        var k :| 0 <= k < |cs| && cs[k] == c;
        assert books[k].category == c;
      }
      if exists i :: 0 <= i < |books| && books[i].category == c {
        var i :| 0 <= i < |books| && books[i].category == c;
        assert cs[i] == c;
      }
    }
    r
  }

  /** The strip lists categories in the order they first appear among the books, and has
      no repeated entry unless a book is itself filed under "all". */
  lemma CategoriesOrderAndUniqueness(books: seq<Book>)
    ensures var r := Categories(books); var cs := CategoriesOf(books);
      forall i, j :: 1 <= i < j < |r| ==> FirstIndex(cs, r[i]) < FirstIndex(cs, r[j])
    ensures (forall i :: 0 <= i < |books| ==> books[i].category != AllCategories) ==> NoDuplicates(Categories(books))
  {
    var cs := CategoriesOf(books);
    var d := Distinct(cs);
    var r := Categories(books);
    assert r == [AllCategories] + d;
    DistinctFirstAppearanceOrder(cs);
    forall i, j | 1 <= i < j < |r| ensures FirstIndex(cs, r[i]) < FirstIndex(cs, r[j]) {
      assert r[i] == d[i - 1] && r[j] == d[j - 1];
    }
    if forall i :: 0 <= i < |books| ==> books[i].category != AllCategories {
      assert AllCategories !in d;
      NoDuplicatesCons(AllCategories, d);
    }
  }
}
