/** The dashboard's book table (`dashboard/Manage.jsx`): a title search, ten rows per
    page, page buttons, global row numbers and removal after a delete. */
module DashboardManage {
  import opened Text
  import opened Lists

  /** A book row as the table reads it. */
  datatype Book = Book(id: string, bookTitle: string, authorName: string, category: string, price: int)

  const BooksPerPage: nat := 10

  function TitleMatchesFn(term: string): Book -> bool {
    (b: Book) => MatchesCi(b.bookTitle, term)
  }

  /** `filteredBooks`. */
  function FilteredBooks(books: seq<Book>, term: string): (r: seq<Book>)
    ensures forall i :: 0 <= i < |r| ==> MatchesCi(r[i].bookTitle, term)
    ensures multiset(r) <= multiset(books)
  {
    Filter(books, TitleMatchesFn(term))
  }

  /** A book is listed exactly when its title contains the term; listed books keep their order. */
  lemma FilteredBooksIff(books: seq<Book>, more: seq<Book>, term: string, b: Book)
    ensures b in FilteredBooks(books, term) <==> b in books && MatchesCi(b.bookTitle, term)
    ensures FilteredBooks(books + more, term) == FilteredBooks(books, term) + FilteredBooks(more, term)
  {
    FilterMembership(books, TitleMatchesFn(term), b);
    FilterConcat(books, more, TitleMatchesFn(term));
  }

  function Min(a: int, b: int): int { if a <= b then a else b }

  /** `filteredBooks.slice((page - 1) * 10, page * 10)`. */
  function Page<T>(xs: seq<T>, page: int): (r: seq<T>)
    ensures |r| <= BooksPerPage
    ensures page >= 1 ==> r == xs[Min((page - 1) * BooksPerPage, |xs|)..Min(page * BooksPerPage, |xs|)]
  {
    Slice(xs, page * BooksPerPage - BooksPerPage, page * BooksPerPage)
  }

  /** `Math.ceil(n / 10)`: the number of page buttons. */
  function PageCount(n: nat): (k: nat)
    ensures k * BooksPerPage >= n
    ensures k > 0 ==> (k - 1) * BooksPerPage < n
  {
    (n + BooksPerPage - 1) / BooksPerPage
  }

  /** Pages 1 to k, one after another. */
  function PagesUpTo<T>(xs: seq<T>, k: nat): seq<T> {
    if k == 0 then [] else PagesUpTo(xs, k - 1) + Page(xs, k)
  }

  /** The first k pages are the first `10 * k` rows. */
  lemma {:induction false} PagesUpToPrefix<T>(xs: seq<T>, k: nat)
    ensures PagesUpTo(xs, k) == xs[..Min(k * BooksPerPage, |xs|)]
  {
    if k > 0 {
      PagesUpToPrefix(xs, k - 1);
      var a := Min((k - 1) * BooksPerPage, |xs|);
      var b := Min(k * BooksPerPage, |xs|);
      assert xs[..a] + xs[a..b] == xs[..b];
    }
  }

  /** Walking through every page button shows every listed row exactly once, in order. */
  lemma PagesCoverList<T>(xs: seq<T>)
    ensures PagesUpTo(xs, PageCount(|xs|)) == xs
  {
    PagesUpToPrefix(xs, PageCount(|xs|));
  }

  /** The number shown in a row: `indexOfFirstBook + index + 1`. */
  function RowNumber(page: int, index: int): int {
    (page - 1) * BooksPerPage + index + 1
  }

  /** Row i of page p shows the book at global 1-based position `RowNumber(p, i)`. */
  lemma RowNumberIsGlobalPosition<T>(xs: seq<T>, page: int, i: int)
    requires page >= 1 && 0 <= i < |Page(xs, page)|
    ensures 1 <= RowNumber(page, i) <= |xs|
    ensures Page(xs, page)[i] == xs[RowNumber(page, i) - 1]
  {
  }
}
