/** controllers/bookController.js: the customer's view of the catalogue. Only active books
    in stock are listed; a detail page tells whether the book can be ordered now. */
module Books {
  import opened Common
  import opened Schema
  import opened Responses
  import opened Paging
  import Listing

  /** A book the customer listing shows: active, in stock, and with a non-empty search in
      its title or author (not its isbn). */
  predicate OnSale(b: Book, search: string) {
    && b.isActive && b.stock > 0
    && (search == "" || Contains(b.title, search) || Contains(b.author, search))
  }

  function Visible(search: string): Book -> bool {
    (b: Book) => OnSale(b, search)
  }

  /** `getBooks`: one page (default 1, of default 10 rows) of the books on sale, newest
      first. The handler counts the matches and derives totalPages but sends only the rows. */
  function GetBooks(books: Table<Book>, page: Option<nat>, limit: Option<nat>, search: string): (r: Response<Table<Book>>)
    requires page.None? || page.value >= 1
    requires limit.None? || limit.value >= 1
    ensures r.status == 200 && r.body.success && r.body.data.Some? && r.body.message.None?
    ensures r.body.pagination.None?
    ensures |r.body.data.value| <= (if limit.Some? then limit.value else 10)
  {
    var p := if page.Some? then page.value else 1;
    var l := if limit.Some? then limit.value else 10;
    Responses.Success(Some(Window(NewestFirst(Where(books, Visible(search))), p, l)), None, Some(200))
  }

  /** Every book a customer is shown is active, has stock and matches the search. */
  lemma ListingOnSale(books: Table<Book>, page: Option<nat>, limit: Option<nat>, search: string)
    requires page.None? || page.value >= 1
    requires limit.None? || limit.value >= 1
    ensures forall row | row in GetBooks(books, page, limit, search).body.data.value ::
              row in books && row.val.isActive && row.val.stock > 0
              && (search == "" || Contains(row.val.title, search) || Contains(row.val.author, search))
  {
    var p := if page.Some? then page.value else 1;
    var l := if limit.Some? then limit.value else 10;
    Listing.NewestPageRows(books, Visible(search), p, l);
  }

  /** Every book on sale that matches the search is on some page, within the number of pages
      the matching books fill. */
  lemma ListingComplete(books: Table<Book>, limit: nat, search: string, k: nat) returns (page: nat)
    requires limit >= 1 && k < |books| && OnSale(books[k].val, search)
    ensures 1 <= page <= TotalPages(|Where(books, Visible(search))|, limit)
    ensures books[k] in GetBooks(books, Some(page), Some(limit), search).body.data.value
  {
    var slot;
    page, slot := Listing.NewestOnPage(books, Visible(search), limit, k);
  }

  /** The detail page: the book's fields and whether it is in stock. */
  datatype BookDetail = BookDetail(book: Row<Book>, isStockReady: bool)

  /** `getBookDetail`: a missing or inactive book is not found; a book without stock is
      shown with `isStockReady` false and its own message. */
  function GetBookDetail(books: Table<Book>, id: nat): (r: Response<BookDetail>)
    ensures r.status == 200 || r.status == 404
    ensures r.status == 404 <==> !(HasId(books, id) && books[IndexOf(books, id).value].val.isActive)
    ensures r.status == 404 ==> r.body.message == Some("Buku tidak ditemukan") && !r.body.success
    ensures r.status == 200 ==>
              && r.body.success && r.body.data.Some?
              && r.body.data.value.book == books[IndexOf(books, id).value]
              && r.body.data.value.book.id == id && r.body.data.value.book.val.isActive
              && (r.body.data.value.isStockReady <==> r.body.data.value.book.val.stock > 0)
              && (r.body.message == Some("Buku ditemukan tapi stock tidak tersedia") <==> !r.body.data.value.isStockReady)
              && (r.body.data.value.isStockReady ==> r.body.message.None?)
  {
    match ActiveBook(books, id)
    case None => NotFound(Some("Buku tidak ditemukan"))
    case Some(i) =>
      if books[i].val.stock <= 0 then
        Responses.Success(Some(BookDetail(books[i], false)), Some("Buku ditemukan tapi stock tidak tersedia"), None)
      else Responses.Success(Some(BookDetail(books[i], true)), None, None)
  }
}
