/** controllers/admin/bookController.js: the administrator's catalogue. Listing with search,
    active filter and pages; creating and editing books with validation; adjusting stock,
    which never goes negative; and soft deletion. Prices are in cents. */
module AdminBooks {
  import opened Common
  import opened Schema
  import opened Responses
  import opened Paging
  import Listing
  import Store

  // ---------------------------------------------------------------------------
  // getAllBooks

  /** `%search%` on title, author or isbn (a null isbn matches nothing). */
  predicate Like(b: Book, search: string) {
    Contains(b.title, search) || Contains(b.author, search) || (b.isbn.Some? && Contains(b.isbn.value, search))
  }

  /** A book the listing shows: it matches a non-empty search, and its active flag equals
      `isActive === 'true'` when that parameter is given. */
  predicate Matches(b: Book, search: string, isActive: Option<string>) {
    && (search == "" || Like(b, search))
    && (isActive.None? || b.isActive == (isActive.value == "true"))
  }

  /** The query's `where` object: each condition present only when added. */
  datatype BookWhere = BookWhere(like: Option<string>, active: Option<bool>)

  function Admits(w: BookWhere): Book -> bool {
    (b: Book) => (w.like.None? || Like(b, w.like.value)) && (w.active.None? || b.isActive == w.active.value)
  }

  function Listed(search: string, isActive: Option<string>): Book -> bool {
    (b: Book) => Matches(b, search, isActive)
  }

  datatype BookPage = BookPage(books: Table<Book>, pagination: Pagination)

  function OrDefault(x: Option<nat>, d: nat): nat {
    if x.Some? then x.value else d
  }

  /** `getAllBooks`: page (default 1) and limit (default 10) of the matching books, newest
      first, with the count of all matching books and the number of pages. */
  method GetAllBooks(books: Table<Book>, page: Option<nat>, limit: Option<nat>, search: string,
                     isActive: Option<string>)
    returns (r: Response<BookPage>)
    requires page.None? || page.value >= 1
    requires limit.None? || limit.value >= 1
    ensures var p, l := OrDefault(page, 1), OrDefault(limit, 10);
            var listed := Where(books, Listed(search, isActive));
            && r.status == 200 && r.body.success && r.body.data.Some?
            && r.body.data.value.pagination == Pagination(p, l, |listed|, TotalPages(|listed|, l))
            && r.body.data.value.books == Window(NewestFirst(listed), p, l)
  {
    var p, l := OrDefault(page, 1), OrDefault(limit, 10);
    var where := BookWhere(None, None);
    if search != "" {
      where := where.(like := Some(search));
    }
    if isActive.Some? {
      where := where.(active := Some(isActive.value == "true"));
    }
    var rows := Where(books, Admits(where));
    WhereSame(books, Admits(where), Listed(search, isActive));
    var count := |rows|;
    r := Responses.Success(Some(BookPage(Window(NewestFirst(rows), p, l), Pagination(p, l, count, TotalPages(count, l)))),
                           None, None);
  }

  /** Every matching book is listed on some page within totalPages. */
  lemma ListedOnPage(books: Table<Book>, search: string, isActive: Option<string>, limit: nat, k: nat)
    returns (page: nat, slot: nat)
    requires limit >= 1 && k < |books| && Matches(books[k].val, search, isActive)
    ensures var listed := NewestFirst(Where(books, Listed(search, isActive)));
            && 1 <= page <= TotalPages(|listed|, limit)
            && slot < |Window(listed, page, limit)| && Window(listed, page, limit)[slot] == books[k]
  {
    page, slot := Listing.NewestOnPage(books, Listed(search, isActive), limit, k);
  }

  /** Every book on a page matches the search and the active filter. */
  lemma PageMatches(books: Table<Book>, search: string, isActive: Option<string>, page: nat, limit: nat)
    requires page >= 1 && limit >= 1
    ensures forall row | row in Window(NewestFirst(Where(books, Listed(search, isActive))), page, limit) ::
              row in books && Matches(row.val, search, isActive)
  {
    Listing.NewestPageRows(books, Listed(search, isActive), page, limit);
  }

  // ---------------------------------------------------------------------------
  // getBookDetail

  const NoSuchBook := "Buku tidak ditemukan"

  /** `getBookDetail` (admin): any book by key, active or not. */
  function GetBookDetail(books: Table<Book>, id: nat): (r: Response<Row<Book>>)
    ensures r.status == 200 || r.status == 404
    ensures r.status == 404 <==> !HasId(books, id)
    ensures r.status == 404 ==> r.body.message == Some(NoSuchBook) && !r.body.success
    ensures r.status == 200 ==> r.body.success && r.body.data.Some? && r.body.data.value in books
                                && r.body.data.value.id == id
  {
    match IndexOf(books, id)
    case None => NotFound(Some(NoSuchBook))
    case Some(i) => Responses.Success(Some(books[i]), None, None)
  }

  // ---------------------------------------------------------------------------
  // createBook

  /** The request body of `createBook` and `updateBook`; None is a field left out. Price in cents. */
  datatype BookFields = BookFields(title: Option<string>, author: Option<string>, isbn: Option<string>,
                                   description: Option<string>, price: Option<int>, stock: Option<int>,
                                   coverImage: Option<string>, isActive: Option<bool>)

  /** The isbn check of createBook and updateBook (controllers/admin/bookController.js:95 and
      :135): some stored book already has that isbn. */
  predicate IsbnTaken(books: Table<Book>, isbn: string) {
    exists k | 0 <= k < |books| :: books[k].val.isbn == Some(isbn)
  }

  /** `createBook`: title and author must be truthy, price and stock present and not
      negative, and a given isbn unused; the new book is active and takes the next key. */
  function CreateSpec(db: Db, f: BookFields): (Response<Row<Book>>, Db) {
    if !Truthy(f.title) || !Truthy(f.author) then (BadRequest("Title dan author harus diisi"), db)
    else if f.price.None? || f.price.value < 0 then (BadRequest("Price harus diisi dan tidak boleh negatif"), db)
    else if f.stock.None? || f.stock.value < 0 then (BadRequest("Stock harus diisi dan tidak boleh negatif"), db)
    else if Truthy(f.isbn) && IsbnTaken(db.books, f.isbn.value) then (BadRequest("ISBN sudah digunakan"), db)
    else
      var book := Row(db.next.book, Book(f.title.value, f.author.value, OrNull(f.isbn), OrNull(f.description),
                                          f.price.value, f.stock.value, OrNull(f.coverImage), true));
      (Created(Some(book), Some("Buku berhasil ditambahkan")),
       db.(books := db.books + [book], next := db.next.(book := db.next.book + 1)))
  }

  method CreateBook(store: Store.Database, f: BookFields) returns (r: Response<Row<Book>>)
    modifies store
    ensures (r, store.State()) == CreateSpec(old(store.State()), f)
  {
    if !Truthy(f.title) || !Truthy(f.author) {
      return BadRequest("Title dan author harus diisi");
    }
    if f.price.None? || f.price.value < 0 {
      return BadRequest("Price harus diisi dan tidak boleh negatif");
    }
    if f.stock.None? || f.stock.value < 0 {
      return BadRequest("Stock harus diisi dan tidak boleh negatif");
    }
    if Truthy(f.isbn) && IsbnTaken(store.books, f.isbn.value) {
      return BadRequest("ISBN sudah digunakan");
    }
    var book := Row(store.next.book, Book(f.title.value, f.author.value, OrNull(f.isbn), OrNull(f.description),
                                           f.price.value, f.stock.value, OrNull(f.coverImage), true));
    store.books := store.books + [book];
    store.next := store.next.(book := store.next.book + 1);
    r := Created(Some(book), Some("Buku berhasil ditambahkan"));
  }

  /** Each validation rejects with its own message and changes nothing; an accepted book is
      appended active, with the given fields, and only the book table and its counter change. */
  lemma CreateEffect(db: Db, f: BookFields)
    ensures var r := CreateSpec(db, f);
            var accepted := Truthy(f.title) && Truthy(f.author) && f.price.Some? && f.price.value >= 0
                            && f.stock.Some? && f.stock.value >= 0
                            && !(Truthy(f.isbn) && IsbnTaken(db.books, f.isbn.value));
            && (r.0.status == 201 || r.0.status == 400)
            && (r.0.status == 201 <==> accepted)
            && (!accepted ==> r.1 == db && !r.0.body.success)
            && (Truthy(f.title) && Truthy(f.author) && f.price.Some? && f.price.value >= 0
                && f.stock.Some? && f.stock.value >= 0 && Truthy(f.isbn) && IsbnTaken(db.books, f.isbn.value)
                ==> r.0.body.message == Some("ISBN sudah digunakan"))
            && (accepted ==>
                  && |r.1.books| == |db.books| + 1 && r.1.books[..|db.books|] == db.books
                  && (var b := r.1.books[|db.books|];
                      && b.id == db.next.book && b.val.isActive
                      && Some(b.val.title) == f.title && Some(b.val.author) == f.author
                      && b.val.price == f.price.value && b.val.stock == f.stock.value
                      && (b.val.isbn.Some? <==> Truthy(f.isbn)) && b.val.isbn == OrNull(f.isbn)
                      && b.val.description == OrNull(f.description)
                      && b.val.coverImage == OrNull(f.coverImage)
                      && r.0.body.data == Some(b))
                  && r.1.(books := db.books, next := db.next) == db
                  && r.1.next == db.next.(book := db.next.book + 1))
  {
  }

  // ---------------------------------------------------------------------------
  // updateBook

  /** `updateBook`'s edit: every field given replaces the stored one (an empty isbn,
      description or cover becomes null). `isActive` in the body is a boolean. */
  function Patched(b: Book, f: BookFields): Book {
    b.(title := if f.title.Some? then f.title.value else b.title,
       author := if f.author.Some? then f.author.value else b.author,
       isbn := if f.isbn.Some? then OrNull(f.isbn) else b.isbn,
       description := if f.description.Some? then OrNull(f.description) else b.description,
       price := if f.price.Some? then f.price.value else b.price,
       stock := if f.stock.Some? then f.stock.value else b.stock,
       coverImage := if f.coverImage.Some? then OrNull(f.coverImage) else b.coverImage,
       isActive := if f.isActive.Some? then f.isActive.value else b.isActive)
  }

  /** `updateBook`: 404 for an unknown key, 400 for an isbn another book holds or a negative
      price or stock, checked in that order; nothing is saved on an error. */
  function UpdateSpec(db: Db, id: nat, f: BookFields): (Response<Row<Book>>, Db) {
    match IndexOf(db.books, id)
    case None => (NotFound(Some(NoSuchBook)), db)
    case Some(i) =>
      var book := db.books[i].val;
      if Truthy(f.isbn) && f.isbn != book.isbn && IsbnTaken(db.books, f.isbn.value) then
        (BadRequest("ISBN sudah digunakan"), db)
      else if f.price.Some? && f.price.value < 0 then (BadRequest("Price tidak boleh negatif"), db)
      else if f.stock.Some? && f.stock.value < 0 then (BadRequest("Stock tidak boleh negatif"), db)
      else
        var saved := Row(db.books[i].id, Patched(book, f));
        (Responses.Success(Some(saved), Some("Buku berhasil diupdate"), None), db.(books := db.books[i := saved]))
  }

  /** The controller's steps: find, check the isbn, assign the given fields one by one
      (stopping at a negative price or stock before anything is saved), then save. */
  method UpdateBook(store: Store.Database, id: nat, f: BookFields) returns (r: Response<Row<Book>>)
    modifies store
    ensures (r, store.State()) == UpdateSpec(old(store.State()), id, f)
  {
    ghost var db := store.State();
    var i := IndexOf(store.books, id);
    if i.None? {
      return NotFound(Some(NoSuchBook));
    }
    var book := store.books[i.value].val;
    if Truthy(f.isbn) && f.isbn != book.isbn && IsbnTaken(store.books, f.isbn.value) {
      return BadRequest("ISBN sudah digunakan");
    }
    var title, author, isbn, description, price, stock, coverImage, isActive :=
      book.title, book.author, book.isbn, book.description, book.price, book.stock, book.coverImage, book.isActive;
    if f.title.Some? { title := f.title.value; }
    if f.author.Some? { author := f.author.value; }
    if f.isbn.Some? { isbn := OrNull(f.isbn); }
    if f.description.Some? { description := OrNull(f.description); }
    if f.price.Some? {
      if f.price.value < 0 {
        return BadRequest("Price tidak boleh negatif");
      }
      price := f.price.value;
    }
    if f.stock.Some? {
      if f.stock.value < 0 {
        return BadRequest("Stock tidak boleh negatif");
      }
      stock := f.stock.value;
    }
    if f.coverImage.Some? { coverImage := OrNull(f.coverImage); }
    if f.isActive.Some? { isActive := f.isActive.value; }
    book := Book(title, author, isbn, description, price, stock, coverImage, isActive);
    ghost var saved := Row(db.books[i.value].id, book);
    assert book == Patched(db.books[i.value].val, f);
    assert UpdateSpec(db, id, f) == (Responses.Success(Some(saved), Some("Buku berhasil diupdate"), None),
                                     db.(books := db.books[i.value := saved]));
    store.books := store.books[i.value := Row(store.books[i.value].id, book)];
    r := Responses.Success(Some(store.books[i.value]), Some("Buku berhasil diupdate"), None);
  }

  /** Only the fields supplied change, and only in the one book; a rejected edit, for a
      taken isbn or a negative price or stock, saves nothing. */
  lemma UpdateEffect(db: Db, id: nat, f: BookFields)
    ensures var r := UpdateSpec(db, id, f);
            var i := IndexOf(db.books, id);
            && (r.0.status == 200 || r.0.status == 400 || r.0.status == 404)
            && (r.0.status != 200 ==> r.1 == db && !r.0.body.success)
            && (r.0.status == 404 <==> !HasId(db.books, id))
            && (HasId(db.books, id) ==>
                  (r.0.status == 400 <==>
                     (Truthy(f.isbn) && f.isbn != db.books[i.value].val.isbn && IsbnTaken(db.books, f.isbn.value))
                     || (f.price.Some? && f.price.value < 0) || (f.stock.Some? && f.stock.value < 0)))
            && (r.0.status == 200 ==>
                  var before, after := db.books[i.value].val, r.1.books[i.value].val;
                  && |r.1.books| == |db.books| && r.1.books[i.value].id == id
                  && (forall k | 0 <= k < |db.books| && k != i.value :: r.1.books[k] == db.books[k])
                  && (f.title.None? ==> after.title == before.title)
                  && (f.title.Some? ==> after.title == f.title.value)
                  && (f.author.None? ==> after.author == before.author)
                  && (f.author.Some? ==> after.author == f.author.value)
                  && (f.isbn.None? ==> after.isbn == before.isbn)
                  && (f.isbn.Some? ==> (after.isbn.Some? <==> f.isbn.value != "") && (after.isbn.Some? ==> after.isbn == f.isbn))
                  && (f.price.None? ==> after.price == before.price)
                  && (f.price.Some? ==> after.price == f.price.value && after.price >= 0)
                  && (f.stock.None? ==> after.stock == before.stock)
                  && (f.stock.Some? ==> after.stock == f.stock.value && after.stock >= 0)
                  && (f.description.None? ==> after.description == before.description)
                  && (f.description.Some? ==> after.description == OrNull(f.description))
                  && (f.coverImage.None? ==> after.coverImage == before.coverImage)
                  && (f.coverImage.Some? ==> after.coverImage == OrNull(f.coverImage))
                  && (f.isActive.None? ==> after.isActive == before.isActive)
                  && (f.isActive.Some? ==> after.isActive == f.isActive.value)
                  && r.0.body.data == Some(r.1.books[i.value])
                  && r.1.(books := db.books) == db)
  {
  }

  /** Sending the same accepted edit again changes nothing more. */
  lemma UpdateIdempotent(db: Db, id: nat, f: BookFields)
    requires UpdateSpec(db, id, f).0.status == 200
    ensures var once := UpdateSpec(db, id, f).1;
            UpdateSpec(once, id, f).1 == once
  {
    var i := IndexOf(db.books, id).value;
    var once := UpdateSpec(db, id, f).1;
    HasIdSameKeys(db.books, once.books, id);
    SameKeysIndex(db.books, once.books, id);
    var b := once.books[i].val;
    assert Patched(b, f) == b;
    assert Truthy(f.isbn) ==> f.isbn == b.isbn;
    assert once.books[i := Row(once.books[i].id, b)] == once.books;
  }

  // ---------------------------------------------------------------------------
  // updateStock

  /** `updateStock`: `action` and `quantity` must be truthy, the action `add` or `subtract`,
      the quantity positive; subtracting more than the stock is refused. */
  function StockSpec(db: Db, id: nat, action: Option<string>, quantity: Option<int>): (Response<Row<Book>>, Db) {
    if !Truthy(action) || quantity.None? || quantity.value == 0 then (BadRequest("Action dan quantity harus diisi"), db)
    else if action.value != "add" && action.value != "subtract" then (BadRequest("Action harus 'add' atau 'subtract'"), db)
    else if quantity.value <= 0 then (BadRequest("Quantity harus lebih dari 0"), db)
    else match IndexOf(db.books, id)
      case None => (NotFound(Some(NoSuchBook)), db)
      case Some(i) =>
        var stock := db.books[i].val.stock;
        if action.value == "subtract" && stock < quantity.value then
          (BadRequest("Stock tidak mencukupi. Stock saat ini: " + IntToString(stock)), db)
        else
          var stock' := if action.value == "add" then stock + quantity.value else stock - quantity.value;
          var saved := Row(db.books[i].id, db.books[i].val.(stock := stock'));
          (Responses.Success(Some(saved), Some("Stock berhasil di" + (if action.value == "add" then "tambah" else "kurang") + "i"), None),
           db.(books := db.books[i := saved]))
  }

  method UpdateStock(store: Store.Database, id: nat, action: Option<string>, quantity: Option<int>)
    returns (r: Response<Row<Book>>)
    modifies store
    ensures (r, store.State()) == StockSpec(old(store.State()), id, action, quantity)
  {
    if !Truthy(action) || quantity.None? || quantity.value == 0 {
      return BadRequest("Action dan quantity harus diisi");
    }
    if action.value != "add" && action.value != "subtract" {
      return BadRequest("Action harus 'add' atau 'subtract'");
    }
    if quantity.value <= 0 {
      return BadRequest("Quantity harus lebih dari 0");
    }
    var i := IndexOf(store.books, id);
    if i.None? {
      return NotFound(Some(NoSuchBook));
    }
    var book := store.books[i.value];
    if action.value == "add" {
      book := Row(book.id, book.val.(stock := book.val.stock + quantity.value));
    } else if action.value == "subtract" {
      if book.val.stock < quantity.value {
        return BadRequest("Stock tidak mencukupi. Stock saat ini: " + IntToString(book.val.stock));
      }
      book := Row(book.id, book.val.(stock := book.val.stock - quantity.value));
    }
    store.books := store.books[i.value := book];
    r := Responses.Success(Some(book), Some("Stock berhasil di" + (if action.value == "add" then "tambah" else "kurang") + "i"), None);
  }

  /** `add` raises the stock by the quantity; `subtract` lowers it by the quantity only when
      there is enough, so stock that was not negative stays so; only that stock changes. */
  lemma StockEffect(db: Db, id: nat, action: Option<string>, quantity: Option<int>)
    ensures var r := StockSpec(db, id, action, quantity);
            var i := IndexOf(db.books, id);
            var valid := Truthy(action) && (action.value == "add" || action.value == "subtract")
                         && quantity.Some? && quantity.value > 0;
            && (r.0.status == 200 || r.0.status == 400 || r.0.status == 404)
            && (r.0.status != 200 ==> r.1 == db && !r.0.body.success)
            && (r.0.status == 404 <==> valid && !HasId(db.books, id))
            && (r.0.status == 200 ==>
                  && valid && i.Some?
                  && |r.1.books| == |db.books|
                  && r.1.books[i.value] == Row(id, db.books[i.value].val.(stock := r.1.books[i.value].val.stock))
                  && (action.value == "add" ==> r.1.books[i.value].val.stock == db.books[i.value].val.stock + quantity.value)
                  && (action.value == "subtract" ==> r.1.books[i.value].val.stock == db.books[i.value].val.stock - quantity.value)
                  && (db.books[i.value].val.stock >= 0 ==> r.1.books[i.value].val.stock >= 0)
                  && (forall k | 0 <= k < |db.books| && k != i.value :: r.1.books[k] == db.books[k])
                  && r.1.(books := db.books) == db)
            && (valid && i.Some? && action.value == "subtract" ==>
                  (r.0.status == 400 <==> db.books[i.value].val.stock < quantity.value))
  {
  }

  /** Subtracting what was just added restores the catalogue. */
  lemma AddThenSubtract(db: Db, id: nat, quantity: int)
    requires BooksValid(db.books)
    requires StockSpec(db, id, Some("add"), Some(quantity)).0.status == 200
    ensures var added := StockSpec(db, id, Some("add"), Some(quantity)).1;
            StockSpec(added, id, Some("subtract"), Some(quantity)).0.status == 200
            && StockSpec(added, id, Some("subtract"), Some(quantity)).1 == db
  {
    var i := IndexOf(db.books, id).value;
    var b := db.books[i];
    var raised := Row(b.id, b.val.(stock := b.val.stock + quantity));
    var t := db.books[i := raised];
    assert StockSpec(db, id, Some("add"), Some(quantity)).1 == db.(books := t);
    SameKeysIndex(db.books, t, id);
    RestoreRow(db.books, i, raised);
    SubtractRestores(db, t, id, quantity, i);
  }

  /** On a table whose row i holds the raised stock, subtracting the quantity puts the
      original table back. */
  lemma SubtractRestores(db: Db, t: Table<Book>, id: nat, quantity: int, i: nat)
    requires i < |db.books| && quantity > 0 && db.books[i].val.stock >= 0
    requires IndexOf(t, id) == Some(i) && i < |t|
    requires t[i] == Row(db.books[i].id, db.books[i].val.(stock := db.books[i].val.stock + quantity))
    requires t[i := db.books[i]] == db.books
    ensures StockSpec(db.(books := t), id, Some("subtract"), Some(quantity)).0.status == 200
    ensures StockSpec(db.(books := t), id, Some("subtract"), Some(quantity)).1 == db
  {
    assert "subtract" != "add";
    assert t[i].val.(stock := t[i].val.stock - quantity) == db.books[i].val;
  }

  /** Writing a row back over its replacement restores the table. */
  lemma RestoreRow<T>(t: Table<T>, i: nat, r: Row<T>)
    requires i < |t|
    ensures t[i := r][i := t[i]] == t
  {
  }

  // ---------------------------------------------------------------------------
  // deleteBook

  /** `deleteBook`: a soft delete, the record stays with `isActive` false. */
  function DeleteSpec(db: Db, id: nat): (Response<Row<Book>>, Db) {
    match IndexOf(db.books, id)
    case None => (NotFound(Some(NoSuchBook)), db)
    case Some(i) =>
      (Responses.Success(None, Some("Buku berhasil dihapus dari katalog"), None),
       db.(books := db.books[i := Row(db.books[i].id, db.books[i].val.(isActive := false))]))
  }

  method DeleteBook(store: Store.Database, id: nat) returns (r: Response<Row<Book>>)
    modifies store
    ensures (r, store.State()) == DeleteSpec(old(store.State()), id)
  {
    var i := IndexOf(store.books, id);
    if i.None? {
      return NotFound(Some(NoSuchBook));
    }
    var book := store.books[i.value];
    book := Row(book.id, book.val.(isActive := false));
    store.books := store.books[i.value := book];
    r := Responses.Success(None, Some("Buku berhasil dihapus dari katalog"), None);
  }

  /** Deletion keeps the record and every other field, and deleting twice is deleting once. */
  lemma DeleteEffect(db: Db, id: nat)
    ensures var r := DeleteSpec(db, id);
            var i := IndexOf(db.books, id);
            && (r.0.status == 404 <==> !HasId(db.books, id))
            && (r.0.status == 404 ==> r.1 == db)
            && (r.0.status == 200 ==>
                  && |r.1.books| == |db.books|
                  && r.1.books[i.value] == Row(id, db.books[i.value].val.(isActive := false))
                  && (forall k | 0 <= k < |db.books| && k != i.value :: r.1.books[k] == db.books[k]))
            && r.1.(books := db.books) == db
            && DeleteSpec(r.1, id) == (r.0, r.1)
  {
    match IndexOf(db.books, id)
    case None =>
    case Some(i) =>
      var once := DeleteSpec(db, id).1;
      SameKeysIndex(db.books, once.books, id);
      assert once.books[i := Row(once.books[i].id, once.books[i].val.(isActive := false))] == once.books;
  }

  // ---------------------------------------------------------------------------
  // The schema constraints

  /** Creating keeps every schema constraint: the new book's stock is not negative, its
      isbn is unused, and it takes a fresh key. */
  lemma CreateKeepsValid(db: Db, f: BookFields)
    requires Valid(db)
    ensures Valid(CreateSpec(db, f).1)
  {
    if CreateSpec(db, f).0.status == 201 {
      var book := Row(db.next.book, Book(f.title.value, f.author.value, OrNull(f.isbn), OrNull(f.description),
                                          f.price.value, f.stock.value, OrNull(f.coverImage), true));
      assert CreateSpec(db, f).1 == db.(books := db.books + [book], next := db.next.(book := db.next.book + 1));
      AppendBookValid(db, book);
    }
  }

  /** Appending a book under the next key, with no negative stock and a fresh isbn, keeps
      every schema constraint. */
  lemma AppendBookValid(db: Db, book: Row<Book>)
    requires Valid(db) && book.id == db.next.book
    requires book.val.stock >= 0
    requires book.val.isbn.Some? ==> !IsbnTaken(db.books, book.val.isbn.value)
    ensures Valid(db.(books := db.books + [book], next := db.next.(book := db.next.book + 1)))
  {
    var db' := db.(books := db.books + [book], next := db.next.(book := db.next.book + 1));
    KeyedAppend(db.books, db.next.book, book.val);
    forall bid: nat | HasId(db.books, bid) ensures HasId(db'.books, bid) {
      HasIdAppend(db.books, [book], bid);
    }
    assert forall k | 0 <= k < |db.books| :: db'.books[k] == db.books[k];
    assert BooksValid(db'.books);
    RowsKeepValid(db, db');
  }

  /** Editing keeps every schema constraint. */
  lemma UpdateKeepsValid(db: Db, id: nat, f: BookFields)
    requires Valid(db)
    ensures Valid(UpdateSpec(db, id, f).1)
  {
    if UpdateSpec(db, id, f).0.status == 200 {
      var i := IndexOf(db.books, id).value;
      RewriteBookValid(db, i, Patched(db.books[i].val, f));
    }
  }

  /** Adjusting stock keeps every schema constraint; in particular stock stays >= 0. */
  lemma StockKeepsValid(db: Db, id: nat, action: Option<string>, quantity: Option<int>)
    requires Valid(db)
    ensures Valid(StockSpec(db, id, action, quantity).1)
  {
    if StockSpec(db, id, action, quantity).0.status == 200 {
      var i := IndexOf(db.books, id).value;
      var stock := db.books[i].val.stock;
      assert quantity.value > 0;
      assert action.value == "subtract" ==> stock >= quantity.value;
      var stock' := if action.value == "add" then stock + quantity.value else stock - quantity.value;
      var b := db.books[i].val.(stock := stock');
      assert StockSpec(db, id, action, quantity).1 == db.(books := db.books[i := Row(db.books[i].id, b)]);
      RewriteBookValid(db, i, b);
    }
  }

  /** Soft deletion keeps every schema constraint. */
  lemma DeleteKeepsValid(db: Db, id: nat)
    requires Valid(db)
    ensures Valid(DeleteSpec(db, id).1)
  {
    if DeleteSpec(db, id).0.status == 200 {
      var i := IndexOf(db.books, id).value;
      RewriteBookValid(db, i, db.books[i].val.(isActive := false));
    }
  }

  /** Rewriting one book, with a valid stock and isbn, keeps the constraints. */
  lemma RewriteBookValid(db: Db, i: nat, b: Book)
    requires Valid(db) && i < |db.books| && b.stock >= 0
    requires b.isbn.Some? ==> b.isbn == db.books[i].val.isbn || !IsbnTaken(db.books, b.isbn.value)
    ensures Valid(db.(books := db.books[i := Row(db.books[i].id, b)]))
  {
    var db' := db.(books := db.books[i := Row(db.books[i].id, b)]);
    forall bid: nat ensures HasId(db'.books, bid) <==> HasId(db.books, bid) {
      HasIdSameKeys(db.books, db'.books, bid);
    }
    assert forall k | 0 <= k < |db.books| :: db'.books[k].id == db.books[k].id;
    assert Keyed(db'.books, db'.next.book);
    assert BooksValid(db'.books);
    RowsKeepValid(db, db');
  }

  /** A book table that keeps every key and whose books are valid keeps the constraints. */
  lemma RowsKeepValid(db: Db, db': Db)
    requires Valid(db) && db' == db.(books := db'.books, next := db'.next)
    requires db'.next == db.next.(book := db'.next.book) && db'.next.book >= db.next.book
    requires Keyed(db'.books, db'.next.book) && BooksValid(db'.books)
    requires forall bid: nat | HasId(db.books, bid) :: HasId(db'.books, bid)
    ensures Valid(db')
  {
    assert KeysValid(db');
    assert CartsValid(db'.carts, db'.books, db'.users);
    assert ItemsValid(db'.items, db'.orders, db'.books);
  }
}
