/** controllers/cartController.js: the customer's cart page, and adding, removing and
    re-counting cart lines. Every operation works on the caller's own lines only. */
module Carts {
  import opened Common
  import opened Schema
  import opened Responses
  import CheckoutFacts
  import Store

  // ---------------------------------------------------------------------------
  // getCart

  /** One line of the cart page; `subtotal` in cents. */
  datatype CartItem = CartItem(id: nat, book: Row<Book>, quantity: int, subtotal: int)

  /** The cart page: the lines, newest first, and the total as two-decimal text. */
  datatype CartView = CartView(items: seq<CartItem>, total: string)

  const CartReadFailed := "Error saat mengambil keranjang"

  predicate BooksPresent(books: Table<Book>, lines: Table<CartLine>) {
    forall k | 0 <= k < |lines| :: HasId(books, lines[k].val.bookId)
  }

  /** `item` shows `line` with the line's book and price times quantity. */
  predicate Shows(books: Table<Book>, line: Row<CartLine>, item: CartItem) {
    && HasId(books, line.val.bookId)
    && item.id == line.id
    && item.book == books[IndexOf(books, line.val.bookId).value]
    && item.quantity == line.val.quantity
    && item.subtotal == item.book.val.price * line.val.quantity
  }

  /** `getCart`: the lines are read newest first (`createdAt DESC`, creation time growing with
      the key), each shown with its subtotal; the total is the cart's value, the same sum the
      checkout charges. A line whose book is gone makes the handler throw. */
  method GetCart(books: Table<Book>, carts: Table<CartLine>, userId: nat) returns (r: Response<CartView>)
    ensures var lines := CartOf(carts, userId);
            && (r.status == 200 || r.status == 500)
            && (r.status == 500 <==> !BooksPresent(books, lines))
            && (r.status == 500 ==> r.body.message == Some(CartReadFailed) && !r.body.success)
            && (r.status == 200 ==>
                  && r.body.success && r.body.data.Some?
                  && |r.body.data.value.items| == |lines|
                  && (forall k | 0 <= k < |lines| :: Shows(books, lines[|lines| - 1 - k], r.body.data.value.items[k]))
                  && r.body.data.value.total == Fixed2(CheckoutFacts.CartValue(books, lines)))
  {
    var lines := CartOf(carts, userId);
    var items: seq<CartItem> := [];
    var total := 0;
    var i := |lines|;
    assert lines[..i] == lines;
    while i > 0
      invariant 0 <= i <= |lines|
      invariant |items| == |lines| - i
      invariant forall k | 0 <= k < |items| :: Shows(books, lines[|lines| - 1 - k], items[k])
      invariant forall k | i <= k < |lines| :: HasId(books, lines[k].val.bookId)
      invariant total + CheckoutFacts.CartValue(books, lines[..i]) == CheckoutFacts.CartValue(books, lines)
    {
      var line := lines[i - 1];
      var b := IndexOf(books, line.val.bookId);
      if b.None? {
        return ServerError(CartReadFailed);
      }
      var book := books[b.value];
      var itemTotal := book.val.price * line.val.quantity;
      assert lines[..i][..i - 1] == lines[..i - 1];
      total := total + itemTotal;
      items := items + [CartItem(line.id, book, line.val.quantity, itemTotal)];
      i := i - 1;
    }
    assert lines[..0] == [];
    r := Responses.Success(Some(CartView(items, Fixed2(total))), None, None);
  }

  // ---------------------------------------------------------------------------
  // Queries the writers share

  /** The caller's existing line for a book (controllers/cartController.js:80-82): the first
      line with that user and book. */
  function LineFor(carts: Table<CartLine>, userId: nat, bookId: nat): (r: Option<nat>)
    ensures r.Some? ==> r.value < |carts| && carts[r.value].val.userId == userId && carts[r.value].val.bookId == bookId
    ensures r.Some? ==> forall j | 0 <= j < r.value :: carts[j].val.userId != userId || carts[j].val.bookId != bookId
    ensures r.None? <==> forall j | 0 <= j < |carts| :: carts[j].val.userId != userId || carts[j].val.bookId != bookId
    decreases |carts|
  {
    if carts == [] then None
    else if carts[0].val.userId == userId && carts[0].val.bookId == bookId then Some(0)
    else match LineFor(carts[1..], userId, bookId)
      case None => None
      case Some(k) => Some(k + 1)
  }

  /** One of the caller's own lines by key (controllers/cartController.js:131-133 and
      :164-166): the first line with that key and user. */
  function OwnLine(carts: Table<CartLine>, id: nat, userId: nat): (r: Option<nat>)
    ensures r.Some? ==> r.value < |carts| && carts[r.value].id == id && carts[r.value].val.userId == userId
    ensures r.None? <==> forall j | 0 <= j < |carts| :: carts[j].id != id || carts[j].val.userId != userId
    decreases |carts|
  {
    if carts == [] then None
    else if carts[0].id == id && carts[0].val.userId == userId then Some(0)
    else match OwnLine(carts[1..], id, userId)
      case None => None
      case Some(k) => Some(k + 1)
  }

  /** The quantity of a book in a user's cart (0 when there is no line). */
  function QuantityFor(carts: Table<CartLine>, userId: nat, bookId: nat): int {
    match LineFor(carts, userId, bookId)
    case None => 0
    case Some(k) => carts[k].val.quantity
  }

  /** A saved line, with its book where the reply includes it. */
  datatype CartEntry = CartEntry(line: Row<CartLine>, book: Option<Row<Book>>)

  function StockLeft(stock: int): string {
    "Stock tidak mencukupi. Stock tersedia: " + IntToString(stock)
  }

  const Added := "Buku berhasil ditambahkan ke keranjang"

  // ---------------------------------------------------------------------------
  // addToCart

  /** `addToCart`: `quantity` defaults to 1 when absent; `bookId` is falsy when absent or 0.
      A book already in the cart is merged into its line. */
  function AddSpec(db: Db, userId: nat, bookId: Option<nat>, quantity: Option<int>): (Response<CartEntry>, Db) {
    var q := if quantity.Some? then quantity.value else 1;
    if bookId.None? || bookId.value == 0 then (BadRequest("Book ID harus diisi"), db)
    else if q < 1 then (BadRequest("Quantity minimal 1"), db)
    else match ActiveBook(db.books, bookId.value)
      case None => (NotFound(Some("Buku tidak ditemukan")), db)
      case Some(b) =>
        var stock := db.books[b].val.stock;
        if stock < q then (BadRequest(StockLeft(stock)), db)
        else match LineFor(db.carts, userId, bookId.value)
          case Some(k) =>
            var held := db.carts[k].val.quantity;
            if stock < held + q then
              (BadRequest(StockLeft(stock) + ", quantity di keranjang: " + IntToString(held)), db)
            else
              var saved := Row(db.carts[k].id, db.carts[k].val.(quantity := held + q));
              (Responses.Success(Some(CartEntry(saved, None)), Some(Added), None), db.(carts := db.carts[k := saved]))
          case None =>
            var added := Row(db.next.cart, CartLine(userId, bookId.value, q));
            (Responses.Success(Some(CartEntry(added, Some(db.books[b]))), Some(Added), Some(201)),
             db.(carts := db.carts + [added], next := db.next.(cart := db.next.cart + 1)))
  }

  method AddToCart(store: Store.Database, userId: nat, bookId: Option<nat>, quantity: Option<int>)
    returns (r: Response<CartEntry>)
    modifies store
    ensures (r, store.State()) == AddSpec(old(store.State()), userId, bookId, quantity)
  {
    var q := if quantity.Some? then quantity.value else 1;
    if bookId.None? || bookId.value == 0 {
      return BadRequest("Book ID harus diisi");
    }
    if q < 1 {
      return BadRequest("Quantity minimal 1");
    }
    var b := ActiveBook(store.books, bookId.value);
    if b.None? {
      return NotFound(Some("Buku tidak ditemukan"));
    }
    var book := store.books[b.value];
    if book.val.stock < q {
      return BadRequest(StockLeft(book.val.stock));
    }
    var existing := LineFor(store.carts, userId, bookId.value);
    if existing.Some? {
      var line := store.carts[existing.value];
      var newQuantity := line.val.quantity + q;
      if book.val.stock < newQuantity {
        return BadRequest(StockLeft(book.val.stock) + ", quantity di keranjang: " + IntToString(line.val.quantity));
      }
      line := Row(line.id, line.val.(quantity := newQuantity));
      store.carts := store.carts[existing.value := line];
      return Responses.Success(Some(CartEntry(line, None)), Some(Added), None);
    }
    var cartItem := Row(store.next.cart, CartLine(userId, bookId.value, q));
    store.carts := store.carts + [cartItem];
    store.next := store.next.(cart := store.next.cart + 1);
    r := Responses.Success(Some(CartEntry(cartItem, Some(book))), Some(Added), Some(201));
  }

  /** Every answer but 200 and 201 leaves the database as it was, and each check answers
      with its own reply. */
  lemma AddOutcomes(db: Db, userId: nat, bookId: Option<nat>, quantity: Option<int>)
    ensures var r := AddSpec(db, userId, bookId, quantity);
            var q := if quantity.Some? then quantity.value else 1;
            var given := bookId.Some? && bookId.value != 0;
            && (r.0.status in {200, 201, 400, 404})
            && (r.0.status != 200 && r.0.status != 201 ==> r.1 == db && !r.0.body.success)
            && (!given ==> r.0.body.message == Some("Book ID harus diisi"))
            && (given && q < 1 ==> r.0.body.message == Some("Quantity minimal 1"))
            && (r.0.status == 404 <==> given && q >= 1 && ActiveBook(db.books, bookId.value).None?)
            && (r.0.status == 404 ==> r.0.body.message == Some("Buku tidak ditemukan"))
            && (given && q >= 1 && ActiveBook(db.books, bookId.value).Some? ==>
                  (r.0.status == 400 <==> db.books[ActiveBook(db.books, bookId.value).value].val.stock
                                            < QuantityFor(db.carts, userId, bookId.value) + q
                                          || db.books[ActiveBook(db.books, bookId.value).value].val.stock < q))
            && (r.0.status == 201 <==> given && q >= 1 && ActiveBook(db.books, bookId.value).Some?
                                       && LineFor(db.carts, userId, bookId.value).None?
                                       && q <= db.books[ActiveBook(db.books, bookId.value).value].val.stock)
  {
  }

  /** The book's quantity in the user's cart grew by `q` and no other tally changed. */
  ghost predicate Tallied(before: Table<CartLine>, after: Table<CartLine>, userId: nat, bookId: nat, q: int) {
    && QuantityFor(after, userId, bookId) == QuantityFor(before, userId, bookId) + q
    && forall u: nat, x: nat | u != userId || x != bookId :: QuantityFor(after, u, x) == QuantityFor(before, u, x)
  }

  /** Adding a book already in the cart: its one line grows by the added amount, stays
      within the active book's stock, and nothing else changes. */
  lemma AddMerges(db: Db, userId: nat, bookId: nat, quantity: Option<int>)
    requires AddSpec(db, userId, Some(bookId), quantity).0.body.success
    requires LineFor(db.carts, userId, bookId).Some?
    ensures var q := if quantity.Some? then quantity.value else 1;
            var db' := AddSpec(db, userId, Some(bookId), quantity).1;
            var b := ActiveBook(db.books, bookId);
            var k := LineFor(db.carts, userId, bookId).value;
            && AddSpec(db, userId, Some(bookId), quantity).0.status == 200
            && q >= 1 && b.Some? && db.books[b.value].id == bookId && db.books[b.value].val.isActive
            && Tallied(db.carts, db'.carts, userId, bookId, q)
            && QuantityFor(db'.carts, userId, bookId) <= db.books[b.value].val.stock
            && |db'.carts| == |db.carts| && db'.carts[k].id == db.carts[k].id
            && (forall j | 0 <= j < |db.carts| && j != k :: db'.carts[j] == db.carts[j])
            && db'.(carts := db.carts) == db
  {
    var q := if quantity.Some? then quantity.value else 1;
    TallyPut(db.carts, userId, bookId, LineFor(db.carts, userId, bookId).value, q);
  }

  /** Adding a book not yet in the cart: a new line with the next key holds the quantity,
      within the active book's stock, and nothing else changes. */
  lemma AddCreates(db: Db, userId: nat, bookId: nat, quantity: Option<int>)
    requires AddSpec(db, userId, Some(bookId), quantity).0.body.success
    requires LineFor(db.carts, userId, bookId).None?
    ensures var q := if quantity.Some? then quantity.value else 1;
            var db' := AddSpec(db, userId, Some(bookId), quantity).1;
            var b := ActiveBook(db.books, bookId);
            && AddSpec(db, userId, Some(bookId), quantity).0.status == 201
            && q >= 1 && b.Some? && db.books[b.value].id == bookId && db.books[b.value].val.isActive
            && Tallied(db.carts, db'.carts, userId, bookId, q)
            && QuantityFor(db'.carts, userId, bookId) <= db.books[b.value].val.stock
            && db'.carts == db.carts + [Row(db.next.cart, CartLine(userId, bookId, q))]
            && db'.next == db.next.(cart := db.next.cart + 1)
            && db'.(carts := db.carts, next := db.next) == db
  {
    var q := if quantity.Some? then quantity.value else 1;
    TallyAppend(db.carts, userId, bookId, q, db.next.cart);
  }

  /** Merging into the line that holds a book adds to that book's tally only. */
  lemma TallyPut(carts: Table<CartLine>, userId: nat, bookId: nat, k: nat, q: int)
    requires LineFor(carts, userId, bookId) == Some(k)
    ensures Tallied(carts, carts[k := Row(carts[k].id, carts[k].val.(quantity := carts[k].val.quantity + q))], userId, bookId, q)
  {
    var v := carts[k].val.(quantity := carts[k].val.quantity + q);
    forall u: nat, x: nat ensures LineFor(carts[k := Row(carts[k].id, v)], u, x) == LineFor(carts, u, x) {
      LineForPut(carts, k, v, u, x);
    }
  }

  /** A new line for a book not yet in the cart starts that book's tally at the quantity. */
  lemma TallyAppend(carts: Table<CartLine>, userId: nat, bookId: nat, q: int, id: nat)
    requires LineFor(carts, userId, bookId).None?
    ensures Tallied(carts, carts + [Row(id, CartLine(userId, bookId, q))], userId, bookId, q)
  {
    var added := Row(id, CartLine(userId, bookId, q));
    forall u: nat, x: nat
      ensures LineFor(carts + [added], u, x) ==
                if LineFor(carts, u, x).None? && u == userId && x == bookId then Some(|carts|)
                else LineFor(carts, u, x)
    {
      LineForAppend(carts, added, u, x);
    }
    assert (carts + [added])[|carts|] == added;
  }

  /** Re-counting a line keeps every line's user and book, so every search finds the same line. */
  lemma {:induction false} LineForPut(carts: Table<CartLine>, k: nat, v: CartLine, u: nat, x: nat)
    requires k < |carts| && v.userId == carts[k].val.userId && v.bookId == carts[k].val.bookId
    ensures LineFor(carts[k := Row(carts[k].id, v)], u, x) == LineFor(carts, u, x)
    decreases |carts|
  {
    var c := carts[k := Row(carts[k].id, v)];
    if k > 0 {
      assert c[1..] == carts[1..][k - 1 := Row(carts[k].id, v)];
      LineForPut(carts[1..], k - 1, v, u, x);
    } else {
      assert c[1..] == carts[1..];
    }
  }

  /** An appended line is found only when no earlier line matches. */
  lemma {:induction false} LineForAppend(carts: Table<CartLine>, added: Row<CartLine>, u: nat, x: nat)
    ensures LineFor(carts + [added], u, x) ==
              if LineFor(carts, u, x).None? && added.val.userId == u && added.val.bookId == x then Some(|carts|)
              else LineFor(carts, u, x)
    decreases |carts|
  {
    if carts != [] {
      assert (carts + [added])[1..] == carts[1..] + [added];
      LineForAppend(carts[1..], added, u, x);
    }
  }

  /** Adding keeps every schema constraint, in particular one line per user and book. */
  lemma AddKeepsValid(db: Db, userId: nat, bookId: Option<nat>, quantity: Option<int>)
    requires Valid(db) && HasId(db.users, userId)
    ensures Valid(AddSpec(db, userId, bookId, quantity).1)
  {
    if !AddSpec(db, userId, bookId, quantity).0.body.success {
      AddRejectedUnchanged(db, userId, bookId, quantity);
    } else if LineFor(db.carts, userId, bookId.value).Some? {
      AddMergeKeepsValid(db, userId, bookId.value, quantity);
    } else {
      AddNewKeepsValid(db, userId, bookId.value, quantity);
    }
  }

  /** A refused addition leaves the database as it was. */
  lemma AddRejectedUnchanged(db: Db, userId: nat, bookId: Option<nat>, quantity: Option<int>)
    requires !AddSpec(db, userId, bookId, quantity).0.body.success
    ensures AddSpec(db, userId, bookId, quantity).1 == db
  {
  }

  /** Growing the user's existing line for the book keeps every schema constraint. */
  lemma AddMergeKeepsValid(db: Db, userId: nat, bookId: nat, quantity: Option<int>)
    requires Valid(db)
    requires AddSpec(db, userId, Some(bookId), quantity).0.body.success
    requires LineFor(db.carts, userId, bookId).Some?
    ensures Valid(AddSpec(db, userId, Some(bookId), quantity).1)
  {
    var q := if quantity.Some? then quantity.value else 1;
    var k := LineFor(db.carts, userId, bookId).value;
    AddMergeState(db, userId, bookId, quantity);
    RecountKeepsValid(db, k, db.carts[k].val.quantity + q);
  }

  /** The database after growing the user's existing line for the book. */
  lemma AddMergeState(db: Db, userId: nat, bookId: nat, quantity: Option<int>)
    requires AddSpec(db, userId, Some(bookId), quantity).0.body.success
    requires LineFor(db.carts, userId, bookId).Some?
    ensures var k := LineFor(db.carts, userId, bookId).value;
            var q := if quantity.Some? then quantity.value else 1;
            && k < |db.carts|
            && AddSpec(db, userId, Some(bookId), quantity).1
               == db.(carts := db.carts[k := Row(db.carts[k].id, db.carts[k].val.(quantity := db.carts[k].val.quantity + q))])
  {
  }

  /** A first line for the book in the user's cart keeps every schema constraint. */
  lemma AddNewKeepsValid(db: Db, userId: nat, bookId: nat, quantity: Option<int>)
    requires Valid(db) && HasId(db.users, userId)
    requires AddSpec(db, userId, Some(bookId), quantity).0.body.success
    requires LineFor(db.carts, userId, bookId).None?
    ensures Valid(AddSpec(db, userId, Some(bookId), quantity).1)
  {
    var q := if quantity.Some? then quantity.value else 1;
    var b := ActiveBook(db.books, bookId).value;
    assert HasId(db.books, bookId) by {
      assert db.books[b].id == bookId;
    }
    assert AddSpec(db, userId, Some(bookId), quantity).1
           == db.(carts := db.carts + [Row(db.next.cart, CartLine(userId, bookId, q))],
                  next := db.next.(cart := db.next.cart + 1));
    NewLineKeepsValid(db, CartLine(userId, bookId, q));
  }

  /** A new line with a positive quantity, for an existing user and book not yet in that
      user's cart, keeps every schema constraint. */
  lemma NewLineKeepsValid(db: Db, line: CartLine)
    requires Valid(db) && line.quantity >= 1
    requires HasId(db.users, line.userId) && HasId(db.books, line.bookId)
    requires LineFor(db.carts, line.userId, line.bookId).None?
    ensures Valid(db.(carts := db.carts + [Row(db.next.cart, line)], next := db.next.(cart := db.next.cart + 1)))
  {
    var c := db.carts + [Row(db.next.cart, line)];
    KeyedAppend(db.carts, db.next.cart, line);
    assert CartsValid(c, db.books, db.users);
  }

  // ---------------------------------------------------------------------------
  // removeFromCart

  const NoSuchLine := "Item tidak ditemukan di keranjang"

  /** `removeFromCart`: delete one of the caller's lines. */
  function RemoveSpec(db: Db, userId: nat, id: nat): (Response<CartEntry>, Db) {
    match OwnLine(db.carts, id, userId)
    case None => (NotFound(Some(NoSuchLine)), db)
    case Some(k) =>
      (Responses.Success(None, Some("Buku berhasil dihapus dari keranjang"), None),
       db.(carts := db.carts[..k] + db.carts[k + 1..]))
  }

  method RemoveFromCart(store: Store.Database, userId: nat, id: nat) returns (r: Response<CartEntry>)
    modifies store
    ensures (r, store.State()) == RemoveSpec(old(store.State()), userId, id)
  {
    var cartItem := OwnLine(store.carts, id, userId);
    if cartItem.None? {
      return NotFound(Some(NoSuchLine));
    }
    store.carts := store.carts[..cartItem.value] + store.carts[cartItem.value + 1..];
    r := Responses.Success(None, Some("Buku berhasil dihapus dari keranjang"), None);
  }

  /** A line that is missing or someone else's is not found and nothing changes; otherwise
      exactly that line goes, and every other user's cart stays as it was. */
  lemma RemoveEffect(db: Db, userId: nat, id: nat)
    requires Ordered(db.carts)
    ensures var r := RemoveSpec(db, userId, id);
            var own := exists j | 0 <= j < |db.carts| :: db.carts[j].id == id && db.carts[j].val.userId == userId;
            && (r.0.status == 200 || r.0.status == 404)
            && (r.0.status == 404 <==> !own)
            && (r.0.status == 404 ==> r.1 == db && r.0.body.message == Some(NoSuchLine))
            && (r.0.status == 200 ==>
                  && |r.1.carts| == |db.carts| - 1
                  && (forall row :: row in r.1.carts <==> row in db.carts && row.id != id))
            && (forall u: nat | u != userId :: CartOf(r.1.carts, u) == CartOf(db.carts, u))
            && r.1.(carts := db.carts) == db
  {
    match OwnLine(db.carts, id, userId)
    case None =>
    case Some(k) =>
      RemovedRows(db.carts, k);
      forall u: nat | u != userId ensures CartOf(db.carts[..k] + db.carts[k + 1..], u) == CartOf(db.carts, u) {
        RemovedSparesOthers(db.carts, k, u);
      }
  }

  /** Cutting row k out of an ordered table removes exactly the row with its key. */
  lemma RemovedRows(carts: Table<CartLine>, k: nat)
    requires Ordered(carts) && k < |carts|
    ensures var c := carts[..k] + carts[k + 1..];
            && |c| == |carts| - 1
            && forall row :: row in c <==> row in carts && row.id != carts[k].id
  {
    var before, after := carts[..k], carts[k + 1..];
    var c := before + after;
    forall row ensures row in c <==> row in carts && row.id != carts[k].id {
      if row in carts && row.id != carts[k].id {
        var j :| 0 <= j < |carts| && carts[j] == row;
        if j < k { assert before[j] == row; } else { assert after[j - k - 1] == row; }
      }
      if row in c {
        if row in before {
          var j :| 0 <= j < |before| && before[j] == row;
          assert carts[j] == row;
        } else {
          var j :| 0 <= j < |after| && after[j] == row;
          assert carts[j + k + 1] == row;
        }
      }
    }
  }

  /** Cutting out one user's line leaves every other user's cart as it was. */
  lemma RemovedSparesOthers(carts: Table<CartLine>, k: nat, u: nat)
    requires k < |carts| && carts[k].val.userId != u
    ensures CartOf(carts[..k] + carts[k + 1..], u) == CartOf(carts, u)
  {
    assert carts == carts[..k] + [carts[k]] + carts[k + 1..];
    WhereSkip(carts[..k], carts[k], carts[k + 1..], ByUser(u));
  }

  /** Removing a line keeps every schema constraint. */
  lemma RemoveKeepsValid(db: Db, userId: nat, id: nat)
    requires Valid(db)
    ensures Valid(RemoveSpec(db, userId, id).1)
  {
    match OwnLine(db.carts, id, userId)
    case None =>
    case Some(k) => DropLineKeepsValid(db, k);
  }

  /** Deleting one cart line keeps every schema constraint. */
  lemma DropLineKeepsValid(db: Db, k: nat)
    requires Valid(db) && k < |db.carts|
    ensures Valid(db.(carts := db.carts[..k] + db.carts[k + 1..]))
  {
    var c := db.carts[..k] + db.carts[k + 1..];
    assert forall j | 0 <= j < |c| :: c[j] == db.carts[if j < k then j else j + 1];
    assert Keyed(c, db.next.cart);
    assert CartsValid(c, db.books, db.users);
  }

  // ---------------------------------------------------------------------------
  // updateCartQuantity

  /** `updateCartQuantity`: set one of the caller's lines to an exact quantity within stock.
      The book's active flag is not consulted; a line whose book is gone makes the handler
      throw. */
  function UpdateSpec(db: Db, userId: nat, id: nat, quantity: Option<int>): (Response<CartEntry>, Db) {
    if quantity.None? || quantity.value < 1 then (BadRequest("Quantity minimal 1"), db)
    else match OwnLine(db.carts, id, userId)
      case None => (NotFound(Some(NoSuchLine)), db)
      case Some(k) =>
        match IndexOf(db.books, db.carts[k].val.bookId)
        case None => (ServerError("Error saat mengupdate quantity"), db)
        case Some(b) =>
          if db.books[b].val.stock < quantity.value then (BadRequest(StockLeft(db.books[b].val.stock)), db)
          else
            var saved := Row(db.carts[k].id, db.carts[k].val.(quantity := quantity.value));
            (Responses.Success(Some(CartEntry(saved, Some(db.books[b]))), Some("Quantity berhasil diupdate"), None),
             db.(carts := db.carts[k := saved]))
  }

  method UpdateCartQuantity(store: Store.Database, userId: nat, id: nat, quantity: Option<int>)
    returns (r: Response<CartEntry>)
    modifies store
    ensures (r, store.State()) == UpdateSpec(old(store.State()), userId, id, quantity)
  {
    if quantity.None? || quantity.value < 1 {
      return BadRequest("Quantity minimal 1");
    }
    var k := OwnLine(store.carts, id, userId);
    if k.None? {
      return NotFound(Some(NoSuchLine));
    }
    var cartItem := store.carts[k.value];
    var b := IndexOf(store.books, cartItem.val.bookId);
    if b.None? {
      return ServerError("Error saat mengupdate quantity");
    }
    var book := store.books[b.value];
    if book.val.stock < quantity.value {
      return BadRequest(StockLeft(book.val.stock));
    }
    cartItem := Row(cartItem.id, cartItem.val.(quantity := quantity.value));
    store.carts := store.carts[k.value := cartItem];
    r := Responses.Success(Some(CartEntry(cartItem, Some(book))), Some("Quantity berhasil diupdate"), None);
  }

  /** 400 for a quantity below 1 or above stock, 404 for a line that is not the caller's; on
      success the line holds exactly the quantity asked for and nothing else changes. */
  lemma UpdateEffect(db: Db, userId: nat, id: nat, quantity: Option<int>)
    requires CartsValid(db.carts, db.books, db.users)
    ensures var r := UpdateSpec(db, userId, id, quantity);
            var k := OwnLine(db.carts, id, userId);
            && (r.0.status == 200 || r.0.status == 400 || r.0.status == 404)
            && (r.0.status != 200 ==> r.1 == db && !r.0.body.success)
            && (quantity.None? || quantity.value < 1 ==> r.0.status == 400 && r.0.body.message == Some("Quantity minimal 1"))
            && (r.0.status == 404 <==> quantity.Some? && quantity.value >= 1 && k.None?)
            && (quantity.Some? && quantity.value >= 1 && k.Some? ==>
                  var book := db.books[IndexOf(db.books, db.carts[k.value].val.bookId).value];
                  (r.0.status == 400 <==> book.val.stock < quantity.value)
                  && (r.0.status == 400 ==> r.0.body.message == Some(StockLeft(book.val.stock))))
            && (r.0.status == 200 ==>
                  && |r.1.carts| == |db.carts|
                  && r.1.carts[k.value] == Row(id, db.carts[k.value].val.(quantity := quantity.value))
                  && (forall j | 0 <= j < |db.carts| && j != k.value :: r.1.carts[j] == db.carts[j])
                  && r.1.(carts := db.carts) == db)
  {
  }

  /** Re-counting keeps every schema constraint. */
  lemma UpdateKeepsValid(db: Db, userId: nat, id: nat, quantity: Option<int>)
    requires Valid(db)
    ensures Valid(UpdateSpec(db, userId, id, quantity).1)
  {
    var r := UpdateSpec(db, userId, id, quantity);
    if r.0.status == 200 {
      var k := OwnLine(db.carts, id, userId).value;
      assert r.1 == db.(carts := db.carts[k := Row(db.carts[k].id, db.carts[k].val.(quantity := quantity.value))]);
      RecountKeepsValid(db, k, quantity.value);
    }
  }

  /** Setting one line to a positive quantity keeps every schema constraint. */
  lemma RecountKeepsValid(db: Db, k: nat, quantity: int)
    requires Valid(db) && k < |db.carts| && quantity >= 1
    ensures Valid(db.(carts := db.carts[k := Row(db.carts[k].id, db.carts[k].val.(quantity := quantity))]))
  {
    var c := db.carts[k := Row(db.carts[k].id, db.carts[k].val.(quantity := quantity))];
    assert forall j | 0 <= j < |c| :: c[j].id == db.carts[j].id;
    assert Keyed(c, db.next.cart);
    assert CartsValid(c, db.books, db.users);
  }
}
