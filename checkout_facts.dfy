/** What checkout guarantees, proved on its specification: it fails without touching the
    database exactly when the cart is empty, a line is short of stock, or the order number
    clashes; when it succeeds it records one order priced at the cart's value, one item per
    cart line, one pending payment for the same amount, decrements each book by the quantity
    ordered, empties this customer's cart and nobody else's, and keeps every schema
    constraint, stock >= 0 included. */
module CheckoutFacts {
  import opened Common
  import opened Schema
  import opened Responses
  import opened Orders

  // ---------------------------------------------------------------------------
  // Reference definitions

  /** The cart's value at the books' current prices: the sum of price times quantity. */
  function CartValue(books: Table<Book>, lines: Table<CartLine>): int
    decreases |lines|
  {
    if lines == [] then 0
    else
      var line := lines[|lines| - 1].val;
      CartValue(books, lines[..|lines| - 1])
        + match Lookup(books, line.bookId) {
            case None => 0
            case Some(b) => b.price * line.quantity
          }
  }

  /** The total quantity of a book over some cart lines. */
  function QtyIn(lines: Table<CartLine>, bookId: nat): int
    decreases |lines|
  {
    if lines == [] then 0
    else
      var line := lines[|lines| - 1].val;
      QtyIn(lines[..|lines| - 1], bookId) + (if line.bookId == bookId then line.quantity else 0)
  }

  /** The total quantity of a book over some drafts. */
  function QtyOf(drafts: seq<Draft>, bookId: nat): int
    decreases |drafts|
  {
    if drafts == [] then 0
    else
      var d := drafts[|drafts| - 1];
      QtyOf(drafts[..|drafts| - 1], bookId) + (if d.bookId == bookId then d.quantity else 0)
  }

  /** A line whose book exists but has less stock than the line asks for. */
  predicate Short(books: Table<Book>, line: CartLine) {
    match Lookup(books, line.bookId)
    case None => false
    case Some(b) => b.stock < line.quantity
  }

  /** The drafts are the cart lines, one each and in order, priced from the books. */
  predicate Mirrors(books: Table<Book>, lines: Table<CartLine>, drafts: seq<Draft>) {
    |drafts| == |lines| &&
    forall k | 0 <= k < |lines| :: HasId(books, lines[k].val.bookId) && drafts[k] == DraftOf(books, lines[k].val)
  }

  // ---------------------------------------------------------------------------
  // The validation loop

  /** The loop accepts the cart exactly when every line passes, and then its drafts mirror
      the lines and its total is the cart's value. */
  lemma {:induction false} ScanAccepts(books: Table<Book>, lines: Table<CartLine>)
    ensures ScanLines(books, lines).Scanned? <==> forall k | 0 <= k < |lines| :: LineOk(books, lines[k].val)
    ensures ScanLines(books, lines).Scanned? ==>
              Mirrors(books, lines, ScanLines(books, lines).drafts)
              && ScanLines(books, lines).total == CartValue(books, lines)
    decreases |lines|
  {
    if lines != [] {
      var init := lines[..|lines| - 1];
      var line := lines[|lines| - 1].val;
      ScanAccepts(books, init);
      assert forall k | 0 <= k < |init| :: init[k] == lines[k];
      if ScanLines(books, init).Scanned? {
        var s := ScanLines(books, init);
        assert ScanLines(books, lines) == ScanStep(books, line, s.drafts, s.total);
      }
    }
  }

  /** The first line that fails decides the reply: 400 naming the book and its stock, or a
      500 when its book is gone. */
  lemma FirstFailureDecides(books: Table<Book>, lines: Table<CartLine>, k: nat)
    requires k < |lines| && !LineOk(books, lines[k].val)
    requires forall j | 0 <= j < k :: LineOk(books, lines[j].val)
    ensures ScanLines(books, lines) ==
              Stopped(if HasId(books, lines[k].val.bookId)
                      then BadRequest(ShortOfStock(Lookup(books, lines[k].val.bookId).value))
                      else ServerError(CheckoutFailed))
  {
    var pre := lines[..k];
    ScanAccepts(books, pre);
    assert lines[..k + 1][..k] == pre;
    var s := ScanLines(books, pre);
    assert ScanLines(books, lines[..k + 1]) == ScanStep(books, lines[k].val, s.drafts, s.total);
    ScanStopped(books, lines, k + 1);
  }

  /** A failing line has a first failing line at or before it. */
  lemma FirstFailing(books: Table<Book>, lines: Table<CartLine>, k: nat) returns (m: nat)
    requires k < |lines| && !LineOk(books, lines[k].val)
    ensures m <= k && !LineOk(books, lines[m].val)
    ensures forall j | 0 <= j < m :: LineOk(books, lines[j].val)
    decreases k
  {
    if j :| 0 <= j < k && !LineOk(books, lines[j].val) {
      m := FirstFailing(books, lines, j);
    } else {
      m := k;
    }
  }

  // ---------------------------------------------------------------------------
  // Failures

  /** Every cart line names an existing book, so a line fails only by being short. */
  lemma LinesHaveBooks(carts: Table<CartLine>, books: Table<Book>, users: Table<User>, userId: nat)
    requires CartsValid(carts, books, users)
    ensures forall k | 0 <= k < |CartOf(carts, userId)| ::
              && HasId(books, CartOf(carts, userId)[k].val.bookId)
              && (LineOk(books, CartOf(carts, userId)[k].val) <==> !Short(books, CartOf(carts, userId)[k].val))
  {
    var lines := CartOf(carts, userId);
    forall k | 0 <= k < |lines|
      ensures HasId(books, lines[k].val.bookId)
      ensures LineOk(books, lines[k].val) <==> !Short(books, lines[k].val)
    {
      assert lines[k] in carts;
    }
  }

  /** Checkout answers 201, 400 or 500; anything but 201 leaves the database as it was; 400
      means an empty cart or a line short of stock, and 500 (with every line's book
      present) a clashing order number. */
  lemma CheckoutOutcomes(db: Db, userId: nat, shippingAddress: Option<string>, now: int,
                         timestamp: nat, draw: real)
    requires 0.0 <= draw < 1.0 && CartsValid(db.carts, db.books, db.users)
    ensures var r := CheckoutSpec(db, userId, shippingAddress, now, timestamp, draw);
            var lines := CartOf(db.carts, userId);
            && (r.0.status == 201 || r.0.status == 400 || r.0.status == 500)
            && (r.0.status != 201 ==> r.1 == db && !r.0.body.success)
            && (r.0.status == 400 <==>
                  lines == [] || exists k | 0 <= k < |lines| :: Short(db.books, lines[k].val))
            && (r.0.status == 500 <==>
                  lines != [] && (forall k | 0 <= k < |lines| :: !Short(db.books, lines[k].val))
                  && NumberTaken(db.orders, OrderNumber(timestamp, draw)))
  {
    var lines := CartOf(db.carts, userId);
    LinesHaveBooks(db.carts, db.books, db.users, userId);
    ScanAccepts(db.books, lines);
    StoppedFails(db.books, lines);
    if lines != [] && ScanLines(db.books, lines).Stopped? {
      var k :| 0 <= k < |lines| && !LineOk(db.books, lines[k].val);
      var m := FirstFailing(db.books, lines, k);
      FirstFailureDecides(db.books, lines, m);
    }
  }

  /** A short line stops checkout with the message naming the first short book and the stock
      it has. */
  lemma CheckoutShortOfStock(db: Db, userId: nat, shippingAddress: Option<string>, now: int,
                             timestamp: nat, draw: real, k: nat)
    requires 0.0 <= draw < 1.0 && CartsValid(db.carts, db.books, db.users)
    requires k < |CartOf(db.carts, userId)| && Short(db.books, CartOf(db.carts, userId)[k].val)
    requires forall j | 0 <= j < k :: !Short(db.books, CartOf(db.carts, userId)[j].val)
    ensures CheckoutSpec(db, userId, shippingAddress, now, timestamp, draw) ==
              (BadRequest(ShortOfStock(Lookup(db.books, CartOf(db.carts, userId)[k].val.bookId).value)), db)
  {
    LinesHaveBooks(db.carts, db.books, db.users, userId);
    FirstFailureDecides(db.books, CartOf(db.carts, userId), k);
  }

  // ---------------------------------------------------------------------------
  // Success

  /** A successful checkout accepted every line, its order number was free, and it wrote
      `Place` of the loop's drafts. */
  lemma Succeeded(db: Db, userId: nat, shippingAddress: Option<string>, now: int,
                  timestamp: nat, draw: real)
    requires 0.0 <= draw < 1.0
    requires CheckoutSpec(db, userId, shippingAddress, now, timestamp, draw).0.status == 201
    ensures var lines := CartOf(db.carts, userId);
            var s := ScanLines(db.books, lines);
            && lines != [] && s.Scanned?
            && (forall k | 0 <= k < |lines| :: LineOk(db.books, lines[k].val))
            && Mirrors(db.books, lines, s.drafts) && s.total == CartValue(db.books, lines)
            && !NumberTaken(db.orders, OrderNumber(timestamp, draw))
            && var placed := Place(db, userId, shippingAddress, now, OrderNumber(timestamp, draw), s.drafts, s.total);
               CheckoutSpec(db, userId, shippingAddress, now, timestamp, draw)
                 == (Responses.Success(Some(ViewOf(placed, placed.orders[|placed.orders| - 1])),
                                       Some("Checkout berhasil"), Some(201)), placed)
  {
    ScanAccepts(db.books, CartOf(db.carts, userId));
    StoppedFails(db.books, CartOf(db.carts, userId));
  }

  /** The loop stops only with a failure reply. */
  lemma {:induction false} StoppedFails(books: Table<Book>, lines: Table<CartLine>)
    ensures ScanLines(books, lines).Stopped? ==>
              && (ScanLines(books, lines).reply.status == 400 || ScanLines(books, lines).reply.status == 500)
              && !ScanLines(books, lines).reply.body.success
    decreases |lines|
  {
    if lines != [] {
      StoppedFails(books, lines[..|lines| - 1]);
    }
  }

  lemma {:induction false} ItemRowsAt(drafts: seq<Draft>, orderId: nat, firstId: nat, now: int, k: nat)
    requires k < |drafts|
    ensures ItemRows(drafts, orderId, firstId, now)[k]
              == Row(firstId + k, OrderItem(orderId, drafts[k].bookId, drafts[k].quantity,
                                            drafts[k].price, drafts[k].subtotal, now))
    decreases |drafts|
  {
    if k < |drafts| - 1 {
      ItemRowsAt(drafts[..|drafts| - 1], orderId, firstId, now, k);
    }
  }

  /** The rows `Place` appends: the order, its items with consecutive keys, the payment. */
  lemma PlaceRecords(db: Db, userId: nat, shippingAddress: Option<string>, now: int,
                     number: string, drafts: seq<Draft>, total: int)
    ensures var db' := Place(db, userId, shippingAddress, now, number, drafts, total);
            var orderId := db.next.order;
            && db'.orders == db.orders + [Row(orderId, Order(userId, number, total, OrderStatus.Pending,
                                                              OrNull(shippingAddress), now))]
            && db'.payments == db.payments + [Row(db.next.payment, Payment(orderId, None, total,
                                                                            PaymentStatus.Pending, None, None))]
            && |db'.items| == |db.items| + |drafts| && db'.items[..|db.items|] == db.items
            && (forall k | 0 <= k < |drafts| ::
                  db'.items[|db.items| + k] == Row(db.next.item + k, OrderItem(orderId, drafts[k].bookId,
                                                     drafts[k].quantity, drafts[k].price, drafts[k].subtotal, now)))
            && db'.users == db.users && db'.sessions == db.sessions
            && db'.next == db.next.(order := orderId + 1, item := db.next.item + |drafts|,
                                    payment := db.next.payment + 1)
  {
    var db' := Place(db, userId, shippingAddress, now, number, drafts, total);
    var added := ItemRows(drafts, db.next.order, db.next.item, now);
    assert db'.items == db.items + added;
    assert db'.items[..|db.items|] == db.items;
    forall k | 0 <= k < |drafts|
      ensures db'.items[|db.items| + k] == Row(db.next.item + k, OrderItem(db.next.order, drafts[k].bookId,
                                                 drafts[k].quantity, drafts[k].price, drafts[k].subtotal, now))
    {
      assert db'.items[|db.items| + k] == added[k];
      ItemRowsAt(drafts, db.next.order, db.next.item, now, k);
    }
  }

  /** A successful checkout appends one pending order for the cart's value, one item per
      cart line with the book's price at checkout as its snapshot, and one pending payment
      for the order's total; users, sessions and the other counters stay as they were. */
  lemma CheckoutRecords(db: Db, userId: nat, shippingAddress: Option<string>, now: int,
                        timestamp: nat, draw: real)
    requires 0.0 <= draw < 1.0
    requires CheckoutSpec(db, userId, shippingAddress, now, timestamp, draw).0.status == 201
    ensures var db' := CheckoutSpec(db, userId, shippingAddress, now, timestamp, draw).1;
            var lines := CartOf(db.carts, userId);
            var orderId := db.next.order;
            var total := CartValue(db.books, lines);
            && db'.orders == db.orders + [Row(orderId, Order(userId, OrderNumber(timestamp, draw), total,
                                                              OrderStatus.Pending, OrNull(shippingAddress), now))]
            && db'.payments == db.payments + [Row(db.next.payment, Payment(orderId, None, total,
                                                                            PaymentStatus.Pending, None, None))]
            && |db'.items| == |db.items| + |lines| && db'.items[..|db.items|] == db.items
            && (forall k | 0 <= k < |lines| ::
                  && HasId(db.books, lines[k].val.bookId)
                  && db'.items[|db.items| + k] == NewItem(db, lines[k].val, orderId, db.next.item + k, now))
            && db'.users == db.users && db'.sessions == db.sessions
            && db'.next == db.next.(order := orderId + 1, item := db.next.item + |lines|,
                                    payment := db.next.payment + 1)
  {
    Succeeded(db, userId, shippingAddress, now, timestamp, draw);
    var lines := CartOf(db.carts, userId);
    var s := ScanLines(db.books, lines);
    PlaceRecords(db, userId, shippingAddress, now, OrderNumber(timestamp, draw), s.drafts, s.total);
  }

  /** The order item checkout writes for a cart line: the book's price at that moment and
      price times quantity. */
  function NewItem(db: Db, line: CartLine, orderId: nat, id: nat, now: int): Row<OrderItem>
    requires HasId(db.books, line.bookId)
  {
    var price := Lookup(db.books, line.bookId).value.price;
    Row(id, OrderItem(orderId, line.bookId, line.quantity, price, price * line.quantity, now))
  }

  // ---------------------------------------------------------------------------
  // Stock

  lemma DecrementAt(books: Table<Book>, bookId: nat, amount: int, i: nat)
    requires Ordered(books) && i < |books|
    ensures Decrement(books, bookId, amount)[i]
              == Row(books[i].id, books[i].val.(stock := books[i].val.stock - (if books[i].id == bookId then amount else 0)))
  {
    OrderedIndex(books, i);
  }

  /** After the decrement loop each book has lost the total quantity the drafts name. */
  lemma {:induction false} DecrementedAt(books: Table<Book>, drafts: seq<Draft>, i: nat)
    requires Ordered(books) && i < |books|
    ensures Decremented(books, drafts)[i]
              == Row(books[i].id, books[i].val.(stock := books[i].val.stock - QtyOf(drafts, books[i].id)))
    decreases |drafts|
  {
    if drafts != [] {
      var init := drafts[..|drafts| - 1];
      var d := drafts[|drafts| - 1];
      var mid := Decremented(books, init);
      DecrementedAt(books, init, i);
      DecrementAt(mid, d.bookId, d.quantity, i);
    }
  }

  /** The drafts name the lines' books and quantities, in order. */
  predicate SameQuantities(lines: Table<CartLine>, drafts: seq<Draft>) {
    |drafts| == |lines| &&
    forall k | 0 <= k < |lines| :: drafts[k].bookId == lines[k].val.bookId && drafts[k].quantity == lines[k].val.quantity
  }

  lemma {:induction false} QtyMirrors(lines: Table<CartLine>, drafts: seq<Draft>, bookId: nat)
    requires SameQuantities(lines, drafts)
    ensures QtyOf(drafts, bookId) == QtyIn(lines, bookId)
    decreases |lines|
  {
    if lines != [] {
      var n := |lines|;
      assert SameQuantities(lines[..n - 1], drafts[..n - 1]) by {
        forall k | 0 <= k < n - 1 ensures lines[..n - 1][k] == lines[k] && drafts[..n - 1][k] == drafts[k] {
        }
      }
      QtyMirrors(lines[..n - 1], drafts[..n - 1], bookId);
    }
  }

  /** No two lines name the same book. */
  predicate DistinctBooks(lines: Table<CartLine>) {
    forall i, j | 0 <= i < j < |lines| :: lines[i].val.bookId != lines[j].val.bookId
  }

  lemma {:induction false} QtyInAbsent(lines: Table<CartLine>, bookId: nat)
    requires forall k | 0 <= k < |lines| :: lines[k].val.bookId != bookId
    ensures QtyIn(lines, bookId) == 0
    decreases |lines|
  {
    if lines != [] {
      QtyInAbsent(lines[..|lines| - 1], bookId);
    }
  }

  lemma {:induction false} QtyInDistinct(lines: Table<CartLine>, k: nat)
    requires DistinctBooks(lines) && k < |lines|
    ensures QtyIn(lines, lines[k].val.bookId) == lines[k].val.quantity
    decreases |lines|
  {
    var n := |lines|;
    var init := lines[..n - 1];
    if k < n - 1 {
      QtyInDistinct(init, k);
    } else {
      QtyInAbsent(init, lines[k].val.bookId);
    }
  }

  /** The unique (userId, bookId) index gives one line per book in a customer's cart. */
  lemma CartDistinct(carts: Table<CartLine>, books: Table<Book>, users: Table<User>, userId: nat)
    requires Ordered(carts) && CartsValid(carts, books, users)
    ensures DistinctBooks(CartOf(carts, userId))
  {
    var lines := CartOf(carts, userId);
    forall i, j | 0 <= i < j < |lines| ensures lines[i].val.bookId != lines[j].val.bookId {
      WhereOrigins(carts, ByUser(userId), i, j);
      assert lines[i].val.userId == userId && lines[j].val.userId == userId;
    }
  }

  /** A successful checkout lowers each book's stock by the quantity of its line in the cart
      (there is at most one) and leaves every other column of every book as it was; no stock
      goes below zero. */
  lemma CheckoutStock(db: Db, userId: nat, shippingAddress: Option<string>, now: int,
                      timestamp: nat, draw: real)
    requires 0.0 <= draw < 1.0
    requires Ordered(db.books) && BooksValid(db.books)
    requires Ordered(db.carts) && CartsValid(db.carts, db.books, db.users)
    requires CheckoutSpec(db, userId, shippingAddress, now, timestamp, draw).0.status == 201
    ensures StockTaken(db.books, CheckoutSpec(db, userId, shippingAddress, now, timestamp, draw).1.books,
                       CartOf(db.carts, userId))
    ensures forall k | 0 <= k < |CartOf(db.carts, userId)| ::
              QtyIn(CartOf(db.carts, userId), CartOf(db.carts, userId)[k].val.bookId)
                == CartOf(db.carts, userId)[k].val.quantity
  {
    Succeeded(db, userId, shippingAddress, now, timestamp, draw);
    var lines := CartOf(db.carts, userId);
    CartDistinct(db.carts, db.books, db.users, userId);
    forall k | 0 <= k < |lines| ensures QtyIn(lines, lines[k].val.bookId) == lines[k].val.quantity {
      QtyInDistinct(lines, k);
    }
    var drafts := ScanLines(db.books, lines).drafts;
    assert SameQuantities(lines, drafts);
    MirroredDecrement(db.books, lines, drafts);
  }

  /** Each book lost exactly the quantity the lines ask of it, and no stock is negative. */
  ghost predicate StockTaken(before: Table<Book>, after: Table<Book>, lines: Table<CartLine>) {
    && |after| == |before|
    && (forall i | 0 <= i < |before| ::
          after[i] == Row(before[i].id, before[i].val.(stock := before[i].val.stock - QtyIn(lines, before[i].id))))
    && (forall i | 0 <= i < |before| :: after[i].val.stock >= 0)
  }

  /** Decrementing for drafts that mirror accepted lines with distinct books. */
  lemma MirroredDecrement(books: Table<Book>, lines: Table<CartLine>, drafts: seq<Draft>)
    requires Ordered(books) && BooksValid(books) && SameQuantities(lines, drafts) && DistinctBooks(lines)
    requires forall k | 0 <= k < |lines| :: LineOk(books, lines[k].val)
    ensures StockTaken(books, Decremented(books, drafts), lines)
  {
    var after := Decremented(books, drafts);
    forall i | 0 <= i < |books|
      ensures after[i] == Row(books[i].id, books[i].val.(stock := books[i].val.stock - QtyIn(lines, books[i].id)))
      ensures after[i].val.stock >= 0
    {
      DecrementedAt(books, drafts, i);
      QtyMirrors(lines, drafts, books[i].id);
      StockCovers(books, lines, i);
    }
  }

  /** Each book has at least as much stock as the accepted lines ask of it. */
  lemma StockCovers(books: Table<Book>, lines: Table<CartLine>, i: nat)
    requires Ordered(books) && BooksValid(books) && DistinctBooks(lines) && i < |books|
    requires forall k | 0 <= k < |lines| :: LineOk(books, lines[k].val)
    ensures QtyIn(lines, books[i].id) <= books[i].val.stock
  {
    var id := books[i].id;
    if k :| 0 <= k < |lines| && lines[k].val.bookId == id {
      QtyInDistinct(lines, k);
      OrderedIndex(books, i);
      assert LineOk(books, lines[k].val);
    } else {
      QtyInAbsent(lines, id);
    }
  }

  // ---------------------------------------------------------------------------
  // Carts

  /** Filtering by a stronger condition after a weaker one is filtering by the stronger. */
  lemma WhereWhere<T>(t: Table<T>, p: T -> bool, q: T -> bool)
    requires forall x :: q(x) ==> p(x)
    ensures Where(Where(t, p), q) == Where(t, q)
  {
    WhereBoth(t, p, q, q);
  }

  /** Checkout empties this customer's cart and no other customer's. */
  lemma CheckoutClearsCart(db: Db, userId: nat, shippingAddress: Option<string>, now: int,
                           timestamp: nat, draw: real)
    requires 0.0 <= draw < 1.0
    requires CheckoutSpec(db, userId, shippingAddress, now, timestamp, draw).0.status == 201
    ensures var db' := CheckoutSpec(db, userId, shippingAddress, now, timestamp, draw).1;
            && CartOf(db'.carts, userId) == []
            && forall other: nat | other != userId :: CartOf(db'.carts, other) == CartOf(db.carts, other)
  {
    Succeeded(db, userId, shippingAddress, now, timestamp, draw);
    var db' := CheckoutSpec(db, userId, shippingAddress, now, timestamp, draw).1;
    assert db'.carts == Where(db.carts, NotUser(userId));
    WhereNone(db'.carts, ByUser(userId));
    forall other: nat | other != userId ensures CartOf(db'.carts, other) == CartOf(db.carts, other) {
      WhereWhere(db.carts, NotUser(userId), ByUser(other));
    }
  }

  // ---------------------------------------------------------------------------
  // The reply

  /** The 201 reply carries the new order with exactly the items and the one payment this
      checkout created. */
  lemma CheckoutReply(db: Db, userId: nat, shippingAddress: Option<string>, now: int,
                      timestamp: nat, draw: real)
    requires 0.0 <= draw < 1.0 && Keyed(db.orders, db.next.order)
    requires ItemsValid(db.items, db.orders, db.books) && PaymentsValid(db.payments, db.orders)
    requires CheckoutSpec(db, userId, shippingAddress, now, timestamp, draw).0.status == 201
    ensures var r := CheckoutSpec(db, userId, shippingAddress, now, timestamp, draw);
            && r.0.body.success && r.0.body.message == Some("Checkout berhasil")
            && |r.1.orders| == |db.orders| + 1 && |r.1.payments| == |db.payments| + 1
            && |db.items| <= |r.1.items|
            && r.0.body.data == Some(OrderView(r.1.orders[|db.orders|], r.1.items[|db.items|..],
                                               ItemBooks(r.1.books, r.1.items[|db.items|..]),
                                               [r.1.payments[|db.payments|]]))
  {
    Succeeded(db, userId, shippingAddress, now, timestamp, draw);
    var s := ScanLines(db.books, CartOf(db.carts, userId));
    PlaceReply(db, userId, shippingAddress, now, OrderNumber(timestamp, draw), s.drafts, s.total);
  }

  /** The order as read back after `Place`: the new row, the new items, the new payment. */
  lemma PlaceReply(db: Db, userId: nat, shippingAddress: Option<string>, now: int,
                   number: string, drafts: seq<Draft>, total: int)
    requires Keyed(db.orders, db.next.order)
    requires ItemsValid(db.items, db.orders, db.books) && PaymentsValid(db.payments, db.orders)
    ensures var db' := Place(db, userId, shippingAddress, now, number, drafts, total);
            && |db'.orders| == |db.orders| + 1 && |db'.payments| == |db.payments| + 1
            && |db.items| <= |db'.items|
            && ViewOf(db', db'.orders[|db'.orders| - 1])
                 == OrderView(db'.orders[|db.orders|], db'.items[|db.items|..],
                              ItemBooks(db'.books, db'.items[|db.items|..]), [db'.payments[|db.payments|]])
  {
    var db' := Place(db, userId, shippingAddress, now, number, drafts, total);
    var oid := db.next.order;
    var added := ItemRows(drafts, oid, db.next.item, now);
    assert db'.items[|db.items|..] == added;
    OnlyNewItems(db.items, db.orders, db.books, drafts, oid, db.next.item, now);
    OnlyNewPayment(db.payments, db.orders, db'.payments[|db.payments|]);
    assert db'.payments == db.payments + [db'.payments[|db.payments|]];
  }

  /** Items written before an order existed do not belong to it. */
  lemma OnlyNewItems(items: Table<OrderItem>, orders: Table<Order>, books: Table<Book>,
                     drafts: seq<Draft>, oid: nat, next: nat, now: int)
    requires Keyed(orders, oid) && ItemsValid(items, orders, books)
    ensures ItemsOf(items + ItemRows(drafts, oid, next, now), oid) == ItemRows(drafts, oid, next, now)
  {
    var added := ItemRows(drafts, oid, next, now);
    forall i | 0 <= i < |items| ensures !ForOrder(oid)(items[i].val) {
      var j :| 0 <= j < |orders| && orders[j].id == items[i].val.orderId;
    }
    WhereNone(items, ForOrder(oid));
    forall k | 0 <= k < |added| ensures ForOrder(oid)(added[k].val) {
      ItemRowsAt(drafts, oid, next, now, k);
    }
    WhereAll(added, ForOrder(oid));
    WhereAppend(items, added, ForOrder(oid));
  }

  /** Payments written before an order existed do not belong to it. */
  lemma OnlyNewPayment(payments: Table<Payment>, orders: Table<Order>, p: Row<Payment>)
    requires Keyed(orders, p.val.orderId) && PaymentsValid(payments, orders)
    ensures PaymentsOf(payments + [p], p.val.orderId) == [p]
  {
    var oid := p.val.orderId;
    forall i | 0 <= i < |payments| ensures !PaidFor(oid)(payments[i].val) {
      var j :| 0 <= j < |orders| && orders[j].id == payments[i].val.orderId;
    }
    WhereNone(payments, PaidFor(oid));
    WhereAll([p], PaidFor(oid));
    WhereAppend(payments, [p], PaidFor(oid));
  }

  // ---------------------------------------------------------------------------
  // The schema constraints

  lemma KeyedItemRows(items: Table<OrderItem>, drafts: seq<Draft>, orderId: nat, next: nat, now: int)
    requires Keyed(items, next) && next >= 1
    ensures Keyed(items + ItemRows(drafts, orderId, next, now), next + |drafts|)
  {
    var added := ItemRows(drafts, orderId, next, now);
    forall k | 0 <= k < |drafts| ensures added[k].id == next + k {
      ItemRowsAt(drafts, orderId, next, now, k);
    }
  }

  lemma PlaceKeys(db: Db, userId: nat, shippingAddress: Option<string>, now: int,
                  number: string, drafts: seq<Draft>, total: int)
    requires KeysValid(db)
    ensures KeysValid(Place(db, userId, shippingAddress, now, number, drafts, total))
  {
    var db' := Place(db, userId, shippingAddress, now, number, drafts, total);
    KeyedAppend(db.orders, db.next.order, db'.orders[|db.orders|].val);
    assert db'.orders == db.orders + [Row(db.next.order, db'.orders[|db.orders|].val)];
    KeyedAppend(db.payments, db.next.payment, db'.payments[|db.payments|].val);
    assert db'.payments == db.payments + [Row(db.next.payment, db'.payments[|db.payments|].val)];
    KeyedItemRows(db.items, drafts, db.next.order, db.next.item, now);
    WhereKeyed(db.carts, NotUser(userId), db.next.cart);
  }

  /** Lowering stock within what each book has keeps the books valid and their keys. */
  lemma StockTakenKeepsBooks(before: Table<Book>, after: Table<Book>, lines: Table<CartLine>)
    requires BooksValid(before) && StockTaken(before, after, lines)
    ensures BooksValid(after)
  {
    forall i | 0 <= i < |after| ensures after[i].val.isbn == before[i].val.isbn && after[i].val.price == before[i].val.price {
    }
  }

  /** Removing one customer's lines keeps the other lines valid. */
  lemma CartsAfterClear(carts: Table<CartLine>, books: Table<Book>, books': Table<Book>,
                        users: Table<User>, userId: nat)
    requires Ordered(carts) && CartsValid(carts, books, users)
    requires |books'| == |books| && forall k | 0 <= k < |books| :: books'[k].id == books[k].id
    ensures CartsValid(Where(carts, NotUser(userId)), books', users)
  {
    var rest := Where(carts, NotUser(userId));
    forall i | 0 <= i < |rest|
      ensures rest[i].val.quantity >= 1 && HasId(books', rest[i].val.bookId) && HasId(users, rest[i].val.userId)
    {
      var j :| 0 <= j < |carts| && carts[j] == rest[i];
      HasIdSameKeys(books, books', rest[i].val.bookId);
    }
    forall i, j | 0 <= i < j < |rest|
      ensures rest[i].val.userId != rest[j].val.userId || rest[i].val.bookId != rest[j].val.bookId
    {
      WhereOrigins(carts, NotUser(userId), i, j);
    }
  }

  /** Checkout keeps every constraint of the schema; in particular no stock goes negative and
      no two orders share an order number. */
  lemma CheckoutKeepsValid(db: Db, userId: nat, shippingAddress: Option<string>, now: int,
                           timestamp: nat, draw: real)
    requires 0.0 <= draw < 1.0 && Valid(db)
    ensures Valid(CheckoutSpec(db, userId, shippingAddress, now, timestamp, draw).1)
  {
    if CheckoutSpec(db, userId, shippingAddress, now, timestamp, draw).0.status == 201 {
      Succeeded(db, userId, shippingAddress, now, timestamp, draw);
      var lines := CartOf(db.carts, userId);
      var s := ScanLines(db.books, lines);
      PlaceKeepsValid(db, userId, shippingAddress, now, OrderNumber(timestamp, draw), s.drafts, s.total);
    } else {
      CheckoutOutcomes(db, userId, shippingAddress, now, timestamp, draw);
    }
  }

  /** `Place` of an accepted cart with a free order number keeps the database valid. */
  lemma PlaceKeepsValid(db: Db, userId: nat, shippingAddress: Option<string>, now: int,
                        number: string, drafts: seq<Draft>, total: int)
    requires Valid(db) && CartOf(db.carts, userId) != [] && !NumberTaken(db.orders, number)
    requires forall k | 0 <= k < |CartOf(db.carts, userId)| :: LineOk(db.books, CartOf(db.carts, userId)[k].val)
    requires Mirrors(db.books, CartOf(db.carts, userId), drafts)
    ensures Valid(Place(db, userId, shippingAddress, now, number, drafts, total))
  {
    var lines := CartOf(db.carts, userId);
    var db' := Place(db, userId, shippingAddress, now, number, drafts, total);
    PlaceRecords(db, userId, shippingAddress, now, number, drafts, total);
    PlaceKeys(db, userId, shippingAddress, now, number, drafts, total);
    assert KeysValid(db');
    CartDistinct(db.carts, db.books, db.users, userId);
    assert SameQuantities(lines, drafts);
    MirroredDecrement(db.books, lines, drafts);
    StockTakenKeepsBooks(db.books, db'.books, lines);
    assert BooksValid(db'.books);
    CartsAfterClear(db.carts, db.books, db'.books, db.users, userId);
    assert CartsValid(db'.carts, db'.books, db'.users);
    assert lines[0] in db.carts;
    OrdersAfterPlace(db.orders, db'.orders, db.users, userId, number);
    assert OrdersValid(db'.orders, db'.users);
    forall k | 0 <= k < |drafts| ensures HasId(db.books, drafts[k].bookId) {
      assert drafts[k].bookId == lines[k].val.bookId;
    }
    ItemsAfterPlace(db, userId, shippingAddress, now, number, drafts, total);
    assert ItemsValid(db'.items, db'.orders, db'.books);
    PaymentsAfterPlace(db.payments, db.orders, db'.payments, db'.orders);
    assert PaymentsValid(db'.payments, db'.orders);
    assert SessionsValid(db'.sessions, db'.users);
  }

  lemma OrdersAfterPlace(orders: Table<Order>, orders': Table<Order>, users: Table<User>,
                         userId: nat, number: string)
    requires OrdersValid(orders, users) && HasId(users, userId) && !NumberTaken(orders, number)
    requires |orders'| == |orders| + 1 && orders'[..|orders|] == orders
    requires orders'[|orders|].val.userId == userId && orders'[|orders|].val.orderNumber == number
    ensures OrdersValid(orders', users)
  {
    forall i | 0 <= i < |orders| ensures orders'[i] == orders[i] {
      assert orders'[..|orders|][i] == orders'[i];
    }
  }

  lemma PaymentsAfterPlace(payments: Table<Payment>, orders: Table<Order>,
                           payments': Table<Payment>, orders': Table<Order>)
    requires PaymentsValid(payments, orders)
    requires |orders'| == |orders| + 1 && orders'[..|orders|] == orders
    requires |payments'| == |payments| + 1 && payments'[..|payments|] == payments
    requires payments'[|payments|].val.orderId == orders'[|orders|].id
    ensures PaymentsValid(payments', orders')
  {
    forall i | 0 <= i < |payments'| ensures HasId(orders', payments'[i].val.orderId) {
      if i < |payments| {
        assert payments'[i] == payments'[..|payments|][i];
        assert orders' == orders + [orders'[|orders|]];
        HasIdAppend(orders, [orders'[|orders|]], payments'[i].val.orderId);
      }
    }
  }

  lemma ItemsAfterPlace(db: Db, userId: nat, shippingAddress: Option<string>, now: int,
                        number: string, drafts: seq<Draft>, total: int)
    requires ItemsValid(db.items, db.orders, db.books)
    requires forall k | 0 <= k < |drafts| :: HasId(db.books, drafts[k].bookId)
    ensures var db' := Place(db, userId, shippingAddress, now, number, drafts, total);
            ItemsValid(db'.items, db'.orders, db'.books)
  {
    var db' := Place(db, userId, shippingAddress, now, number, drafts, total);
    var added := ItemRows(drafts, db.next.order, db.next.item, now);
    var order := db'.orders[|db.orders|];
    assert db'.orders == db.orders + [order];
    assert db'.items == db.items + added;
    forall i | 0 <= i < |db'.items|
      ensures HasId(db'.orders, db'.items[i].val.orderId) && HasId(db'.books, db'.items[i].val.bookId)
    {
      var x := db'.items[i].val;
      if i < |db.items| {
        assert x == db.items[i].val;
        HasIdAppend(db.orders, [order], x.orderId);
      } else {
        var k := i - |db.items|;
        ItemRowsAt(drafts, db.next.order, db.next.item, now, k);
        assert x == added[k].val;
        assert db'.orders[|db.orders|].id == x.orderId;
      }
      HasIdSameKeys(db.books, db'.books, x.bookId);
    }
  }
}
