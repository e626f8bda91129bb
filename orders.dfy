/** controllers/orderController.js: turning a customer's cart into an order (checkout), the
    customer's order list, and one order's detail. */
module Orders {
  import opened Common
  import opened Schema
  import opened Responses
  import Store

  // ---------------------------------------------------------------------------
  // Order numbers: "ORD-<Date.now()>-<Math.floor(Math.random() * 1000)>"

  /** `Math.floor(draw * 1000)` for a draw of `Math.random()`. */
  function RandomPart(draw: real): (r: nat)
    requires 0.0 <= draw < 1.0
    ensures r < 1000
    ensures r as real <= draw * 1000.0 < r as real + 1.0
  {
    (draw * 1000.0).Floor
  }

  function OrderNumber(timestamp: nat, draw: real): string
    requires 0.0 <= draw < 1.0
  {
    "ORD-" + NatToString(timestamp) + "-" + NatToString(RandomPart(draw))
  }

  /** Reads the timestamp and the random part back out of an order number. */
  function ParseOrderNumber(s: string): Option<(nat, nat)> {
    if !StartsWith(s, "ORD-") then None
    else
      var parts := Split(s[4..], '-');
      if |parts| == 2 && AllDigits(parts[0]) && AllDigits(parts[1]) && parts[0] != [] && parts[1] != []
      then Some((DecimalValue(parts[0]), DecimalValue(parts[1])))
      else None
  }

  lemma NoDash(n: nat)
    ensures '-' !in NatToString(n)
  {
  }

  /** An order number records its timestamp and its random part exactly. */
  lemma OrderNumberRoundTrip(timestamp: nat, draw: real)
    requires 0.0 <= draw < 1.0
    ensures ParseOrderNumber(OrderNumber(timestamp, draw)) == Some((timestamp, RandomPart(draw)))
  {
    var a := NatToString(timestamp);
    var b := NatToString(RandomPart(draw));
    var s := OrderNumber(timestamp, draw);
    assert s[..4] == "ORD-";
    assert s[4..] == a + ['-'] + b;
    NoDash(timestamp);
    NoDash(RandomPart(draw));
    SplitFirst(a, '-', b);
    DecimalRoundTrip(timestamp);
    DecimalRoundTrip(RandomPart(draw));
  }

  /** Two checkouts get the same order number only in the same millisecond with the same
      random part (1000 possibilities), which is when the unique index rejects the second. */
  lemma OrderNumberCollision(t1: nat, d1: real, t2: nat, d2: real)
    requires 0.0 <= d1 < 1.0 && 0.0 <= d2 < 1.0
    ensures OrderNumber(t1, d1) == OrderNumber(t2, d2) <==> t1 == t2 && RandomPart(d1) == RandomPart(d2)
  {
    OrderNumberRoundTrip(t1, d1);
    OrderNumberRoundTrip(t2, d2);
  }

  // ---------------------------------------------------------------------------
  // Checkout, specified on database values

  /** One entry of the order items the validation loop collects. */
  datatype Draft = Draft(bookId: nat, quantity: int, price: int, subtotal: int)

  /** Where the validation loop ends: every line accepted, or a reply that ends the request. */
  datatype Scan = Scanned(drafts: seq<Draft>, total: int) | Stopped(reply: Response<OrderView>)

  const CheckoutFailed := "Error saat checkout"

  function ShortOfStock(b: Book): string {
    "Stock tidak mencukupi untuk buku \"" + b.title + "\". Stock tersedia: " + IntToString(b.stock)
  }

  /** A cart line passes the check: its book exists and has at least the quantity in stock. */
  predicate LineOk(books: Table<Book>, line: CartLine) {
    match Lookup(books, line.bookId)
    case None => false
    case Some(b) => b.stock >= line.quantity
  }

  /** The item recorded for a line that passes: the book's current price as the snapshot. */
  function DraftOf(books: Table<Book>, line: CartLine): Draft
    requires HasId(books, line.bookId)
  {
    var b := Lookup(books, line.bookId).value;
    Draft(line.bookId, line.quantity, b.price, b.price * line.quantity)
  }

  /** One turn of the validation loop. A line whose book row is gone has a null `book`,
      whose `stock` throws, so the request ends in the catch block. */
  function ScanStep(books: Table<Book>, line: CartLine, drafts: seq<Draft>, total: int): Scan {
    match Lookup(books, line.bookId)
    case None => Stopped(ServerError(CheckoutFailed))
    case Some(b) =>
      if b.stock < line.quantity then Stopped(BadRequest(ShortOfStock(b)))
      else Scanned(drafts + [DraftOf(books, line)], total + b.price * line.quantity)
  }

  /** The validation loop over the cart lines, in order. */
  function ScanLines(books: Table<Book>, lines: Table<CartLine>): Scan
    decreases |lines|
  {
    if lines == [] then Scanned([], 0)
    else match ScanLines(books, lines[..|lines| - 1])
      case Stopped(r) => Stopped(r)
      case Scanned(drafts, total) => ScanStep(books, lines[|lines| - 1].val, drafts, total)
  }

  /** A loop that stopped on a prefix stops the same way on the whole cart. */
  lemma {:induction false} ScanStopped(books: Table<Book>, lines: Table<CartLine>, n: nat)
    requires n <= |lines| && ScanLines(books, lines[..n]).Stopped?
    ensures ScanLines(books, lines) == ScanLines(books, lines[..n])
    decreases |lines| - n
  {
    if n < |lines| {
      var m := n + 1;
      assert lines[..m][..n] == lines[..n];
      ScanStopped(books, lines, m);
    } else {
      assert lines[..n] == lines;
    }
  }

  /** The order items of a new order, with consecutive keys from firstId. */
  function ItemRows(drafts: seq<Draft>, orderId: nat, firstId: nat, now: int): (r: Table<OrderItem>)
    ensures |r| == |drafts|
    decreases |drafts|
  {
    if drafts == [] then []
    else
      var d := drafts[|drafts| - 1];
      ItemRows(drafts[..|drafts| - 1], orderId, firstId, now)
        + [Row(firstId + |drafts| - 1, OrderItem(orderId, d.bookId, d.quantity, d.price, d.subtotal, now))]
  }

  /** Checkout's stock update (controllers/orderController.js:86-90): the book with the key
      loses `amount` copies, without any check; every other row stays as it was. */
  function Decrement(books: Table<Book>, bookId: nat, amount: int): (r: Table<Book>)
    ensures |r| == |books| && forall k | 0 <= k < |books| :: r[k].id == books[k].id
  {
    match IndexOf(books, bookId)
    case None => books
    case Some(i) => Put(books, i, books[i].val.(stock := books[i].val.stock - amount))
  }

  /** The stock after decrementing for every draft in turn. */
  function Decremented(books: Table<Book>, drafts: seq<Draft>): (r: Table<Book>)
    ensures |r| == |books| && forall k | 0 <= k < |books| :: r[k].id == books[k].id
    decreases |drafts|
  {
    if drafts == [] then books
    else
      var d := drafts[|drafts| - 1];
      Decrement(Decremented(books, drafts[..|drafts| - 1]), d.bookId, d.quantity)
  }

  predicate NumberTaken(orders: Table<Order>, number: string) {
    exists i | 0 <= i < |orders| :: orders[i].val.orderNumber == number
  }

  /** The committed transaction: the order, its items, the stock decrements, the emptied
      cart and the pending payment. */
  function Place(db: Db, userId: nat, shippingAddress: Option<string>, now: int, number: string,
                 drafts: seq<Draft>, total: int): Db
  {
    var orderId := db.next.order;
    db.(orders := db.orders + [Row(orderId, Order(userId, number, total, OrderStatus.Pending,
                                                   OrNull(shippingAddress), now))],
        items := db.items + ItemRows(drafts, orderId, db.next.item, now),
        books := Decremented(db.books, drafts),
        carts := Where(db.carts, NotUser(userId)),
        payments := db.payments + [Row(db.next.payment, Payment(orderId, None, total,
                                                                 PaymentStatus.Pending, None, None))],
        next := db.next.(order := orderId + 1, item := db.next.item + |drafts|,
                         payment := db.next.payment + 1))
  }

  /** `checkout`: the reply and the database afterwards. Every path but the last rolls the
      transaction back, leaving the database as it was. A clashing order number violates the
      unique index, which throws inside the transaction. */
  function CheckoutSpec(db: Db, userId: nat, shippingAddress: Option<string>, now: int,
                        timestamp: nat, draw: real): (Response<OrderView>, Db)
    requires 0.0 <= draw < 1.0
  {
    var lines := CartOf(db.carts, userId);
    if |lines| == 0 then (BadRequest("Keranjang kosong"), db)
    else match ScanLines(db.books, lines)
      case Stopped(r) => (r, db)
      case Scanned(drafts, total) =>
        var number := OrderNumber(timestamp, draw);
        if NumberTaken(db.orders, number) then (ServerError(CheckoutFailed), db)
        else
          var db' := Place(db, userId, shippingAddress, now, number, drafts, total);
          (Responses.Success(Some(ViewOf(db', db'.orders[|db'.orders| - 1])), Some("Checkout berhasil"), Some(201)), db')
  }

  // ---------------------------------------------------------------------------
  // Checkout on the database

  /** The validation loop of checkout: each line's book must have the stock; the subtotals
      are summed into the total. */
  method ScanCart(books: Table<Book>, cartItems: Table<CartLine>) returns (s: Scan)
    ensures s == ScanLines(books, cartItems)
  {
    var totalAmount := 0;
    var drafts: seq<Draft> := [];
    var i := 0;
    while i < |cartItems|
      invariant 0 <= i <= |cartItems|
      invariant ScanLines(books, cartItems[..i]) == Scanned(drafts, totalAmount)
    {
      var line := cartItems[i].val;
      var book := Lookup(books, line.bookId);
      assert cartItems[..i + 1][..i] == cartItems[..i];
      if book.None? {
        ScanStopped(books, cartItems, i + 1);
        return Stopped(ServerError(CheckoutFailed));
      }
      if book.value.stock < line.quantity {
        ScanStopped(books, cartItems, i + 1);
        return Stopped(BadRequest(ShortOfStock(book.value)));
      }
      var subtotal := book.value.price * line.quantity;
      totalAmount := totalAmount + subtotal;
      drafts := drafts + [Draft(line.bookId, line.quantity, book.value.price, subtotal)];
      i := i + 1;
    }
    assert cartItems[..i] == cartItems;
    return Scanned(drafts, totalAmount);
  }

  /** The second loop of checkout: create each order item and decrement its book's stock. */
  method WriteItems(store: Store.Database, orderId: nat, drafts: seq<Draft>, now: int)
    modifies store
    ensures store.items == old(store.items) + ItemRows(drafts, orderId, old(store.next.item), now)
    ensures store.books == Decremented(old(store.books), drafts)
    ensures store.next == old(store.next).(item := old(store.next.item) + |drafts|)
    ensures store.users == old(store.users) && store.carts == old(store.carts)
    ensures store.orders == old(store.orders)
    ensures store.payments == old(store.payments) && store.sessions == old(store.sessions)
  {
    var j := 0;
    while j < |drafts|
      invariant 0 <= j <= |drafts|
      invariant store.items == old(store.items) + ItemRows(drafts[..j], orderId, old(store.next.item), now)
      invariant store.books == Decremented(old(store.books), drafts[..j])
      invariant store.next == old(store.next).(item := old(store.next.item) + j)
      invariant store.users == old(store.users) && store.carts == old(store.carts)
      invariant store.orders == old(store.orders)
      invariant store.payments == old(store.payments) && store.sessions == old(store.sessions)
    {
      var d := drafts[j];
      store.items := store.items + [Row(store.next.item, OrderItem(orderId, d.bookId, d.quantity,
                                                                   d.price, d.subtotal, now))];
      store.next := store.next.(item := store.next.item + 1);
      store.books := Decrement(store.books, d.bookId, d.quantity);
      assert drafts[..j + 1][..j] == drafts[..j];
      j := j + 1;
    }
    assert drafts[..j] == drafts;
  }

  /** `checkout`, step by step: read the cart, validate it, create the order, write the
      items, clear the cart, create the payment, and reply with the order as stored. */
  method Checkout(store: Store.Database, userId: nat, shippingAddress: Option<string>, now: int,
                  timestamp: nat, draw: real) returns (r: Response<OrderView>)
    requires 0.0 <= draw < 1.0
    modifies store
    ensures (r, store.State()) == CheckoutSpec(old(store.State()), userId, shippingAddress, now, timestamp, draw)
  {
    ghost var db := store.State();
    var cartItems := CartOf(store.carts, userId);
    if |cartItems| == 0 {
      return BadRequest("Keranjang kosong");
    }
    var scan := ScanCart(store.books, cartItems);
    if scan.Stopped? {
      return scan.reply;
    }
    var orderNumber := OrderNumber(timestamp, draw);
    if NumberTaken(store.orders, orderNumber) {
      return ServerError(CheckoutFailed);
    }
    var order := PlaceOrder(store, userId, shippingAddress, now, orderNumber, scan.drafts, scan.total);
    r := Responses.Success(Some(ViewOf(store.State(), order)), Some("Checkout berhasil"), Some(201));
    CheckoutPlaces(db, userId, shippingAddress, now, timestamp, draw);
  }

  /** The writes of a checkout that passed its checks, in the controller's order: the order,
      its items and stock decrements, the cart, the payment. */
  method PlaceOrder(store: Store.Database, userId: nat, shippingAddress: Option<string>, now: int,
                    number: string, drafts: seq<Draft>, total: int) returns (order: Row<Order>)
    modifies store
    ensures store.State() == Place(old(store.State()), userId, shippingAddress, now, number, drafts, total)
    ensures order == store.State().orders[|old(store.orders)|]
  {
    ghost var db := store.State();
    var orderId := store.next.order;
    order := Row(orderId, Order(userId, number, total, OrderStatus.Pending, OrNull(shippingAddress), now));
    store.orders := store.orders + [order];
    store.next := store.next.(order := orderId + 1);
    WriteItems(store, orderId, drafts, now);
    store.carts := Where(store.carts, NotUser(userId));
    var paymentId := store.next.payment;
    var payment := Row(paymentId, Payment(orderId, None, total, PaymentStatus.Pending, None, None));
    store.payments := store.payments + [payment];
    store.next := store.next.(payment := paymentId + 1);
    assert store.orders == db.orders + [order];
    assert store.next == db.next.(order := orderId + 1, item := db.next.item + |drafts|,
                                  payment := db.next.payment + 1);
    assert store.payments == db.payments + [payment];
  }

  /** The spec's success case, unfolded. */
  lemma CheckoutPlaces(db: Db, userId: nat, shippingAddress: Option<string>, now: int,
                       timestamp: nat, draw: real)
    requires 0.0 <= draw < 1.0
    requires CartOf(db.carts, userId) != [] && ScanLines(db.books, CartOf(db.carts, userId)).Scanned?
    requires !NumberTaken(db.orders, OrderNumber(timestamp, draw))
    ensures var s := ScanLines(db.books, CartOf(db.carts, userId));
            var db' := Place(db, userId, shippingAddress, now, OrderNumber(timestamp, draw), s.drafts, s.total);
            CheckoutSpec(db, userId, shippingAddress, now, timestamp, draw)
              == (Responses.Success(Some(ViewOf(db', db'.orders[|db.orders|])), Some("Checkout berhasil"), Some(201)), db')
  {
  }

  // ---------------------------------------------------------------------------
  // Reading orders

  /** `where: { userId }`, plus `status` when the query gives a non-empty one. */
  function OrderFilter(userId: nat, status: Option<string>): Order -> bool {
    (o: Order) => o.userId == userId && (!Truthy(status) || OrderStatusName(o.status) == status.value)
  }

  predicate Selected(userId: nat, status: Option<string>, o: Order) {
    o.userId == userId && (Truthy(status) ==> OrderStatusName(o.status) == status.value)
  }

  function Views(db: Db, orders: Table<Order>): (r: seq<OrderView>)
    ensures |r| == |orders|
    ensures forall k | 0 <= k < |orders| :: r[k] == ViewOf(db, orders[k])
  {
    seq(|orders|, k requires 0 <= k < |orders| => ViewOf(db, orders[k]))
  }

  /** `getOrders`: the customer's own orders, newest first, with their items and payments,
      optionally of one status. */
  function GetOrders(db: Db, userId: nat, status: Option<string>): (r: Response<seq<OrderView>>)
    ensures r.status == 200 && r.body.success && r.body.data.Some?
    ensures forall k | 0 <= k < |r.body.data.value| ::
              r.body.data.value[k].order in db.orders && Selected(userId, status, r.body.data.value[k].order.val)
    ensures forall k | 0 <= k < |r.body.data.value| ::
              r.body.data.value[k] == ViewOf(db, r.body.data.value[k].order)
    ensures forall i | 0 <= i < |db.orders| && Selected(userId, status, db.orders[i].val) ::
              exists k | 0 <= k < |r.body.data.value| :: r.body.data.value[k].order == db.orders[i]
  {
    var w := Where(db.orders, OrderFilter(userId, status));
    var found := NewestFirst(w);
    var views := Views(db, found);
    NewestSameRows(w);
    assert forall i | 0 <= i < |db.orders| && Selected(userId, status, db.orders[i].val) ::
             db.orders[i] in found;
    Responses.Success(Some(views), None, None)
  }

  /** The listing is newest first: with the orders stored in key order, a later position in
      the reply holds an older order. */
  lemma GetOrdersNewestFirst(db: Db, userId: nat, status: Option<string>)
    requires Ordered(db.orders)
    ensures var list := GetOrders(db, userId, status).body.data.value;
            forall k, k' | 0 <= k < k' < |list| :: list[k].order.id > list[k'].order.id
  {
    var w := Where(db.orders, OrderFilter(userId, status));
    WhereOrdered(db.orders, OrderFilter(userId, status));
    NewestDescending(w);
    var found := NewestFirst(w);
    var list := GetOrders(db, userId, status).body.data.value;
    assert list == Views(db, found);
    assert forall k | 0 <= k < |list| :: list[k].order == found[k];
  }


  predicate IsOwnOrder(orders: Table<Order>, id: nat, userId: nat) {
    exists i | 0 <= i < |orders| :: orders[i].id == id && orders[i].val.userId == userId
  }

  /** One of the caller's own orders by key (controllers/orderController.js:183-185): the
      first order with that key and user. */
  function FindOwnOrder(orders: Table<Order>, id: nat, userId: nat): (r: Option<Row<Order>>)
    ensures r.None? <==> !IsOwnOrder(orders, id, userId)
    ensures r.Some? ==> r.value in orders && r.value.id == id && r.value.val.userId == userId
    decreases |orders|
  {
    if orders == [] then None
    else if orders[0].id == id && orders[0].val.userId == userId then Some(orders[0])
    else
      var r := FindOwnOrder(orders[1..], id, userId);
      assert IsOwnOrder(orders, id, userId) ==> IsOwnOrder(orders[1..], id, userId) by {
        if IsOwnOrder(orders, id, userId) {
          var i :| 0 <= i < |orders| && orders[i].id == id && orders[i].val.userId == userId;
          assert orders[1..][i - 1] == orders[i];
        }
      }
      r
  }

  /** `getOrderDetail`: an order of another customer is as absent as a missing one. */
  function GetOrderDetail(db: Db, userId: nat, id: nat): (r: Response<OrderView>)
    ensures r.status == 200 || r.status == 404
    ensures r.status == 404 <==> !IsOwnOrder(db.orders, id, userId)
    ensures r.status == 404 ==> r.body.message == Some("Order tidak ditemukan") && !r.body.success
    ensures r.status == 200 ==>
              && r.body.success && r.body.data.Some? && r.body.data.value.order in db.orders
              && r.body.data.value.order.id == id && r.body.data.value.order.val.userId == userId
              && r.body.data.value == ViewOf(db, r.body.data.value.order)
  {
    match FindOwnOrder(db.orders, id, userId)
    case None => NotFound(Some("Order tidak ditemukan"))
    case Some(o) => Responses.Success(Some(ViewOf(db, o)), None, None)
  }
}
