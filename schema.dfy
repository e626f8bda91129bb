/** The shop's tables (models/Book.js, Cart.js, Order.js, Payment.js, Session.js, and the
    OrderItem and User tables they reference), the associations between them
    (models/index.js), and the database constraints as a validity predicate on a whole
    database value. Money is a count of cents (DECIMAL(10,2) columns), time is milliseconds. */
module Schema {
  import opened Common

  // ---------------------------------------------------------------------------
  // Tables

  /** A table row: the auto-increment primary key and the record. */
  datatype Row<T> = Row(id: nat, val: T)

  /** A table in primary-key (insertion) order. */
  type Table<T> = seq<Row<T>>

  /** Primary keys are positive and strictly increasing in table order. */
  ghost predicate Ordered<T>(t: Table<T>) {
    (forall i, j | 0 <= i < j < |t| :: t[i].id < t[j].id) &&
    (forall i | 0 <= i < |t| :: 1 <= t[i].id)
  }

  /** Ordered, and every key is below the next auto-increment value. */
  ghost predicate Keyed<T>(t: Table<T>, next: nat) {
    Ordered(t) && forall i | 0 <= i < |t| :: t[i].id < next
  }

  predicate HasId<T>(t: Table<T>, id: nat) {
    exists i | 0 <= i < |t| :: t[i].id == id
  }

  /** The position of the row with this key (`findByPk`). */
  function IndexOf<T>(t: Table<T>, id: nat): (r: Option<nat>)
    ensures r.Some? ==> r.value < |t| && t[r.value].id == id
    ensures r.Some? ==> forall k | 0 <= k < r.value :: t[k].id != id
    ensures r.None? <==> !HasId(t, id)
    decreases |t|
  {
    if t == [] then None
    else if t[0].id == id then Some(0)
    else match IndexOf(t[1..], id)
      case None => None
      case Some(k) => Some(k + 1)
  }

  /** The record with this key, if any. */
  function Lookup<T>(t: Table<T>, id: nat): (r: Option<T>)
    ensures r.Some? <==> HasId(t, id)
    ensures IndexOf(t, id).Some? ==> r == Some(t[IndexOf(t, id).value].val)
  {
    match IndexOf(t, id)
    case None => None
    case Some(i) => Some(t[i].val)
  }

  /** In an ordered table the key determines the row. */
  lemma OrderedIndex<T>(t: Table<T>, i: nat)
    requires Ordered(t) && i < |t|
    ensures IndexOf(t, t[i].id) == Some(i)
  {
    var r := IndexOf(t, t[i].id);
    assert t[r.value].id == t[i].id;
  }

  /** The row with this key, if any (an `include` of a belongsTo association). */
  function UserOf(users: Table<User>, id: nat): (r: Option<Row<User>>)
    ensures r.Some? <==> HasId(users, id)
    ensures r.Some? ==> r.value in users && r.value.id == id
  {
    match IndexOf(users, id)
    case None => None
    case Some(i) => Some(users[i])
  }

  /** Rewrite the record of row i, keeping its key (`instance.save()` of a changed row). */
  function Put<T>(t: Table<T>, i: nat, v: T): (r: Table<T>)
    requires i < |t|
    ensures |r| == |t| && r[i] == Row(t[i].id, v)
    ensures forall k | 0 <= k < |t| && k != i :: r[k] == t[k]
    ensures forall k | 0 <= k < |t| :: r[k].id == t[k].id
  {
    t[i := Row(t[i].id, v)]
  }

  /** The rows whose record satisfies p, in table order (`findAll({ where })`). */
  function Where<T>(t: Table<T>, p: T -> bool): (r: Table<T>)
    ensures |r| <= |t|
    ensures forall i | 0 <= i < |r| :: r[i] in t && p(r[i].val)
    ensures forall i | 0 <= i < |t| && p(t[i].val) :: t[i] in r
    decreases |t|
  {
    if t == [] then []
    else
      assert t == t[..|t| - 1] + [t[|t| - 1]];
      Where(t[..|t| - 1], p) + (if p(t[|t| - 1].val) then [t[|t| - 1]] else [])
  }

  lemma WhereAll<T>(t: Table<T>, p: T -> bool)
    requires forall i | 0 <= i < |t| :: p(t[i].val)
    ensures Where(t, p) == t
    decreases |t|
  {
    if t != [] {
      var init := t[..|t| - 1];
      WhereAll(init, p);
      assert p(t[|t| - 1].val);
      assert Where(t, p) == Where(init, p) + [t[|t| - 1]];
      assert t == init + [t[|t| - 1]];
    }
  }

  lemma WhereNone<T>(t: Table<T>, p: T -> bool)
    requires forall i | 0 <= i < |t| :: !p(t[i].val)
    ensures Where(t, p) == []
  {
  }

  lemma WhereOrdered<T>(t: Table<T>, p: T -> bool)
    requires Ordered(t)
    ensures Ordered(Where(t, p))
    decreases |t|
  {
    if t != [] {
      var init := t[..|t| - 1];
      var last := t[|t| - 1];
      var w := Where(init, p);
      WhereOrdered(init, p);
      if p(last.val) {
        forall i | 0 <= i < |w| ensures w[i].id < last.id {
          var k :| 0 <= k < |init| && init[k] == w[i];
        }
        OrderedSnoc(w, last);
      }
    }
  }

  /** A row with a key above every key of an ordered table extends it in order. */
  lemma OrderedSnoc<T>(t: Table<T>, x: Row<T>)
    requires Ordered(t) && 1 <= x.id
    requires forall i | 0 <= i < |t| :: t[i].id < x.id
    ensures Ordered(t + [x])
  {
    var u := t + [x];
    assert forall i | 0 <= i < |t| :: u[i] == t[i];
  }

  /** Filtering a concatenation filters each part. */
  lemma {:induction false} WhereAppend<T>(a: Table<T>, b: Table<T>, p: T -> bool)
    ensures Where(a + b, p) == Where(a, p) + Where(b, p)
    decreases |b|
  {
    if b == [] {
      assert a + b == a;
    } else {
      var b' := b[..|b| - 1];
      WhereAppend(a, b', p);
      assert (a + b)[..|a + b| - 1] == a + b';
      assert (a + b)[|a + b| - 1] == b[|b| - 1];
    }
  }

  /** A row the filter rejects can be cut out without changing the result. */
  lemma WhereSkip<T>(a: Table<T>, x: Row<T>, b: Table<T>, p: T -> bool)
    requires !p(x.val)
    ensures Where(a + [x] + b, p) == Where(a + b, p)
  {
    WhereAppend(a + [x], b, p);
    WhereAppend(a, [x], p);
    WhereAppend(a, b, p);
    assert [x][..0] == [];
    assert Where([x], p) == [];
  }

  /** Filters that agree on every row select the same rows. */
  lemma {:induction false} WhereSame<T>(t: Table<T>, p: T -> bool, q: T -> bool)
    requires forall i | 0 <= i < |t| :: p(t[i].val) == q(t[i].val)
    ensures Where(t, p) == Where(t, q)
    decreases |t|
  {
    if t != [] {
      WhereSame(t[..|t| - 1], p, q);
    }
  }

  /** `order: [['createdAt', 'DESC']]`, rows being created in key order: newest first. */
  function NewestFirst<T>(t: Table<T>): (r: Table<T>)
    ensures |r| == |t|
    ensures forall k | 0 <= k < |t| :: r[k] == t[|t| - 1 - k]
    decreases |t|
  {
    if t == [] then [] else [t[|t| - 1]] + NewestFirst(t[..|t| - 1])
  }

  /** Putting a table newest first keeps exactly its rows. */
  lemma NewestSameRows<T>(t: Table<T>)
    ensures forall x :: x in NewestFirst(t) <==> x in t
  {
    var r := NewestFirst(t);
    forall x | x in t ensures x in r {
      var j :| 0 <= j < |t| && t[j] == x;
      assert r[|t| - 1 - j] == x;
    }
  }

  /** A table in key order, put newest first, has its keys in decreasing order. */
  lemma NewestDescending<T>(t: Table<T>)
    requires Ordered(t)
    ensures forall k, k' | 0 <= k < k' < |t| :: NewestFirst(t)[k].id > NewestFirst(t)[k'].id
  {
    var r := NewestFirst(t);
    forall k, k' | 0 <= k < k' < |t| ensures r[k].id > r[k'].id {
      assert r[k] == t[|t| - 1 - k] && r[k'] == t[|t| - 1 - k'];
    }
  }

  lemma WhereOne<T>(x: Row<T>, p: T -> bool)
    ensures Where([x], p) == if p(x.val) then [x] else []
  {
    assert [x][..0] == [];
  }

  /** Filtering twice is filtering once by both conditions. */
  lemma {:induction false} WhereBoth<T>(t: Table<T>, p: T -> bool, q: T -> bool, both: T -> bool)
    requires forall i | 0 <= i < |t| :: both(t[i].val) == (p(t[i].val) && q(t[i].val))
    ensures Where(Where(t, p), q) == Where(t, both)
    decreases |t|
  {
    if t != [] {
      var init, last := t[..|t| - 1], t[|t| - 1];
      WhereBoth(init, p, q, both);
      var one := if p(last.val) then [last] else [];
      assert Where(t, p) == Where(init, p) + one;
      WhereAppend(Where(init, p), one, q);
      if p(last.val) {
        assert one[..0] == [];
      }
    }
  }

  /** Newest-first order of a concatenation puts the later part first. */
  lemma NewestAppend<T>(a: Table<T>, b: Table<T>)
    ensures NewestFirst(a + b) == NewestFirst(b) + NewestFirst(a)
  {
    var l, r := NewestFirst(a + b), NewestFirst(b) + NewestFirst(a);
    forall k | 0 <= k < |l| ensures l[k] == r[k] {
      if k < |b| {
        assert r[k] == NewestFirst(b)[k];
      } else {
        assert r[k] == NewestFirst(a)[k - |b|];
      }
    }
  }

  /** Sorting newest first and filtering can be done in either order. */
  lemma {:induction false} WhereNewest<T>(t: Table<T>, p: T -> bool)
    ensures Where(NewestFirst(t), p) == NewestFirst(Where(t, p))
    decreases |t|
  {
    if t != [] {
      var init, last := t[..|t| - 1], t[|t| - 1];
      var one := if p(last.val) then [last] else [];
      calc {
        Where(NewestFirst(t), p);
        { assert NewestFirst(t) == [last] + NewestFirst(init); }
        Where([last] + NewestFirst(init), p);
        { WhereAppend([last], NewestFirst(init), p); }
        Where([last], p) + Where(NewestFirst(init), p);
        { WhereOne(last, p); WhereNewest(init, p); }
        one + NewestFirst(Where(init, p));
        { assert NewestFirst(one) == one; }
        NewestFirst(one) + NewestFirst(Where(init, p));
        { NewestAppend(Where(init, p), one); }
        NewestFirst(Where(init, p) + one);
        { assert Where(t, p) == Where(init, p) + one; }
        NewestFirst(Where(t, p));
      }
    }
  }

  /** The `createdAt` bounds of a query (`Op.gte` startDate, `Op.lte` endDate), each applied
      only when given; `new Date(...)` of the query text is the parameter, in milliseconds. */
  predicate InPeriod(createdAt: int, start: Option<int>, end: Option<int>) {
    (start.None? || createdAt >= start.value) && (end.None? || createdAt <= end.value)
  }

  lemma WhereKeyed<T>(t: Table<T>, p: T -> bool, next: nat)
    requires Keyed(t, next)
    ensures Keyed(Where(t, p), next)
  {
    WhereOrdered(t, p);
    forall i | 0 <= i < |Where(t, p)| ensures Where(t, p)[i].id < next {
      assert Where(t, p)[i] in Where(t, p);
    }
  }

  lemma KeyedAppend<T>(t: Table<T>, next: nat, v: T)
    requires Keyed(t, next) && next >= 1
    ensures Keyed(t + [Row(next, v)], next + 1)
  {
  }

  lemma KeyedPut<T>(t: Table<T>, next: nat, i: nat, v: T)
    requires Keyed(t, next) && i < |t|
    ensures Keyed(Put(t, i, v), next)
  {
  }

  lemma KeyedGrow<T>(t: Table<T>, next: nat, next': nat)
    requires Keyed(t, next) && next <= next'
    ensures Keyed(t, next')
  {
  }

  // ---------------------------------------------------------------------------
  // Records

  /** users (models/User.js is not part of this model: only the columns the core reads). */
  datatype User = User(email: string, name: string, role: string)

  /** books: price in cents; `isbn` null when absent. */
  datatype Book = Book(title: string, author: string, isbn: Option<string>,
                       description: Option<string>, price: int, stock: int,
                       coverImage: Option<string>, isActive: bool)

  /** carts: one line of a user's cart. */
  datatype CartLine = CartLine(userId: nat, bookId: nat, quantity: int)

  datatype OrderStatus = Pending | Processing | Completed | Cancelled

  /** orders: totalAmount in cents, createdAt in milliseconds. */
  datatype Order = Order(userId: nat, orderNumber: string, totalAmount: int,
                         status: OrderStatus, shippingAddress: Option<string>, createdAt: int)

  /** order_items: price snapshot and subtotal in cents. */
  datatype OrderItem = OrderItem(orderId: nat, bookId: nat, quantity: int, price: int,
                                 subtotal: int, createdAt: int)

  datatype PaymentStatus = Pending | Success | Failed

  /** The ENUM text of a payment status. */
  function PaymentStatusName(s: PaymentStatus): string {
    match s
    case Pending => "pending"
    case Success => "success"
    case Failed => "failed"
  }

  /** The ENUM text of an order status. */
  function OrderStatusName(s: OrderStatus): string {
    match s
    case Pending => "pending"
    case Processing => "processing"
    case Completed => "completed"
    case Cancelled => "cancelled"
  }

  /** payments: amount in cents. */
  datatype Payment = Payment(orderId: nat, paymentMethod: Option<string>, amount: int,
                             status: PaymentStatus, paymentReference: Option<string>,
                             callbackData: Option<string>)

  /** sessions: expiresAt in milliseconds. */
  datatype Session = Session(userId: nat, token: string, deviceInfo: Option<string>,
                             expiresAt: int, isActive: bool)

  // ---------------------------------------------------------------------------
  // The database

  /** The next auto-increment value of each table the core inserts into. */
  datatype Counters = Counters(book: nat, cart: nat, order: nat, item: nat, payment: nat,
                               session: nat)

  datatype Db = Db(users: Table<User>, books: Table<Book>, carts: Table<CartLine>,
                   orders: Table<Order>, items: Table<OrderItem>, payments: Table<Payment>,
                   sessions: Table<Session>, next: Counters)

  /** Every table's keys are in order and below its counter; counters start at 1. */
  ghost predicate KeysValid(db: Db) {
    && db.next.book >= 1 && db.next.cart >= 1 && db.next.order >= 1
    && db.next.item >= 1 && db.next.payment >= 1 && db.next.session >= 1
    && Ordered(db.users)
    && Keyed(db.books, db.next.book)
    && Keyed(db.carts, db.next.cart)
    && Keyed(db.orders, db.next.order)
    && Keyed(db.items, db.next.item)
    && Keyed(db.payments, db.next.payment)
    && Keyed(db.sessions, db.next.session)
  }

  /** Stock is never negative (`validate: { min: 0 }`) and a non-null isbn names one book
      (`unique: true`). The price column has no validator, so a negative price is not ruled
      out here; only the admin writers refuse one. */
  ghost predicate BooksValid(books: Table<Book>) {
    && (forall i | 0 <= i < |books| :: books[i].val.stock >= 0)
    && (forall i, j | 0 <= i < j < |books| && books[i].val.isbn.Some? ::
          books[i].val.isbn != books[j].val.isbn)
  }

  /** A cart line has quantity >= 1, belongs to one user and one book, and
      (userId, bookId) is unique. */
  ghost predicate CartsValid(carts: Table<CartLine>, books: Table<Book>, users: Table<User>) {
    && (forall i | 0 <= i < |carts| ::
          carts[i].val.quantity >= 1 && HasId(books, carts[i].val.bookId)
          && HasId(users, carts[i].val.userId))
    && (forall i, j | 0 <= i < j < |carts| ::
          carts[i].val.userId != carts[j].val.userId || carts[i].val.bookId != carts[j].val.bookId)
  }

  /** An order belongs to a user and its orderNumber is unique. */
  ghost predicate OrdersValid(orders: Table<Order>, users: Table<User>) {
    && (forall i | 0 <= i < |orders| :: HasId(users, orders[i].val.userId))
    && (forall i, j | 0 <= i < j < |orders| :: orders[i].val.orderNumber != orders[j].val.orderNumber)
  }

  /** An order item belongs to one order and one book. */
  ghost predicate ItemsValid(items: Table<OrderItem>, orders: Table<Order>, books: Table<Book>) {
    forall i | 0 <= i < |items| :: HasId(orders, items[i].val.orderId) && HasId(books, items[i].val.bookId)
  }

  /** A payment belongs to an order (several payments per order are allowed). */
  ghost predicate PaymentsValid(payments: Table<Payment>, orders: Table<Order>) {
    forall i | 0 <= i < |payments| :: HasId(orders, payments[i].val.orderId)
  }

  /** A session belongs to a user and its token is unique. */
  ghost predicate SessionsValid(sessions: Table<Session>, users: Table<User>) {
    && (forall i | 0 <= i < |sessions| :: HasId(users, sessions[i].val.userId))
    && (forall i, j | 0 <= i < j < |sessions| :: sessions[i].val.token != sessions[j].val.token)
  }

  /** All the constraints the schema declares. */
  ghost predicate Valid(db: Db) {
    && KeysValid(db)
    && BooksValid(db.books)
    && CartsValid(db.carts, db.books, db.users)
    && OrdersValid(db.orders, db.users)
    && ItemsValid(db.items, db.orders, db.books)
    && PaymentsValid(db.payments, db.orders)
    && SessionsValid(db.sessions, db.users)
  }

  /** A table that only gained rows keeps every key it had. */
  lemma HasIdAppend<T>(t: Table<T>, extra: Table<T>, id: nat)
    requires HasId(t, id)
    ensures HasId(t + extra, id)
  {
    var i :| 0 <= i < |t| && t[i].id == id;
    assert (t + extra)[i].id == id;
  }

  /** Rewriting records keeps every key. */
  lemma HasIdSameKeys<T, U>(t: Table<T>, u: Table<U>, id: nat)
    requires |t| == |u| && forall k | 0 <= k < |t| :: t[k].id == u[k].id
    ensures HasId(t, id) <==> HasId(u, id)
  {
    if HasId(t, id) {
      var i :| 0 <= i < |t| && t[i].id == id;
      assert u[i].id == id;
    }
    if HasId(u, id) {
      var i :| 0 <= i < |u| && u[i].id == id;
      assert t[i].id == id;
    }
  }

  /** Tables with the same keys in the same places find a key at the same place. */
  lemma {:induction false} SameKeysIndex<T, U>(t: Table<T>, u: Table<U>, id: nat)
    requires |t| == |u| && forall k | 0 <= k < |t| :: t[k].id == u[k].id
    ensures IndexOf(t, id) == IndexOf(u, id)
    decreases |t|
  {
    if t != [] {
      SameKeysIndex(t[1..], u[1..], id);
    }
  }

  /** The position of an active book with the key, or none when the key is unknown or the
      book is inactive (controllers/cartController.js:64-68); keys are unique. */
  function ActiveBook(books: Table<Book>, id: nat): Option<nat> {
    match IndexOf(books, id)
    case None => None
    case Some(i) => if books[i].val.isActive then Some(i) else None
  }

  // ---------------------------------------------------------------------------
  // Associations read by the controllers

  /** `order.payments[0]`: the first payment row of an order. */
  function FirstPayment(payments: Table<Payment>, orderId: nat): (r: Option<Row<Payment>>)
    ensures r.Some? ==> r.value in payments && r.value.val.orderId == orderId
    ensures r.None? <==> forall k | 0 <= k < |payments| :: payments[k].val.orderId != orderId
    decreases |payments|
  {
    if payments == [] then None
    else if payments[0].val.orderId == orderId then Some(payments[0])
    else FirstPayment(payments[1..], orderId)
  }

  /** The index of the first payment of an order. */
  function FirstPaymentIndex(payments: Table<Payment>, orderId: nat): (r: Option<nat>)
    ensures r.Some? ==> r.value < |payments| && payments[r.value].val.orderId == orderId
    ensures r.Some? ==> forall j | 0 <= j < r.value :: payments[j].val.orderId != orderId
    ensures r.None? <==> FirstPayment(payments, orderId).None?
    ensures r.Some? ==> FirstPayment(payments, orderId) == Some(payments[r.value])
    decreases |payments|
  {
    if payments == [] then None
    else if payments[0].val.orderId == orderId then Some(0)
    else match FirstPaymentIndex(payments[1..], orderId)
      case None => None
      case Some(k) => Some(k + 1)
  }

  /** A user's cart lines, in table order (controllers/orderController.js:26-28). */
  function CartOf(carts: Table<CartLine>, userId: nat): Table<CartLine> {
    Where(carts, ByUser(userId))
  }

  function ByUser(userId: nat): CartLine -> bool {
    (l: CartLine) => l.userId == userId
  }

  function NotUser(userId: nat): CartLine -> bool {
    (l: CartLine) => l.userId != userId
  }

  /** Two different rows of a Where result come from two different rows of the table, in
      the same order. */
  lemma WhereOrigins<T>(t: Table<T>, p: T -> bool, i: nat, j: nat)
    requires Ordered(t) && i < j < |Where(t, p)|
    ensures exists i', j' :: 0 <= i' < j' < |t| && t[i'] == Where(t, p)[i] && t[j'] == Where(t, p)[j]
  {
    var r := Where(t, p);
    WhereOrdered(t, p);
    var i' :| 0 <= i' < |t| && t[i'] == r[i];
    var j' :| 0 <= j' < |t| && t[j'] == r[j];
    assert t[i'].id < t[j'].id;
  }

  /** The records of an order's items, in table order (`order.orderItems`). */
  function ItemsOf(items: Table<OrderItem>, orderId: nat): Table<OrderItem> {
    Where(items, ForOrder(orderId))
  }

  function ForOrder(orderId: nat): OrderItem -> bool {
    (x: OrderItem) => x.orderId == orderId
  }

  /** The payments of an order, in table order (`order.payments`). */
  function PaymentsOf(payments: Table<Payment>, orderId: nat): Table<Payment> {
    Where(payments, PaidFor(orderId))
  }

  function PaidFor(orderId: nat): Payment -> bool {
    (x: Payment) => x.orderId == orderId
  }

  /** The row with a key, as an association include reads it: none when no row has the key. */
  function RowOf<T>(t: Table<T>, id: nat): (r: Option<Row<T>>)
    ensures r.Some? <==> HasId(t, id)
    ensures r.Some? ==> r.value in t && r.value.id == id
  {
    match IndexOf(t, id)
    case None => None
    case Some(i) => Some(t[i])
  }

  /** The book included under each order item, position by position. */
  function ItemBooks(books: Table<Book>, items: Table<OrderItem>): seq<Option<Row<Book>>> {
    seq(|items|, k requires 0 <= k < |items| => RowOf(books, items[k].val.bookId))
  }

  /** The aggregate returned for an order: the row, its items each with its book, and its
      payments. `books[k]` is the book included under `items[k]`. */
  datatype OrderView = OrderView(order: Row<Order>, items: Table<OrderItem>,
                                 books: seq<Option<Row<Book>>>, payments: Table<Payment>)

  function ViewOf(db: Db, order: Row<Order>): (v: OrderView)
    ensures v.order == order
    ensures forall i | 0 <= i < |v.items| :: v.items[i] in db.items && v.items[i].val.orderId == order.id
    ensures forall i | 0 <= i < |db.items| && db.items[i].val.orderId == order.id :: db.items[i] in v.items
    ensures |v.books| == |v.items|
    ensures forall k | 0 <= k < |v.items| ::
              && (v.books[k].Some? <==> HasId(db.books, v.items[k].val.bookId))
              && (v.books[k].Some? ==> v.books[k].value in db.books && v.books[k].value.id == v.items[k].val.bookId)
    ensures forall i | 0 <= i < |v.payments| :: v.payments[i] in db.payments && v.payments[i].val.orderId == order.id
    ensures forall i | 0 <= i < |db.payments| && db.payments[i].val.orderId == order.id :: db.payments[i] in v.payments
  {
    var items := ItemsOf(db.items, order.id);
    OrderView(order, items, ItemBooks(db.books, items), PaymentsOf(db.payments, order.id))
  }

  /** In a valid database every item of an order comes with its book (the order item's
      foreign key to books). */
  lemma ViewBooksPresent(db: Db, order: Row<Order>)
    requires ItemsValid(db.items, db.orders, db.books)
    ensures var v := ViewOf(db, order);
            forall k | 0 <= k < |v.books| :: v.books[k].Some? && v.books[k].value.id == v.items[k].val.bookId
  {
    var v := ViewOf(db, order);
    forall k | 0 <= k < |v.books| ensures v.books[k].Some? {
      var j :| 0 <= j < |db.items| && db.items[j] == v.items[k];
      assert HasId(db.books, db.items[j].val.bookId);
    }
  }
}
