/** controllers/admin/reportController.js: sales per book. Only order items whose order's
    first payment succeeded count; the period bounds apply to the item's creation time. */
module Reports {
  import opened Common
  import opened Schema
  import opened Responses

  // ---------------------------------------------------------------------------
  // Which order items count

  /** The `where` of `OrderItem.findAll`: this book, inside the period. */
  function Selected(bookId: nat, start: Option<int>, end: Option<int>): OrderItem -> bool {
    (it: OrderItem) => it.bookId == bookId && InPeriod(it.createdAt, start, end)
  }

  /** The order's first payment exists and its status is success. */
  predicate Paid(payments: Table<Payment>, orderId: nat) {
    var p := FirstPayment(payments, orderId);
    p.Some? && p.value.val.status == PaymentStatus.Success
  }

  function PaidIn(payments: Table<Payment>): OrderItem -> bool {
    (it: OrderItem) => Paid(payments, it.orderId)
  }

  /** Both filters at once: the query's `where` and the success of the first payment. */
  function Counts(db: Db, bookId: nat, start: Option<int>, end: Option<int>): OrderItem -> bool {
    (it: OrderItem) => it.bookId == bookId && InPeriod(it.createdAt, start, end) && Paid(db.payments, it.orderId)
  }

  /** The items a book's report adds up, in table order. */
  function Sales(db: Db, bookId: nat, start: Option<int>, end: Option<int>): Table<OrderItem> {
    Where(db.items, Counts(db, bookId, start, end))
  }

  /** The query followed by the filter on the first payment selects the counted items. */
  lemma QueryThenFilter(db: Db, bookId: nat, start: Option<int>, end: Option<int>)
    ensures Where(Where(db.items, Selected(bookId, start, end)), PaidIn(db.payments)) == Sales(db, bookId, start, end)
  {
    WhereBoth(db.items, Selected(bookId, start, end), PaidIn(db.payments), Counts(db, bookId, start, end));
  }

  /** Every item belongs to an order that exists (the foreign key of order_items); the
      handlers read `item.order` without a check. */
  predicate OrdersPresent(db: Db) {
    forall i | 0 <= i < |db.items| :: HasId(db.orders, db.items[i].val.orderId)
  }

  /** An item is counted exactly when it is this book's, inside the period, and its order's
      first payment succeeded. */
  lemma SalesAre(db: Db, bookId: nat, start: Option<int>, end: Option<int>, item: Row<OrderItem>)
    ensures item in Sales(db, bookId, start, end) <==>
              && item in db.items && item.val.bookId == bookId
              && InPeriod(item.val.createdAt, start, end) && Paid(db.payments, item.val.orderId)
  {
    var s := Sales(db, bookId, start, end);
    if item in s {
      var j :| 0 <= j < |s| && s[j] == item;
    }
    if item in db.items && item.val.bookId == bookId && InPeriod(item.val.createdAt, start, end)
       && Paid(db.payments, item.val.orderId) {
      var i :| 0 <= i < |db.items| && db.items[i] == item;
    }
  }

  // ---------------------------------------------------------------------------
  // The running totals of the forEach

  function Quantity(it: OrderItem): int { it.quantity }

  function Subtotal(it: OrderItem): int { it.subtotal }

  /** The sum of f over the items, adding them in order. */
  function Total(items: Table<OrderItem>, f: OrderItem -> int): int
    decreases |items|
  {
    if items == [] then 0 else Total(items[..|items| - 1], f) + f(items[|items| - 1].val)
  }

  lemma {:induction false} TotalAppend(a: Table<OrderItem>, b: Table<OrderItem>, f: OrderItem -> int)
    ensures Total(a + b, f) == Total(a, f) + Total(b, f)
    decreases |b|
  {
    if b == [] {
      assert a + b == a;
    } else {
      TotalAppend(a, b[..|b| - 1], f);
      assert (a + b)[..|a + b| - 1] == a + b[..|b| - 1];
    }
  }

  lemma TotalOne(x: Row<OrderItem>, f: OrderItem -> int)
    ensures Total([x], f) == f(x.val)
  {
    assert [x][..0] == [];
  }

  /** A sum does not depend on the order the items are listed in. */
  lemma {:induction false} TotalNewest(items: Table<OrderItem>, f: OrderItem -> int)
    ensures Total(NewestFirst(items), f) == Total(items, f)
    decreases |items|
  {
    if items != [] {
      var init, last := items[..|items| - 1], items[|items| - 1];
      assert NewestFirst(items) == [last] + NewestFirst(init);
      TotalAppend([last], NewestFirst(init), f);
      TotalNewest(init, f);
      assert [last][..0] == [];
    }
  }

  /** The report loop (controllers/admin/reportController.js:74-77): one pass over the counted
      items adding up the quantities sold and the subtotals, in cents. */
  method Tally(items: Table<OrderItem>) returns (sold: int, revenue: int)
    ensures sold == Total(items, Quantity) && revenue == Total(items, Subtotal)
  {
    sold, revenue := 0, 0;
    var i := 0;
    while i < |items|
      invariant 0 <= i <= |items|
      invariant sold == Total(items[..i], Quantity) && revenue == Total(items[..i], Subtotal)
    {
      assert items[..i + 1][..i] == items[..i];
      sold := sold + items[i].val.quantity;
      revenue := revenue + items[i].val.subtotal;
      i := i + 1;
    }
    assert items[..i] == items;
  }

  // ---------------------------------------------------------------------------
  // getSalesReport

  /** The book fields a report shows; price in cents. */
  datatype BookInfo = BookInfo(id: nat, title: string, author: string, isbn: Option<string>, price: int)

  /** One book's figures; `totalRevenue` is the two-decimal text of the amount. */
  datatype BookReport = BookReport(book: BookInfo, totalSold: int, remainingStock: int,
                                   totalRevenue: string, orderCount: nat)

  datatype Summary = Summary(totalBooks: nat, totalSold: int, totalRevenue: string)

  datatype SalesReport = SalesReport(reports: seq<BookReport>, summary: Summary)

  function Info(book: Row<Book>): BookInfo {
    BookInfo(book.id, book.val.title, book.val.author, book.val.isbn, book.val.price)
  }

  /** A book's report: the sums over its counted items; orderCount counts items, not
      distinct orders. */
  function ReportOf(db: Db, book: Row<Book>, start: Option<int>, end: Option<int>): BookReport {
    var s := Sales(db, book.id, start, end);
    BookReport(Info(book), Total(s, Quantity), book.val.stock, Fixed2(Total(s, Subtotal)), |s|)
  }

  function ReportsFor(db: Db, books: Table<Book>, start: Option<int>, end: Option<int>): (rs: seq<BookReport>)
    ensures |rs| == |books|
  {
    seq(|books|, k requires 0 <= k < |books| => ReportOf(db, books[k], start, end))
  }

  lemma ReportsGrow(db: Db, books: Table<Book>, k: nat, start: Option<int>, end: Option<int>)
    requires k < |books|
    ensures ReportsFor(db, books[..k + 1], start, end)
            == ReportsFor(db, books[..k], start, end) + [ReportOf(db, books[k], start, end)]
  {
    var a, b := ReportsFor(db, books[..k + 1], start, end), ReportsFor(db, books[..k], start, end);
    forall j | 0 <= j < k ensures a[j] == b[j] {
      assert books[..k + 1][j] == books[..k][j];
    }
  }

  function IsActive(): Book -> bool {
    (b: Book) => b.isActive
  }

  /** The books a report covers: the one asked for (active or not), or every active book. */
  function Chosen(db: Db, bookId: Option<nat>): Table<Book> {
    if bookId.None? then Where(db.books, IsActive())
    else match IndexOf(db.books, bookId.value)
      case None => []
      case Some(i) => [db.books[i]]
  }

  /** The summary's copies sold: the sum of every report's figure
      (controllers/admin/reportController.js:101). */
  function SoldTotal(reports: seq<BookReport>): int
    decreases |reports|
  {
    if reports == [] then 0 else SoldTotal(reports[..|reports| - 1]) + reports[|reports| - 1].totalSold
  }

  /** The summary's revenue: the sum of every report's revenue, in cents, read back from its
      two-decimal text (controllers/admin/reportController.js:102). */
  function RevenueTotal(reports: seq<BookReport>): int
    decreases |reports|
  {
    if reports == [] then 0
    else RevenueTotal(reports[..|reports| - 1]) + ReadCents(reports[|reports| - 1].totalRevenue)
  }

  function SummaryOf(reports: seq<BookReport>): Summary {
    Summary(|reports|, SoldTotal(reports), Fixed2(RevenueTotal(reports)))
  }

  /** `getSalesReport`: a bookId that names no book is 404; otherwise one report per chosen
      book and their summary. */
  method GetSalesReport(db: Db, bookId: Option<nat>, start: Option<int>, end: Option<int>)
    returns (r: Response<SalesReport>)
    requires OrdersPresent(db)
    ensures r.status == 200 || r.status == 404
    ensures r.status == 404 <==> bookId.Some? && !HasId(db.books, bookId.value)
    ensures r.status == 404 ==> !r.body.success && r.body.message == Some("Buku tidak ditemukan")
    ensures r.status == 200 ==>
              && r.body.success && r.body.data.Some?
              && r.body.data.value.reports == ReportsFor(db, Chosen(db, bookId), start, end)
              && r.body.data.value.summary == SummaryOf(r.body.data.value.reports)
  {
    var books: Table<Book>;
    if bookId.Some? {
      var i := IndexOf(db.books, bookId.value);
      if i.None? {
        return ErrorReply("Buku tidak ditemukan", Some(404), None, None);
      }
      books := [db.books[i.value]];
      assert HasId(db.books, bookId.value);
    } else {
      books := Where(db.books, IsActive());
    }
    assert books == Chosen(db, bookId);
    var reports: seq<BookReport> := [];
    var k := 0;
    while k < |books|
      invariant 0 <= k <= |books|
      invariant reports == ReportsFor(db, books[..k], start, end)
    {
      var book := books[k];
      var items := Where(db.items, Selected(book.id, start, end));
      var sales := Where(items, PaidIn(db.payments));
      QueryThenFilter(db, book.id, start, end);
      var sold, revenue := Tally(sales);
      var report := BookReport(Info(book), sold, book.val.stock, Fixed2(revenue), |sales|);
      assert report == ReportOf(db, book, start, end);
      ReportsGrow(db, books, k, start, end);
      reports := reports + [report];
      k := k + 1;
    }
    assert books[..k] == books;
    var summary := Summary(|reports|, SoldTotal(reports), Fixed2(RevenueTotal(reports)));
    assert reports == ReportsFor(db, Chosen(db, bookId), start, end) && summary == SummaryOf(reports);
    r := Responses.Success(Some(SalesReport(reports, summary)), None, None);
    assert r.status == 200 && r.body.data == Some(SalesReport(reports, summary));
  }

  /** The figures summed over the books, straight from the counted items. */
  function SoldOver(db: Db, books: Table<Book>, start: Option<int>, end: Option<int>): int
    decreases |books|
  {
    if books == [] then 0
    else SoldOver(db, books[..|books| - 1], start, end)
         + Total(Sales(db, books[|books| - 1].id, start, end), Quantity)
  }

  function RevenueOver(db: Db, books: Table<Book>, start: Option<int>, end: Option<int>): int
    decreases |books|
  {
    if books == [] then 0
    else RevenueOver(db, books[..|books| - 1], start, end)
         + Total(Sales(db, books[|books| - 1].id, start, end), Subtotal)
  }

  /** The summary counts the books and adds up every counted item of them: reading each
      report's two-decimal revenue back loses nothing. */
  lemma {:induction false} SummaryAdds(db: Db, books: Table<Book>, start: Option<int>, end: Option<int>)
    ensures SoldTotal(ReportsFor(db, books, start, end)) == SoldOver(db, books, start, end)
    ensures RevenueTotal(ReportsFor(db, books, start, end)) == RevenueOver(db, books, start, end)
    ensures SummaryOf(ReportsFor(db, books, start, end))
            == Summary(|books|, SoldOver(db, books, start, end), Fixed2(RevenueOver(db, books, start, end)))
    decreases |books|
  {
    if books != [] {
      var init := books[..|books| - 1];
      var rs := ReportsFor(db, books, start, end);
      SummaryAdds(db, init, start, end);
      var last := ReportOf(db, books[|books| - 1], start, end);
      assert rs[..|rs| - 1] == ReportsFor(db, init, start, end);
      assert rs[|rs| - 1] == last;
      ReadFixed2(Total(Sales(db, books[|books| - 1].id, start, end), Subtotal));
      assert SoldTotal(rs) == SoldOver(db, init, start, end) + last.totalSold;
      assert RevenueTotal(rs) == RevenueOver(db, init, start, end) + ReadCents(last.totalRevenue);
    }
  }

  /** Adding an order item changes a book's figures only when the item counts for it, and
      then by exactly that item: one more in orderCount, its quantity in totalSold and its
      subtotal in the revenue. */
  lemma SalesGrow(db: Db, bookId: nat, start: Option<int>, end: Option<int>, item: Row<OrderItem>)
    ensures var counted := item.val.bookId == bookId && InPeriod(item.val.createdAt, start, end)
                           && Paid(db.payments, item.val.orderId);
            var before := Sales(db, bookId, start, end);
            var after := Sales(db.(items := db.items + [item]), bookId, start, end);
            && after == before + (if counted then [item] else [])
            && |after| == |before| + (if counted then 1 else 0)
            && Total(after, Quantity) == Total(before, Quantity) + (if counted then item.val.quantity else 0)
            && Total(after, Subtotal) == Total(before, Subtotal) + (if counted then item.val.subtotal else 0)
  {
    var counts := Counts(db, bookId, start, end);
    var items' := db.items + [item];
    assert items'[..|items'| - 1] == db.items;
    var s := Sales(db, bookId, start, end);
    var extra := if counts(item.val) then [item] else [];
    assert Counts(db.(items := items'), bookId, start, end) == counts;
    assert Sales(db.(items := items'), bookId, start, end) == s + extra;
    TotalAppend(s, extra, Quantity);
    TotalAppend(s, extra, Subtotal);
    if counts(item.val) {
      TotalOne(item, Quantity);
      TotalOne(item, Subtotal);
    } else {
      assert s + extra == s;
    }
  }

  // ---------------------------------------------------------------------------
  // getBookSalesReport

  /** One counted item as the report lists it; paymentStatus is that of the order's first
      payment. */
  datatype SaleLine = SaleLine(orderNumber: string, quantity: int, price: int, subtotal: int,
                               orderDate: int, paymentStatus: Option<PaymentStatus>)

  datatype BookSales = BookSales(book: BookInfo, totalSold: int, remainingStock: int,
                                 totalRevenue: string, orderCount: nat, orderItems: seq<SaleLine>)

  function StatusOf(p: Option<Row<Payment>>): Option<PaymentStatus> {
    if p.Some? then Some(p.value.val.status) else None
  }

  function LineOf(db: Db, item: Row<OrderItem>): SaleLine
    requires HasId(db.orders, item.val.orderId)
  {
    var o := Lookup(db.orders, item.val.orderId).value;
    SaleLine(o.orderNumber, item.val.quantity, item.val.price, item.val.subtotal, o.createdAt,
             StatusOf(FirstPayment(db.payments, item.val.orderId)))
  }

  /** The line shows this item of this order. */
  predicate Shows(db: Db, line: SaleLine, item: Row<OrderItem>) {
    && HasId(db.orders, item.val.orderId)
    && var o := Lookup(db.orders, item.val.orderId).value;
    && line.orderNumber == o.orderNumber && line.orderDate == o.createdAt
    && line.quantity == item.val.quantity && line.price == item.val.price
    && line.subtotal == item.val.subtotal
  }

  lemma ItemsHaveOrders(db: Db, rows: Table<OrderItem>)
    requires OrdersPresent(db)
    requires forall k | 0 <= k < |rows| :: rows[k] in db.items
    ensures forall k | 0 <= k < |rows| :: HasId(db.orders, rows[k].val.orderId)
  {
    forall k | 0 <= k < |rows| ensures HasId(db.orders, rows[k].val.orderId) {
      var i :| 0 <= i < |db.items| && db.items[i] == rows[k];
    }
  }

  /** The per-item lines of the book report (controllers/admin/reportController.js:187-194):
      one line per counted item, in the same order. */
  function LinesOf(db: Db, sales: Table<OrderItem>): (lines: seq<SaleLine>)
    requires forall k | 0 <= k < |sales| :: HasId(db.orders, sales[k].val.orderId)
    ensures |lines| == |sales|
    ensures forall k | 0 <= k < |sales| ::
              && Shows(db, lines[k], sales[k])
              && lines[k].paymentStatus == StatusOf(FirstPayment(db.payments, sales[k].val.orderId))
  {
    seq(|sales|, k requires 0 <= k < |sales| => LineOf(db, sales[k]))
  }

  /** The query sorted newest first, then filtered on the first payment: the counted
      items newest first, each of an existing order whose first payment succeeded, adding
      up to the same totals. */
  lemma NewestSales(db: Db, id: nat, start: Option<int>, end: Option<int>)
    requires OrdersPresent(db)
    ensures var sales := Where(NewestFirst(Where(db.items, Selected(id, start, end))), PaidIn(db.payments));
            && sales == NewestFirst(Sales(db, id, start, end))
            && Total(sales, Quantity) == Total(Sales(db, id, start, end), Quantity)
            && Total(sales, Subtotal) == Total(Sales(db, id, start, end), Subtotal)
            && (forall k | 0 <= k < |sales| :: HasId(db.orders, sales[k].val.orderId))
            && (forall k | 0 <= k < |sales| :: Paid(db.payments, sales[k].val.orderId))
  {
    var counted := Sales(db, id, start, end);
    WhereNewest(Where(db.items, Selected(id, start, end)), PaidIn(db.payments));
    QueryThenFilter(db, id, start, end);
    var sales := NewestFirst(counted);
    TotalNewest(counted, Quantity);
    TotalNewest(counted, Subtotal);
    forall k | 0 <= k < |sales| ensures sales[k] in db.items && Paid(db.payments, sales[k].val.orderId) {
      assert sales[k] == counted[|counted| - 1 - k];
      SalesAre(db, id, start, end, sales[k]);
    }
    ItemsHaveOrders(db, sales);
  }

  /** `getBookSalesReport`: a missing book is 404; otherwise the same figures as that book's
      entry of the sales report, and its counted items newest first. */
  method GetBookSalesReport(db: Db, id: nat, start: Option<int>, end: Option<int>)
    returns (r: Response<BookSales>)
    requires OrdersPresent(db)
    ensures r.status == 200 || r.status == 404
    ensures r.status == 404 <==> !HasId(db.books, id)
    ensures r.status == 404 ==> !r.body.success && r.body.message == Some("Buku tidak ditemukan")
    ensures r.status == 200 ==>
              && r.body.success && r.body.data.Some?
              && var book := db.books[IndexOf(db.books, id).value];
              && var general := ReportOf(db, book, start, end);
              && var s := r.body.data.value;
              && var newest := NewestFirst(Sales(db, id, start, end));
              && s.book == general.book && s.totalSold == general.totalSold
              && s.remainingStock == general.remainingStock
              && s.totalRevenue == general.totalRevenue && s.orderCount == general.orderCount
              && |s.orderItems| == |newest|
              && (forall k | 0 <= k < |newest| :: Shows(db, s.orderItems[k], newest[k]))
              && (forall k | 0 <= k < |newest| :: s.orderItems[k].paymentStatus == Some(PaymentStatus.Success))
  {
    var i := IndexOf(db.books, id);
    if i.None? {
      return ErrorReply("Buku tidak ditemukan", Some(404), None, None);
    }
    var book := db.books[i.value];
    var items := NewestFirst(Where(db.items, Selected(book.id, start, end)));
    var sales := Where(items, PaidIn(db.payments));
    NewestSales(db, id, start, end);
    var sold, revenue := Tally(sales);
    var lines := LinesOf(db, sales);
    r := Responses.Success(Some(BookSales(Info(book), sold, book.val.stock, Fixed2(revenue), |sales|, lines)),
                           None, None);
  }
}
