/** controllers/admin/transactionController.js: the admin's list of orders with their
    customer, items and payments, and one order's detail. */
module Transactions {
  import opened Common
  import opened Schema
  import opened Responses
  import opened Paging
  import Listing

  /** An order as the admin sees it: the order with its items and payments, and its customer. */
  datatype Transaction = Transaction(view: OrderView, user: Option<Row<User>>)

  function TransactionOf(db: Db, order: Row<Order>): Transaction {
    Transaction(ViewOf(db, order), UserOf(db.users, order.val.userId))
  }

  /** Each order of the list with its customer, items and payments, in the same order. */
  function TransactionsOf(db: Db, rows: Table<Order>): (ts: seq<Transaction>)
    ensures |ts| == |rows|
    ensures forall k | 0 <= k < |rows| :: ts[k] == TransactionOf(db, rows[k])
  {
    seq(|rows|, k requires 0 <= k < |rows| => TransactionOf(db, rows[k]))
  }

  // ---------------------------------------------------------------------------
  // getAllTransactions

  /** The `where` object of the query: an order status and the createdAt bounds. */
  datatype OrderWhere = OrderWhere(status: Option<string>, from: Option<int>, to: Option<int>)

  function AdmittedBy(w: OrderWhere): Order -> bool {
    (o: Order) => (w.status.None? || OrderStatusName(o.status) == w.status.value) && InPeriod(o.createdAt, w.from, w.to)
  }

  /** The orders the query parameters ask for: a non-empty status is matched exactly, and the
      creation time is inside the period. */
  predicate Matches(o: Order, status: Option<string>, start: Option<int>, end: Option<int>) {
    (!Truthy(status) || OrderStatusName(o.status) == status.value) && InPeriod(o.createdAt, start, end)
  }

  function Matching(status: Option<string>, start: Option<int>, end: Option<int>): Order -> bool {
    (o: Order) => Matches(o, status, start, end)
  }

  /** The payment-status filter (controllers/admin/transactionController.js:61-65): the order
      has a first payment and its status is the one asked for. */
  predicate FirstPaidAs(payments: Table<Payment>, orderId: nat, status: string) {
    var p := FirstPayment(payments, orderId);
    p.Some? && PaymentStatusName(p.value.val.status) == status
  }

  /** The paymentStatus filter over the rows of one page. */
  function WithPayment(rows: Table<Order>, payments: Table<Payment>, status: string): (r: Table<Order>)
    ensures |r| <= |rows|
    ensures forall i | 0 <= i < |r| :: r[i] in rows && FirstPaidAs(payments, r[i].id, status)
    ensures forall i | 0 <= i < |rows| && FirstPaidAs(payments, rows[i].id, status) :: rows[i] in r
    decreases |rows|
  {
    if rows == [] then []
    else
      assert rows == rows[..|rows| - 1] + [rows[|rows| - 1]];
      var last := rows[|rows| - 1];
      WithPayment(rows[..|rows| - 1], payments, status)
        + (if FirstPaidAs(payments, last.id, status) then [last] else [])
  }

  datatype TransactionPage = TransactionPage(transactions: seq<Transaction>, pagination: Pagination)

  /** The page the query returns before the paymentStatus filter: matching orders, newest
      first. */
  function PageOf(db: Db, page: nat, limit: nat, status: Option<string>, start: Option<int>, end: Option<int>): Table<Order>
    requires page >= 1 && limit >= 1
  {
    Window(NewestFirst(Where(db.orders, Matching(status, start, end))), page, limit)
  }

  /** The orders shown: the page, filtered on the first payment when a paymentStatus is given. */
  function Shown(db: Db, page: nat, limit: nat, status: Option<string>, paymentStatus: Option<string>,
                 start: Option<int>, end: Option<int>): Table<Order>
    requires page >= 1 && limit >= 1
  {
    var rows := PageOf(db, page, limit, status, start, end);
    if Truthy(paymentStatus) then WithPayment(rows, db.payments, paymentStatus.value) else rows
  }

  /** `getAllTransactions`: the where object is built from the given parameters, one page
      of matching orders is read with the count of all of them, and the paymentStatus filter
      runs on that page; total and totalPages describe the unfiltered count. */
  method GetAllTransactions(db: Db, page: Option<nat>, limit: Option<nat>, status: Option<string>,
                            paymentStatus: Option<string>, start: Option<int>, end: Option<int>)
    returns (r: Response<TransactionPage>)
    requires page.None? || page.value >= 1
    requires limit.None? || limit.value >= 1
    ensures var p := if page.Some? then page.value else 1;
            var l := if limit.Some? then limit.value else 10;
            var count := |Where(db.orders, Matching(status, start, end))|;
            var shown := Shown(db, p, l, status, paymentStatus, start, end);
            && r.status == 200 && r.body.success && r.body.data.Some?
            && r.body.data.value.pagination == Pagination(p, l, count, TotalPages(count, l))
            && r.body.data.value.transactions == TransactionsOf(db, shown)
  {
    var p := if page.Some? then page.value else 1;
    var l := if limit.Some? then limit.value else 10;
    var where := OrderWhere(None, None, None);
    if Truthy(status) {
      where := where.(status := status);
    }
    if start.Some? || end.Some? {
      if start.Some? {
        where := where.(from := start);
      }
      if end.Some? {
        where := where.(to := end);
      }
    }
    assert where == OrderWhere(if Truthy(status) then status else None, start, end);
    forall i | 0 <= i < |db.orders|
      ensures AdmittedBy(where)(db.orders[i].val) == Matching(status, start, end)(db.orders[i].val)
    {
    }
    WhereSame(db.orders, AdmittedBy(where), Matching(status, start, end));
    var rows := Where(db.orders, AdmittedBy(where));
    var count := |rows|;
    var filtered := Window(NewestFirst(rows), p, l);
    assert filtered == PageOf(db, p, l, status, start, end);
    if Truthy(paymentStatus) {
      filtered := WithPayment(filtered, db.payments, paymentStatus.value);
    }
    assert filtered == Shown(db, p, l, status, paymentStatus, start, end);
    var data := TransactionPage(TransactionsOf(db, filtered), Pagination(p, l, count, TotalPages(count, l)));
    r := Responses.Success(Some(data), None, None);
  }

  /** Every order shown is an order of the store that matches the status and the period,
      and, when a paymentStatus is given, whose first payment has that status. */
  lemma ShownMatch(db: Db, page: nat, limit: nat, status: Option<string>, paymentStatus: Option<string>,
                   start: Option<int>, end: Option<int>)
    requires page >= 1 && limit >= 1
    ensures forall row | row in Shown(db, page, limit, status, paymentStatus, start, end) ::
              && row in db.orders && Matches(row.val, status, start, end)
              && (Truthy(paymentStatus) ==> FirstPaidAs(db.payments, row.id, paymentStatus.value))
  {
    var rows := PageOf(db, page, limit, status, start, end);
    Listing.NewestPageRows(db.orders, Matching(status, start, end), page, limit);
    if Truthy(paymentStatus) {
      var shown := WithPayment(rows, db.payments, paymentStatus.value);
      forall row | row in shown ensures row in rows {
        var i :| 0 <= i < |shown| && shown[i] == row;
      }
    }
  }

  /** With a paymentStatus, an order is shown exactly when it is on the unfiltered page and
      its first payment has that status: orders without a payment are dropped, and nothing
      from later pages moves up. */
  lemma PaymentFilterOnPage(db: Db, page: nat, limit: nat, status: Option<string>, paymentStatus: string,
                            start: Option<int>, end: Option<int>, row: Row<Order>)
    requires page >= 1 && limit >= 1 && paymentStatus != ""
    ensures row in Shown(db, page, limit, status, Some(paymentStatus), start, end) <==>
              row in PageOf(db, page, limit, status, start, end) && FirstPaidAs(db.payments, row.id, paymentStatus)
  {
    var rows := PageOf(db, page, limit, status, start, end);
    var shown := WithPayment(rows, db.payments, paymentStatus);
    assert Shown(db, page, limit, status, Some(paymentStatus), start, end) == shown;
    if row in shown {
      var i :| 0 <= i < |shown| && shown[i] == row;
    }
    if row in rows && FirstPaidAs(db.payments, row.id, paymentStatus) {
      var i :| 0 <= i < |rows| && rows[i] == row;
    }
  }

  /** Without a paymentStatus, every matching order is on some page within totalPages. */
  lemma MatchingOnPage(db: Db, status: Option<string>, start: Option<int>, end: Option<int>, limit: nat, k: nat)
    returns (page: nat)
    requires limit >= 1 && k < |db.orders| && Matches(db.orders[k].val, status, start, end)
    ensures 1 <= page <= TotalPages(|Where(db.orders, Matching(status, start, end))|, limit)
    ensures db.orders[k] in Shown(db, page, limit, status, None, start, end)
  {
    var slot;
    page, slot := Listing.NewestOnPage(db.orders, Matching(status, start, end), limit, k);
  }

  // ---------------------------------------------------------------------------
  // getTransactionDetail

  /** `getTransactionDetail`: any order by key, with its customer, items and payments. */
  function GetTransactionDetail(db: Db, id: nat): (r: Response<Transaction>)
    ensures r.status == 200 || r.status == 404
    ensures r.status == 404 <==> !HasId(db.orders, id)
    ensures r.status == 404 ==> !r.body.success && r.body.message == Some("Transaksi tidak ditemukan")
    ensures r.status == 200 ==>
              && r.body.success && r.body.data.Some?
              && var t := r.body.data.value;
              && t.view.order in db.orders && t.view.order.id == id
              && (forall i | 0 <= i < |db.items| && db.items[i].val.orderId == id :: db.items[i] in t.view.items)
              && (forall i | 0 <= i < |t.view.items| :: t.view.items[i].val.orderId == id)
              && (forall i | 0 <= i < |db.payments| && db.payments[i].val.orderId == id :: db.payments[i] in t.view.payments)
              && (forall i | 0 <= i < |t.view.payments| :: t.view.payments[i].val.orderId == id)
              && (t.user.Some? <==> HasId(db.users, t.view.order.val.userId))
  {
    match IndexOf(db.orders, id)
    case None => ErrorReply("Transaksi tidak ditemukan", Some(404), None, None)
    case Some(i) => Responses.Success(Some(TransactionOf(db, db.orders[i])), None, None)
  }
}
