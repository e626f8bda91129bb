/** controllers/paymentController.js: the callback a payment gateway calls to report a
    payment's outcome, and the customer's payment-status lookup. */
module Payments {
  import opened Common
  import opened Schema
  import opened Responses
  import Orders
  import Store

  /** The callback's `callbackData`: a string is stored as it is, any other JSON value as its
      `JSON.stringify` text, given here with the value's truthiness. */
  datatype Payload = Text(text: string) | Value(json: string, truthy: bool)

  predicate PayloadTruthy(p: Option<Payload>) {
    match p
    case None => false
    case Some(Text(t)) => t != ""
    case Some(Value(_, truthy)) => truthy
  }

  function Stored(p: Payload): string {
    match p
    case Text(t) => t
    case Value(json, _) => json
  }

  /** The callback's status check (controllers/paymentController.js:21-22): only "pending",
      "success" and "failed" name a payment status. */
  function ParseStatus(s: string): (r: Option<PaymentStatus>)
    ensures r.Some? ==> PaymentStatusName(r.value) == s
  {
    if s == "pending" then Some(PaymentStatus.Pending)
    else if s == "success" then Some(Success)
    else if s == "failed" then Some(Failed)
    else None
  }

  /** Exactly the three ENUM values are accepted. */
  lemma ParseStatusExact(st: PaymentStatus, s: string)
    ensures ParseStatus(PaymentStatusName(st)) == Some(st)
    ensures ParseStatus(s).None? <==> s != "pending" && s != "success" && s != "failed"
  {
  }

  /** What the order's status becomes: success means processing, failed means pending, and a
      pending payment leaves the order alone. */
  function OrderStatusAfter(payment: PaymentStatus, order: OrderStatus): OrderStatus {
    match payment
    case Success => Processing
    case Failed => OrderStatus.Pending
    case Pending => order
  }

  /** The reply's data: the saved payment and order. */
  datatype Outcome = Outcome(payment: Row<Payment>, order: Row<Order>)

  const InvalidStatus := "Status tidak valid. Status yang valid: pending, success, failed"

  /** The payment after the callback: the status always, the reference and the payload only
      when given. */
  function Updated(p: Payment, status: PaymentStatus, paymentReference: Option<string>,
                   callbackData: Option<Payload>): Payment
  {
    p.(status := status,
       paymentReference := if Truthy(paymentReference) then paymentReference else p.paymentReference,
       callbackData := if PayloadTruthy(callbackData) then Some(Stored(callbackData.value)) else p.callbackData)
  }

  /** `paymentCallback`: the reply and the database afterwards. `orderId` is falsy when absent,
      null or 0. */
  function CallbackSpec(db: Db, orderId: Option<nat>, status: Option<string>,
                        paymentReference: Option<string>, callbackData: Option<Payload>): (Response<Outcome>, Db)
  {
    if orderId.None? || orderId.value == 0 || !Truthy(status) then
      (BadRequest("Order ID dan status harus diisi"), db)
    else match ParseStatus(status.value)
      case None => (BadRequest(InvalidStatus), db)
      case Some(st) =>
        match IndexOf(db.orders, orderId.value)
        case None => (NotFound(Some("Order tidak ditemukan")), db)
        case Some(o) =>
          match FirstPaymentIndex(db.payments, orderId.value)
          case None => (NotFound(Some("Payment tidak ditemukan")), db)
          case Some(p) =>
            var payment := Row(db.payments[p].id, Updated(db.payments[p].val, st, paymentReference, callbackData));
            var order := Row(db.orders[o].id, db.orders[o].val.(status := OrderStatusAfter(st, db.orders[o].val.status)));
            (Responses.Success(Some(Outcome(payment, order)), Some("Payment status berhasil diupdate"), None),
             db.(payments := db.payments[p := payment], orders := db.orders[o := order]))
  }

  /** The controller's steps: check the fields, find the order and its first payment, write
      the payment, then derive and write the order's status. */
  method PaymentCallback(store: Store.Database, orderId: Option<nat>, status: Option<string>,
                         paymentReference: Option<string>, callbackData: Option<Payload>)
    returns (r: Response<Outcome>)
    modifies store
    ensures (r, store.State()) == CallbackSpec(old(store.State()), orderId, status, paymentReference, callbackData)
  {
    if orderId.None? || orderId.value == 0 || !Truthy(status) {
      return BadRequest("Order ID dan status harus diisi");
    }
    var st := ParseStatus(status.value);
    if st.None? {
      return BadRequest(InvalidStatus);
    }
    var o := IndexOf(store.orders, orderId.value);
    if o.None? {
      return NotFound(Some("Order tidak ditemukan"));
    }
    var p := FirstPaymentIndex(store.payments, orderId.value);
    if p.None? {
      return NotFound(Some("Payment tidak ditemukan"));
    }
    var payment := store.payments[p.value].val;
    payment := payment.(status := st.value);
    if Truthy(paymentReference) {
      payment := payment.(paymentReference := paymentReference);
    }
    if PayloadTruthy(callbackData) {
      payment := payment.(callbackData := Some(Stored(callbackData.value)));
    }
    store.payments := store.payments[p.value := Row(store.payments[p.value].id, payment)];
    var order := store.orders[o.value].val;
    if st.value == Success {
      order := order.(status := Processing);
      store.orders := store.orders[o.value := Row(store.orders[o.value].id, order)];
    } else if st.value == Failed {
      order := order.(status := OrderStatus.Pending);
      store.orders := store.orders[o.value := Row(store.orders[o.value].id, order)];
    } else {
      assert store.orders[o.value := Row(store.orders[o.value].id, order)] == store.orders;
    }
    assert payment == Updated(old(store.payments)[p.value].val, st.value, paymentReference, callbackData);
    r := Responses.Success(Some(Outcome(store.payments[p.value], store.orders[o.value])),
                           Some("Payment status berhasil diupdate"), None);
  }

  // ---------------------------------------------------------------------------
  // Properties

  /** Every reply but 200 leaves the database as it was; 400 for missing fields or an unknown
      status, 404 for a missing order or an order without a payment. */
  lemma CallbackOutcomes(db: Db, orderId: Option<nat>, status: Option<string>,
                         paymentReference: Option<string>, callbackData: Option<Payload>)
    ensures var r := CallbackSpec(db, orderId, status, paymentReference, callbackData);
            var given := orderId.Some? && orderId.value != 0 && Truthy(status);
            && (r.0.status == 200 || r.0.status == 400 || r.0.status == 404)
            && (r.0.status != 200 ==> r.1 == db && !r.0.body.success)
            && (r.0.status == 400 <==> !given || ParseStatus(status.value).None?)
            && (given && ParseStatus(status.value).None? ==> r.0.body.message == Some(InvalidStatus))
            && (r.0.status == 404 <==>
                  given && ParseStatus(status.value).Some?
                  && (!HasId(db.orders, orderId.value)
                      || forall k | 0 <= k < |db.payments| :: db.payments[k].val.orderId != orderId.value))
  {
  }

  /** A successful callback rewrites only the order's first payment and the order: the
      payment takes the new status, the reference and payload only when given; the order's
      status follows `OrderStatusAfter`; every other row is untouched. */
  lemma CallbackWrites(db: Db, orderId: nat, status: string, paymentReference: Option<string>,
                       callbackData: Option<Payload>)
    requires CallbackSpec(db, Some(orderId), Some(status), paymentReference, callbackData).0.status == 200
    ensures var db' := CallbackSpec(db, Some(orderId), Some(status), paymentReference, callbackData).1;
            var st := ParseStatus(status);
            var o := IndexOf(db.orders, orderId);
            var p := FirstPaymentIndex(db.payments, orderId);
            && st.Some? && o.Some? && p.Some?
            && |db'.payments| == |db.payments| && |db'.orders| == |db.orders|
            && db'.payments[p.value].id == db.payments[p.value].id
            && db'.payments[p.value].val.status == st.value
            && PaymentStatusName(db'.payments[p.value].val.status) == status
            && db'.payments[p.value].val.paymentReference
                 == (if Truthy(paymentReference) then paymentReference else db.payments[p.value].val.paymentReference)
            && db'.payments[p.value].val.callbackData
                 == (if PayloadTruthy(callbackData) then Some(Stored(callbackData.value)) else db.payments[p.value].val.callbackData)
            && db'.payments[p.value].val.(status := db.payments[p.value].val.status,
                                          paymentReference := db.payments[p.value].val.paymentReference,
                                          callbackData := db.payments[p.value].val.callbackData)
                 == db.payments[p.value].val
            && (forall k | 0 <= k < |db.payments| && k != p.value :: db'.payments[k] == db.payments[k])
            && db'.orders[o.value] == Row(orderId, db.orders[o.value].val.(status := OrderStatusAfter(st.value, db.orders[o.value].val.status)))
            && (forall k | 0 <= k < |db.orders| && k != o.value :: db'.orders[k] == db.orders[k])
            && db'.users == db.users && db'.books == db.books && db'.carts == db.carts
            && db'.items == db.items && db'.sessions == db.sessions && db'.next == db.next
  {
  }

  /** The order status each callback status leads to: `success` gives processing, `failed`
      gives pending, `pending` keeps whatever the order had. */
  lemma OrderStatusMachine(db: Db, orderId: nat, status: string, paymentReference: Option<string>,
                           callbackData: Option<Payload>)
    requires CallbackSpec(db, Some(orderId), Some(status), paymentReference, callbackData).0.status == 200
    ensures var db' := CallbackSpec(db, Some(orderId), Some(status), paymentReference, callbackData).1;
            var o := IndexOf(db.orders, orderId).value;
            && (status == "success" ==> db'.orders[o].val.status == Processing)
            && (status == "failed" ==> db'.orders[o].val.status == OrderStatus.Pending)
            && (status == "pending" ==> db'.orders[o] == db.orders[o])
  {
    CallbackWrites(db, orderId, status, paymentReference, callbackData);
  }

  /** There is no transition guard: whatever status the payment had before, an accepted
      callback gives the same reply and leaves the same database. */
  lemma NoTransitionGuard(db: Db, orderId: nat, status: string, paymentReference: Option<string>,
                          callbackData: Option<Payload>, earlier: PaymentStatus)
    requires CallbackSpec(db, Some(orderId), Some(status), paymentReference, callbackData).0.status == 200
    ensures var p := FirstPaymentIndex(db.payments, orderId).value;
            var db0 := db.(payments := db.payments[p := Row(db.payments[p].id, db.payments[p].val.(status := earlier))]);
            CallbackSpec(db0, Some(orderId), Some(status), paymentReference, callbackData)
              == CallbackSpec(db, Some(orderId), Some(status), paymentReference, callbackData)
  {
    var p := FirstPaymentIndex(db.payments, orderId).value;
    var db0 := db.(payments := db.payments[p := Row(db.payments[p].id, db.payments[p].val.(status := earlier))]);
    FirstPaymentSameOrders(db.payments, db0.payments, orderId);
    SameCallback(db, db0.payments, orderId, status, paymentReference, callbackData, p, earlier);
  }

  /** Replacing the status of the first payment of the order, and nothing else, changes
      nothing about an accepted callback. */
  lemma SameCallback(db: Db, t: Table<Payment>, orderId: nat, status: string,
                     paymentReference: Option<string>, callbackData: Option<Payload>, p: nat,
                     earlier: PaymentStatus)
    requires CallbackSpec(db, Some(orderId), Some(status), paymentReference, callbackData).0.status == 200
    requires p < |db.payments| && |t| == |db.payments|
    requires FirstPaymentIndex(db.payments, orderId) == Some(p) && FirstPaymentIndex(t, orderId) == Some(p)
    requires t[p] == Row(db.payments[p].id, db.payments[p].val.(status := earlier))
    requires forall k | 0 <= k < |t| && k != p :: t[k] == db.payments[k]
    ensures CallbackSpec(db.(payments := t), Some(orderId), Some(status), paymentReference, callbackData)
            == CallbackSpec(db, Some(orderId), Some(status), paymentReference, callbackData)
  {
    var st := ParseStatus(status).value;
    var payment := Row(db.payments[p].id, Updated(db.payments[p].val, st, paymentReference, callbackData));
    assert Updated(t[p].val, st, paymentReference, callbackData) == payment.val;
    var a, b := t[p := payment], db.payments[p := payment];
    assert forall k | 0 <= k < |a| :: a[k] == b[k];
    assert a == b;
  }

  /** Rewriting payments without changing which order each belongs to keeps the first
      payment of every order at the same place. */
  lemma {:induction false} FirstPaymentSameOrders(a: Table<Payment>, b: Table<Payment>, orderId: nat)
    requires |a| == |b| && forall k | 0 <= k < |a| :: a[k].val.orderId == b[k].val.orderId
    ensures FirstPaymentIndex(a, orderId) == FirstPaymentIndex(b, orderId)
    decreases |a|
  {
    if a != [] {
      FirstPaymentSameOrders(a[1..], b[1..], orderId);
    }
  }

  /** Delivering the same callback twice leaves the database as delivering it once, and
      gives the same reply. */
  lemma CallbackIdempotent(db: Db, orderId: Option<nat>, status: Option<string>,
                           paymentReference: Option<string>, callbackData: Option<Payload>)
    ensures var once := CallbackSpec(db, orderId, status, paymentReference, callbackData);
            CallbackSpec(once.1, orderId, status, paymentReference, callbackData) == once
  {
    var once := CallbackSpec(db, orderId, status, paymentReference, callbackData);
    if once.0.status == 200 {
      var id := orderId.value;
      var st := ParseStatus(status.value).value;
      var o := IndexOf(db.orders, id).value;
      var p := FirstPaymentIndex(db.payments, id).value;
      var db' := once.1;
      FirstPaymentSameOrders(db.payments, db'.payments, id);
      SameKeysIndex(db.orders, db'.orders, id);
      assert OrderStatusAfter(st, OrderStatusAfter(st, db.orders[o].val.status))
               == OrderStatusAfter(st, db.orders[o].val.status);
      assert db'.payments[p := db'.payments[p]] == db'.payments;
      assert db'.orders[o := db'.orders[o]] == db'.orders;
    }
  }

  /** The callback keeps every schema constraint. */
  lemma CallbackKeepsValid(db: Db, orderId: Option<nat>, status: Option<string>,
                           paymentReference: Option<string>, callbackData: Option<Payload>)
    requires Valid(db)
    ensures Valid(CallbackSpec(db, orderId, status, paymentReference, callbackData).1)
  {
    var r := CallbackSpec(db, orderId, status, paymentReference, callbackData);
    if r.0.status == 200 {
      CallbackWrites(db, orderId.value, status.value, paymentReference, callbackData);
      RewriteKeepsValid(db, r.1);
    }
  }

  /** Rewriting orders and payments in place, keeping every key, every order's owner and
      number and every payment's order, keeps the schema constraints. */
  lemma RewriteKeepsValid(db: Db, db': Db)
    requires Valid(db)
    requires db'.users == db.users && db'.books == db.books && db'.carts == db.carts
    requires db'.items == db.items && db'.sessions == db.sessions && db'.next == db.next
    requires |db'.orders| == |db.orders| && |db'.payments| == |db.payments|
    requires forall k | 0 <= k < |db.orders| ::
               && db'.orders[k].id == db.orders[k].id
               && db'.orders[k].val.userId == db.orders[k].val.userId
               && db'.orders[k].val.orderNumber == db.orders[k].val.orderNumber
    requires forall k | 0 <= k < |db.payments| ::
               db'.payments[k].id == db.payments[k].id && db'.payments[k].val.orderId == db.payments[k].val.orderId
    ensures Valid(db')
  {
    forall id: nat ensures HasId(db'.orders, id) <==> HasId(db.orders, id) {
      HasIdSameKeys(db.orders, db'.orders, id);
    }
    assert KeysValid(db');
    assert OrdersValid(db'.orders, db'.users);
    assert ItemsValid(db'.items, db'.orders, db'.books);
    assert PaymentsValid(db'.payments, db'.orders);
  }

  // ---------------------------------------------------------------------------
  // getPaymentStatus

  datatype PaymentInfo = PaymentInfo(orderId: nat, orderNumber: string, payment: Row<Payment>)

  /** `getPaymentStatus`: the first payment of one of the caller's own orders. */
  function GetPaymentStatus(db: Db, userId: nat, orderId: nat): (r: Response<PaymentInfo>)
    ensures r.status == 200 || r.status == 404
    ensures r.status == 200 <==>
              Orders.IsOwnOrder(db.orders, orderId, userId) && FirstPayment(db.payments, orderId).Some?
    ensures !Orders.IsOwnOrder(db.orders, orderId, userId) ==> r.body.message == Some("Order tidak ditemukan")
    ensures Orders.IsOwnOrder(db.orders, orderId, userId) && FirstPayment(db.payments, orderId).None? ==>
              r.body.message == Some("Payment tidak ditemukan")
    ensures r.status == 200 ==>
              && r.body.data.Some? && r.body.data.value.orderId == orderId
              && r.body.data.value.payment == FirstPayment(db.payments, orderId).value
              && (exists i | 0 <= i < |db.orders| ::
                    && db.orders[i].id == orderId && db.orders[i].val.userId == userId
                    && db.orders[i].val.orderNumber == r.body.data.value.orderNumber)
  {
    match Orders.FindOwnOrder(db.orders, orderId, userId)
    case None => NotFound(Some("Order tidak ditemukan"))
    case Some(order) =>
      match FirstPayment(db.payments, orderId)
      case None => NotFound(Some("Payment tidak ditemukan"))
      case Some(p) => Responses.Success(Some(PaymentInfo(order.id, order.val.orderNumber, p)), None, None)
  }
}
