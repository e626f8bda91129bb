# Book shop order engine, modelled in Dafny

This project models the order, stock, payment and session engine of an Express and Sequelize
book shop. The shop's tables (books, cart lines, orders, order items, payments, sessions and
users) form one database value, `Schema.Db`. Their database constraints are one validity
predicate, `Schema.Valid`:

- primary keys increase;
- every foreign key names an existing row;
- book stock is never negative (`validate: { min: 0 }`, models/Book.js:32-39);
- cart quantities are at least 1;
- there is one cart line per user and book;
- order numbers and session tokens are unique.

Every controller of the core is a function or method over that value:

- checkout;
- the payment callback and the payment-status lookup;
- the cart operations;
- the admin catalogue and stock operations, and the customer catalogue;
- the sales reports and the transaction listing;
- login, logout and the token expiry;
- the authentication and role middleware;
- the response envelope helpers;
- the two error-logging middlewares.

Each controller that writes to the database has two parts:

- a pure specification function that returns the reply and the new database;
- a method on `Store.Database`, a class holding the tables as fields, whose postcondition ties the reply and its new state to that function.

The properties are lemmas about the specification functions: the guarded outcomes, the state
each operation leaves, and that every operation keeps `Schema.Valid`. The controllers' loops
are methods with loop invariants: the checkout stock scan and item writes, the cart total,
the report tallies, the header deletes, and the expiry date arithmetic.

Money is an integer count of cents, matching the DECIMAL(10,2) columns. Time is an integer
count of milliseconds. Code that the shop calls but does not own is passed in as a parameter:

- `jwt.sign` and `jwt.verify`;
- bcrypt's `comparePassword`;
- the clock;
- `Math.random`;
- `JSON.stringify`.

A database transaction is modelled by its contract. On a rollback the database value is
returned unchanged. On a commit the whole new value is returned.

Some behaviours of the code that a reader might not expect, which the model keeps:

- Checkout does not check that a book is still active (controllers/orderController.js:44-51):
  a soft-deleted book that is still in a cart can be ordered.
- Stock is decremented unconditionally after a separate check, not by a conditional update
  (controllers/orderController.js:48 and :86).
- The payment callback has no transition guard, so any status can be overwritten
  (controllers/paymentController.js:46-66). Applying the same callback twice is idempotent.
- Only the first payment of an order (`payments[0]`) is consulted, although the schema allows
  several payments per order (controllers/paymentController.js:36-39).
- The price column has no validator (models/Book.js:27-31). A negative price is refused only by
  the admin writers (controllers/admin/bookController.js:85 and :147), so `Schema.Valid` does
  not rule out a negative price in a row written by other means.

## Model

| member | source | states |
|---|---|---|
| Common.OrNull | middleware/responseLogger.js:36 | the string itself when it is non-empty, otherwise none |
| Common.OrElse | controllers/authController.js:72 | the string itself when it is non-empty, otherwise the fallback |
| Common.ContainsAt | controllers/authController.js:20 | includes finds a needle exactly when it occurs at some position of the text |
| Common.DecimalRoundTrip | controllers/orderController.js:11 | reading back the decimal numeral of a number gives the number |
| Common.Fixed2Value | controllers/cartController.js:39 | the toFixed(2) text of an amount is whole units, a point and two digits, and reads as the amount in cents |
| Common.ReadFixed2 | controllers/admin/reportController.js:102 | parseFloat of the toFixed(2) text of an amount gives back the amount, negative amounts included |
| Common.Split | controllers/authController.js:99 | split always yields at least one piece |
| Common.SplitFirst | controllers/authController.js:99 | text without the separator followed by the separator and more splits into that text and the pieces of the rest |
| Common.ParseIntOfNumeral | controllers/authController.js:21 | parseInt reads back the decimal numeral of n followed by any suffix that starts with no digit (and no x after a 0) |
| Schema.IndexOf | controllers/admin/bookController.js:60 | findByPk: the position found holds the first row with that key; none exactly when no row has it |
| Schema.Lookup | controllers/paymentController.js:28 | a record is found exactly when some row has that key, and it is that row's record |
| Schema.OrderedIndex | controllers/admin/bookController.js:60 | in a table of increasing keys, findByPk of a row's key finds that row |
| Schema.Put | controllers/admin/bookController.js:161 | saving a changed record rewrites that row under its own key and leaves every other row as it was |
| Schema.UserOf | models/index.js:17 | a row's user is found exactly when a user has that key, and is that user |
| Schema.Where | controllers/bookController.js:26-34 | findAll with a condition keeps every row that satisfies it and only rows of the table that do, never more than it had |
| Schema.NewestFirst | controllers/admin/bookController.js:33 | newest first (createdAt DESC, the creation order being the key order) is the table in reverse |
| Schema.WhereBoth | controllers/admin/reportController.js:47-68 | filtering twice is filtering once by both conditions |
| Schema.NewestSameRows | controllers/orderController.js:165 | putting a table newest first keeps exactly its rows |
| Schema.NewestDescending | controllers/orderController.js:165 | a table in key order, put newest first, has strictly decreasing keys |
| Schema.WhereNewest | controllers/admin/reportController.js:145-164 | sorting newest first and filtering can be done in either order |
| Schema.FirstPayment | controllers/admin/transactionController.js:63 | payments[0] of an order: a stored payment of that order, none exactly when the order has no payment |
| Schema.FirstPaymentIndex | controllers/admin/transactionController.js:63 | the position of that payment, before which no payment of the order is stored |
| Schema.ViewOf | controllers/orderController.js:148-162 | an order with all of its items, each with the book its key names (none when no book has it), and all of its payments, and nothing else |
| Schema.RowOf | controllers/orderController.js:151-157 | the row an include finds for a key is a stored row with that key, and there is one exactly when some row has the key |
| Schema.ViewBooksPresent | controllers/orderController.js:151-157 | in a valid database every item of an order view comes with its book |
| Responses.Success | helpers/response.js:12-26 | the reply is a success with the given status (200 by default); the message is present exactly when it is truthy; the data is as given; no error fields |
| Responses.SuccessMessageReply | helpers/response.js:34-39 | a success carrying exactly the message and no data, status 200 by default |
| Responses.ErrorReply | helpers/response.js:48-63 | a failure carrying the message, status 500 by default; the error detail appears exactly when the error is truthy and NODE_ENV is development, and is then the Error's message or the thrown value itself; the stack appears exactly when the detail is shown, the value is an Error and its stack is truthy |
| Responses.ServerErrorReply | helpers/response.js:48-63 | a controller's catch reply: status 500, not a success, the given message, no data |
| Responses.ValidationError | helpers/response.js:71-79 | message "Validation error", status 400 by default; a single error becomes a one-element array, an array is kept |
| Responses.StopReplies | helpers/response.js:86-127 | unauthorized, forbidden, notFound and badRequest give 401, 403, 404 and 400, never a success, with the message passed or else "Unauthorized", "Forbidden" and "Not found" |
| Responses.CreatedIsSuccess201 | helpers/response.js:135-137 | `created` is `success` with status 201 and the same body |
| Responses.NumberOr | helpers/response.js:151-154 | `x \|\| d` on numbers: the value when it is set and non-zero, otherwise the default |
| Responses.Paginated | helpers/response.js:146-163 | status 200 with the data and a pagination block; each of page, limit, total, totalPages is the value passed when it is truthy and otherwise 1, 10, 0, 0 (an absent value and 0 alike); message only when truthy |
| Responses.PaginatedDefaultsStable | helpers/response.js:146-163 | re-paginating with the block produced keeps it unchanged |
| Paging.TotalPagesIsCeiling | controllers/admin/bookController.js:36 | totalPages is the least number of pages of `limit` rows that holds all `count` rows |
| Paging.Window | controllers/admin/bookController.js:29-34 | a page holds at most `limit` rows, each being the row at offset + k of the listing, and exactly `limit` when enough rows remain |
| Paging.RowOnPage | controllers/admin/bookController.js:11-36 | row k of a listing is row k % limit of page k / limit + 1, and that page is within totalPages |
| Listing.NewestPageRows | controllers/bookController.js:28-33 | every row on a page of a newest-first listing is a table row that the filter keeps |
| Listing.NewestOnPage | controllers/bookController.js:28-35 | every row the filter keeps appears on some page within totalPages |
| AdminBooks.GetAllBooks | controllers/admin/bookController.js:8-46 | the reply holds the requested page (defaults 1 and 10) of the matching books newest first, the count of all matching books and the ceiling of count / limit as totalPages |
| AdminBooks.ListedOnPage | controllers/admin/bookController.js:13-36 | every book that matches the search and the active filter sits on some page between 1 and totalPages |
| AdminBooks.PageMatches | controllers/admin/bookController.js:16-27 | every book on a page matches the search (title, author or isbn) and has the requested active flag |
| AdminBooks.GetBookDetail | controllers/admin/bookController.js:56-66 | 404 "Buku tidak ditemukan" exactly when no book has the key; otherwise 200 with that book, active or not |
| AdminBooks.CreateEffect | controllers/admin/bookController.js:76-112 | each failed validation gives 400 with no change; an accepted book is appended, active, with the given fields and the next key; only the book table and its counter change |
| AdminBooks.CreateKeepsValid | controllers/admin/bookController.js:85-110 | creating keeps every schema constraint (non-negative stock, unique isbn, ordered keys) |
| AdminBooks.AppendBookValid | controllers/admin/bookController.js:101-110 | appending a book with the next key, a fresh isbn and non-negative stock keeps every schema constraint |
| AdminBooks.UpdateEffect | controllers/admin/bookController.js:122-163 | 404 for an unknown key, 400 exactly for a taken isbn or a negative price or stock (nothing saved); on 200 only the supplied fields of that one book change |
| AdminBooks.UpdateIdempotent | controllers/admin/bookController.js:141-161 | sending the same accepted edit twice gives the state of sending it once |
| AdminBooks.UpdateKeepsValid | controllers/admin/bookController.js:133-161 | editing keeps every schema constraint |
| AdminBooks.StockEffect | controllers/admin/bookController.js:173-207 | the 400 and 404 rejections change nothing; `add` raises and `subtract` lowers the stock by the quantity; `subtract` is refused exactly when the stock is below the quantity, so stock never goes negative; nothing else changes |
| AdminBooks.AddThenSubtract | controllers/admin/bookController.js:196-205 | subtracting a quantity just added succeeds and restores the catalogue |
| AdminBooks.SubtractRestores | controllers/admin/bookController.js:196-205 | on a table whose book holds the raised stock, subtracting the same quantity succeeds and gives back the original database |
| AdminBooks.StockKeepsValid | controllers/admin/bookController.js:196-205 | adjusting stock keeps every schema constraint, stock >= 0 in particular |
| AdminBooks.DeleteEffect | controllers/admin/bookController.js:217-231 | 404 for an unknown key; otherwise the same row stays with only isActive false, and deleting twice is deleting once |
| AdminBooks.DeleteKeepsValid | controllers/admin/bookController.js:217-231 | soft deletion keeps every schema constraint |
| AdminBooks.CreateBook | controllers/admin/bookController.js:76-117 | the reply and the store afterwards are those CreateSpec gives for the store before |
| AdminBooks.UpdateBook | controllers/admin/bookController.js:122-168 | the reply and the store afterwards are those UpdateSpec gives for the store before |
| AdminBooks.UpdateStock | controllers/admin/bookController.js:173-212 | the reply and the store afterwards are those StockSpec gives for the store before |
| AdminBooks.DeleteBook | controllers/admin/bookController.js:217-236 | the reply and the store afterwards are those DeleteSpec gives for the store before |
| Books.GetBooks | controllers/bookController.js:8-37 | status 200 with the page's rows only (no pagination block), at most `limit` (default 10) of them |
| Books.ListingOnSale | controllers/bookController.js:13-26 | every book a customer is shown is active, has stock above 0 and matches the search in its title or author |
| Books.ListingComplete | controllers/bookController.js:13-33 | every active book with stock that matches the search is on some page |
| Books.GetBookDetail | controllers/bookController.js:47-73 | 404 "Buku tidak ditemukan" exactly when no active book has the key; otherwise the book with isStockReady true exactly when stock > 0, and the out-of-stock message exactly when it is false |
| Carts.GetCart | controllers/cartController.js:8-44 | the page lists every line of the user's cart, newest first, each with its book and price x quantity; the total is the cart's value as two-decimal text (the same sum checkout charges); 500 exactly when a line's book is missing |
| Carts.LineFor | controllers/cartController.js:80-85 | the first line of this user and book, and none exactly when there is no such line |
| Carts.OwnLine | controllers/cartController.js:131-136 | a line with this key belonging to this user, and none exactly when there is no such line |
| Carts.AddOutcomes | controllers/cartController.js:50-116 | a missing or zero bookId, a quantity below 1 (default 1), an unknown or inactive book, and too little stock for the quantity or for the merged quantity are each refused with their own reply and change nothing; 201 exactly for a new line within stock |
| Carts.AddMerges | controllers/cartController.js:80-98 | adding a book already in the cart grows that one line by the quantity, stays within the book's stock, and changes nothing else |
| Carts.AddCreates | controllers/cartController.js:101-116 | adding a new book appends one line with the next key and the quantity, within stock, and changes nothing else |
| Carts.AddKeepsValid | controllers/cartController.js:80-106 | adding keeps every schema constraint, in particular one line per (user, book) and quantity >= 1 |
| Carts.AddMergeKeepsValid | controllers/cartController.js:86-97 | growing the existing line of the user for the book keeps every schema constraint |
| Carts.AddMergeState | controllers/cartController.js:86-97 | an accepted addition of a book already in the cart changes only that line, to its quantity plus the added one |
| Carts.AddNewKeepsValid | controllers/cartController.js:100-105 | a first line for the book in the user's cart, with the next key, keeps every schema constraint |
| Carts.AddRejectedUnchanged | controllers/cartController.js:55-91 | a refused addition leaves the database as it was |
| Carts.RemoveEffect | controllers/cartController.js:126-144 | a missing or other user's line gives 404 and no change; otherwise exactly the row with that key goes and every other user's cart is as it was |
| Carts.RemoveKeepsValid | controllers/cartController.js:142 | removing a line keeps every schema constraint |
| Carts.DropLineKeepsValid | controllers/cartController.js:142 | deleting any one cart line keeps every schema constraint |
| Carts.UpdateEffect | controllers/cartController.js:154-187 | 400 for a missing quantity or one below 1, 404 for a line that is not the caller's, 400 exactly when the book's stock is below the quantity; on success only that line's quantity changes, to exactly the one asked for |
| Carts.UpdateKeepsValid | controllers/cartController.js:184-185 | setting a quantity keeps every schema constraint |
| Carts.AddToCart | controllers/cartController.js:50-121 | the reply and the store afterwards are those AddSpec gives for the store before |
| Carts.RemoveFromCart | controllers/cartController.js:126-149 | the reply and the store afterwards are those RemoveSpec gives for the store before |
| Carts.UpdateCartQuantity | controllers/cartController.js:154-192 | the reply and the store afterwards are those UpdateSpec gives for the store before |
| Orders.RandomPart | controllers/orderController.js:11 | `Math.floor(draw * 1000)` is the integer below 1000 within one of draw x 1000 |
| Orders.OrderNumberRoundTrip | controllers/orderController.js:9-13 | an order number "ORD-<timestamp>-<random>" reads back to exactly its timestamp and random part |
| Orders.OrderNumberCollision | controllers/orderController.js:9-13 | two order numbers are equal exactly when their timestamps and random parts are equal |
| Orders.ScanStopped | controllers/orderController.js:44-51 | once the validation loop stops on a prefix of the cart, the whole cart stops with the same reply |
| Orders.Decrement | controllers/orderController.js:86-90 | a stock decrement keeps every book row and key |
| Orders.ScanCart | controllers/orderController.js:41-63 | the validation loop over the cart lines yields the loop's specification: stop at the first line whose book is short (400) or gone (500), else the drafts and the summed total |
| Orders.WriteItems | controllers/orderController.js:76-91 | the second loop appends one item per draft with consecutive keys and decrements each book by its quantity, touching no other table |
| Orders.Checkout | controllers/orderController.js:18-132 | the reply and the new database are those of CheckoutSpec: an empty cart, a short line and a clashing order number roll back; otherwise order, items, stock, cart and payment are written |
| Orders.PlaceOrder | controllers/orderController.js:65-104 | the writes of an accepted checkout, in the controller's order, give `Place` of the old state, and the order returned is the new row |
| Orders.CheckoutPlaces | controllers/orderController.js:65-127 | an accepted cart with a free order number gives 201 "Checkout berhasil" with the order as read back and the placed database |
| Orders.GetOrders | controllers/orderController.js:138-168 | the reply lists exactly the caller's orders (of the status asked for, when one is given), each being the order with exactly its items and payments |
| Orders.GetOrdersNewestFirst | controllers/orderController.js:165 | with orders stored in key order, the listing is newest first: keys strictly decrease along the reply |
| Orders.FindOwnOrder | controllers/orderController.js:183-187 | an order with this key belonging to this user, and none exactly when there is none |
| Orders.GetOrderDetail | controllers/orderController.js:178-209 | 404 "Order tidak ditemukan" exactly when the order is missing or another customer's; otherwise the order with all its items and payments |
| CheckoutFacts.ScanAccepts | controllers/orderController.js:41-63 | the loop accepts the cart exactly when every line's book exists with enough stock; then it has one draft per line, priced from the book, and the total is the cart's value |
| CheckoutFacts.FirstFailureDecides | controllers/orderController.js:44-51 | the first failing line decides the reply: 400 naming the book and its stock, or 500 when the book is gone |
| CheckoutFacts.CheckoutOutcomes | controllers/orderController.js:18-132 | checkout answers 201, 400 or 500; anything but 201 leaves the database as it was; 400 exactly for an empty cart or a line short of stock; 500 exactly for a clashing order number |
| CheckoutFacts.CheckoutShortOfStock | controllers/orderController.js:48-51 | a short line gives 400 with the message naming the first short book and its stock, and no change |
| CheckoutFacts.Succeeded | controllers/orderController.js:44-106 | a 201 means every line passed, the order number was free and the database is `Place` of the loop's drafts |
| CheckoutFacts.CheckoutRecords | controllers/orderController.js:65-104 | a success appends one pending order for the cart's value, one item per cart line at the book's current price, and one pending payment for the same amount; users and sessions unchanged |
| CheckoutFacts.CheckoutStock | controllers/orderController.js:86-90 | a success lowers each book's stock by exactly the quantity of its cart line, changes no other column, and leaves no stock negative |
| CheckoutFacts.CheckoutClearsCart | controllers/orderController.js:94-97 | a success empties this customer's cart and leaves every other customer's cart as it was |
| CheckoutFacts.CheckoutReply | controllers/orderController.js:109-127 | the 201 reply carries the new order with exactly the items (each with its book) and the one payment this checkout created |
| CheckoutFacts.CheckoutKeepsValid | controllers/orderController.js:18-132 | checkout keeps every schema constraint: no stock below zero, unique order numbers, items and payments that reference existing rows |
| CheckoutFacts.MirroredDecrement | controllers/orderController.js:85-90 | decrementing for the accepted cart lowers each book's stock by exactly the cart's quantity of it and leaves every stock non-negative |
| Payments.ParseStatus | controllers/paymentController.js:21-22 | a status is accepted only as the text of one of the three payment statuses |
| Payments.ParseStatusExact | controllers/paymentController.js:21-25 | each of pending, success, failed is accepted as itself, and everything else is refused |
| Payments.PaymentCallback | controllers/paymentController.js:9-72 | the reply and the new database are those of CallbackSpec: the fields are checked, the order and its first payment found, the payment rewritten, then the order's status |
| Payments.CallbackOutcomes | controllers/paymentController.js:15-44 | every reply except 200 leaves the database as it was; 400 exactly for a missing orderId or status or an unknown status; 404 exactly for a missing order or an order without a payment |
| Payments.CallbackWrites | controllers/paymentController.js:46-65 | a success rewrites only the order's first payment (new status; reference and payload only when truthy; a non-string payload stored as its JSON text) and that order's status; every other row and table is untouched |
| Payments.OrderStatusMachine | controllers/paymentController.js:56-65 | success makes the order processing, failed makes it pending, pending leaves the order as it was |
| Payments.NoTransitionGuard | controllers/paymentController.js:46-54 | the payment's earlier status does not matter: an accepted callback gives the same reply and database whatever it was |
| Payments.SameCallback | controllers/paymentController.js:46-54 | a table differing only in the status of the order's first payment gives the same accepted callback reply and database |
| Payments.CallbackIdempotent | controllers/paymentController.js:9-72 | delivering the same callback twice gives the same reply and database as delivering it once |
| Payments.CallbackKeepsValid | controllers/paymentController.js:46-67 | the callback keeps every schema constraint |
| Payments.GetPaymentStatus | controllers/paymentController.js:83-112 | 404 "Order tidak ditemukan" unless the order is the caller's, 404 "Payment tidak ditemukan" when it has no payment; otherwise the order's key and number and its first payment |
| Reports.QueryThenFilter | controllers/admin/reportController.js:47-68 | reading the items of the book within the period and then keeping those whose order's first payment succeeded yields exactly the counted sales |
| Reports.SalesAre | controllers/admin/reportController.js:47-68 | an item is counted for a book exactly when it is a stored item of that book, created inside the period, and the first payment of its order has status success |
| Reports.TotalAppend | controllers/admin/reportController.js:74-77 | the running totals over two runs of items add up |
| Reports.TotalNewest | controllers/admin/reportController.js:157-173 | sorting the items newest first leaves the totals unchanged |
| Reports.Tally | controllers/admin/reportController.js:71-77 | the forEach loop leaves totalSold the sum of the quantities and totalRevenue the sum of the subtotals of the items |
| Reports.ReportsGrow | controllers/admin/reportController.js:42-93 | the reports of one more book are the reports so far followed by that book's report |
| Reports.GetSalesReport | controllers/admin/reportController.js:9-108 | a bookId naming no book gives 404 "Buku tidak ditemukan" and only then; otherwise 200 with one report per chosen book (the named one, or every active book) and the summary of those reports |
| Reports.SummaryAdds | controllers/admin/reportController.js:98-103 | the summary counts the books and its totals equal the quantities and subtotals of every counted item of those books; reading back each report's two-decimal revenue loses nothing |
| Reports.SalesGrow | controllers/admin/reportController.js:47-90 | a new order item changes a book's figures only when it counts for that book, and then by one in orderCount, its quantity in totalSold and its subtotal in revenue |
| Reports.ItemsHaveOrders | models/index.js:11-40 | every stored order item belongs to an existing order, so item.order is always there |
| Reports.LinesOf | controllers/admin/reportController.js:187-194 | one line per counted item showing the order number, quantity, price, subtotal and order date, with the status of the order's first payment |
| Reports.NewestSales | controllers/admin/reportController.js:145-164 | the query sorted newest first and then filtered is the counted sales newest first; each belongs to an existing order whose first payment succeeded, and the totals are those of the unsorted sales |
| Reports.GetBookSalesReport | controllers/admin/reportController.js:118-195 | a missing book gives 404 "Buku tidak ditemukan" and only then; otherwise the same figures as that book's sales-report entry, and one line per counted item, newest first, each with payment status success |
| Transactions.TransactionsOf | controllers/admin/transactionController.js:31-53 | each listed order comes with its customer, items and payments, in the same order |
| Transactions.WithPayment | controllers/admin/transactionController.js:59-66 | the filter keeps exactly the rows whose first payment has the given status, and adds nothing |
| Transactions.GetAllTransactions | controllers/admin/transactionController.js:8-78 | 200 with the requested page (default 1, limit 10) of the orders matching status and period newest first, filtered on the first payment status when one is given; total and totalPages describe all matching orders before that filter |
| Transactions.ShownMatch | controllers/admin/transactionController.js:13-66 | every order shown is a stored order matching the status and the period and, when a paymentStatus is given, whose first payment has that status |
| Transactions.PaymentFilterOnPage | controllers/admin/transactionController.js:59-66 | with a paymentStatus, an order is shown exactly when it is on the unfiltered page and its first payment has that status |
| Transactions.MatchingOnPage | controllers/admin/transactionController.js:31-68 | without a paymentStatus, every matching order is shown on some page between 1 and totalPages |
| Transactions.GetTransactionDetail | controllers/admin/transactionController.js:88-119 | 404 "Transaksi tidak ditemukan" exactly when no order has the id; otherwise that order with all of its items and payments and nothing else, and its customer when the user exists |
| Access.BearerToken | middleware/auth.js:7-8 | no header gives no token; otherwise the second space-separated word of the header, if there is one |
| Access.BearerRoundTrip | middleware/auth.js:7-8 | a header "<scheme> <token>" without further spaces yields exactly the token |
| Access.NoSpaceNoToken | middleware/auth.js:7-12 | a header without a space carries no token |
| Access.LiveSession | middleware/auth.js:18-31 | the session found is a stored session holding the token that is active and expires after now; none is found exactly when no such session exists |
| Access.Authenticate | middleware/auth.js:5-51 | the request proceeds exactly when a token is present, jsonwebtoken accepts it and a live session holds it; it then carries that session and the session's user; a missing token is 401 "Access token tidak ditemukan" |
| Access.NoLiveSessionRefused | middleware/auth.js:33-35 | an accepted token with no active, unexpired session gets 401 "Token tidak valid atau sudah expired" |
| Access.JwtErrors | middleware/auth.js:42-50 | JsonWebTokenError and TokenExpiredError are 401 with their own messages; any other error is 500 "Error saat autentikasi" |
| Access.Authorize | middleware/auth.js:54-67 | the request proceeds exactly when there is a user whose role is listed; no user is 401 "Unauthorized", an unlisted role is 403 "Akses ditolak. Role tidak sesuai" |
| Access.GuardedRoute | middleware/auth.js:5-67 | authentication followed by authorization admits a request exactly when a live session holds its token and belongs to an existing user whose role is listed |
| Auth.Moved | controllers/authController.js:21-25 | moving the date by a parsed count succeeds exactly when both are valid, and shifts it by count times the unit |
| Auth.GetTokenExpiry | controllers/authController.js:16-31 | the date starts at now and is moved once, as the JWT_EXPIRES_IN setting (default "1h") says |
| Auth.ExpiryInHours | controllers/authController.js:20-22 | a setting of n followed by a unit containing 'h' gives now plus n hours |
| Auth.ExpiryInMinutes | controllers/authController.js:23-25 | a setting of n followed by a unit containing 'm' but no 'h' gives now plus n minutes |
| Auth.NumeralWithUnit | controllers/authController.js:20-24 | parseInt reads n from n followed by a unit, and the 'h' and 'm' tests see exactly the unit's letters |
| Auth.ExpiryCase | controllers/authController.js:20-28 | a setting with 'h' adds its number in hours; one with 'm' and no 'h' adds it in minutes |
| Auth.ExpiryDefault | controllers/authController.js:17 | an absent or empty JWT_EXPIRES_IN gives one hour |
| Auth.ExpiryOtherUnit | controllers/authController.js:26-28 | a setting with neither 'h' nor 'm' gives one hour whatever its number |
| Auth.FindByEmail | controllers/authController.js:43 | no user is found exactly when none has that email; a user found is a stored user with that email |
| Auth.Deactivated | controllers/authController.js:57-65 | every active session the filter selects becomes inactive; every other row stays as it was |
| Auth.Login | controllers/authController.js:33-95 | the store after login and the reply are those LoginSpec gives for the store before, with the expiry from JWT_EXPIRES_IN at now |
| Auth.MissingCredentials | controllers/authController.js:38-40 | the reply is 400 "Email dan password harus diisi" exactly when email or password is missing or empty, and then nothing changes |
| Auth.SameRejection | controllers/authController.js:42-54 | an unknown email and a wrong password get the same 401 "Email atau password salah" and change nothing |
| Auth.FirstByEmail | controllers/authController.js:43 | the user found is the first one with that email |
| Auth.LoginSucceeds | controllers/authController.js:33-90 | login replies 200 exactly when credentials are given, the user exists, the password matches, a token and an expiry are made and the token is new; the reply carries "Login berhasil", the token, the expiry and the user |
| Auth.SingleActiveSession | controllers/authController.js:56-79 | after a successful login the user's only active session is the new last row, holding the token, the expiry and the user-agent or "Unknown Device"; the user's earlier sessions are inactive, other users' sessions and other tables unchanged |
| Auth.LateFailure | controllers/authController.js:56-94 | a failure after the password check is 500 "Error saat login", adds no session, and leaves the user's earlier sessions deactivated |
| Auth.DeactivatedKeepsValid | controllers/authController.js:57-65 | deactivating sessions keeps every schema constraint |
| Auth.LoginKeepsValid | controllers/authController.js:33-95 | login keeps every schema constraint, the unique token included |
| Auth.LoginThenAuthenticate | controllers/authController.js:68-79 | the new token, presented as "Bearer <token>" before its expiry, authenticates as that user with the new session |
| Auth.LastLive | middleware/auth.js:18-24 | a live session added after rows that all hold other tokens is the session the token finds |
| Auth.OldSessionsEnded | controllers/authController.js:56-65 | after a login, no earlier token of the user authenticates |
| Auth.Logout | controllers/authController.js:97-118 | the store after logout and the reply are those LogoutSpec gives for the store before |
| Auth.LogoutEndsOnlyThatSession | controllers/authController.js:97-113 | logout always replies 200 "Logout berhasil"; it ends only the active session holding the presented token, and without a token changes nothing |
| Auth.LogoutThenRefused | controllers/authController.js:99-111 | after logout the presented token no longer authenticates |
| Auth.LogoutKeepsValid | controllers/authController.js:97-113 | logout keeps every schema constraint |
| Logging.Truncate | middleware/responseLogger.js:44 | text within the limit is kept; longer text becomes its first limit characters followed by "..." |
| Logging.TruncateKeepsPrefix | middleware/responseLogger.js:44 | the result is at most three characters over the limit, is within the limit exactly when the input is, and starts with the input's first limit characters |
| Logging.FirstOf | middleware/responseLogger.js:34-35 | the first non-empty of the two strings, or none |
| Logging.FirstNumber | middleware/errorLogger.js:11 | the first of the two that is present and non-zero, otherwise the fallback |
| Logging.SerializeBody | middleware/responseLogger.js:39-48 | a body is logged exactly when it has keys; the logged text is the placeholder when the body cannot be serialised, the whole text when it is at most 5000 characters, and otherwise its first 5000 characters followed by "..." |
| Logging.BodyLogged | middleware/responseLogger.js:39-48 | a body is logged exactly when it has keys; the text is the placeholder when it cannot be serialised, the serialised body when it fits in 5000 characters, and otherwise its first 5000 characters and "...", never longer than 5003 |
| Logging.Without | middleware/responseLogger.js:55-57 | deleting a header leaves no entry with that name and never more entries |
| Logging.WithoutKeeps | middleware/responseLogger.js:55-57 | deleting a header keeps every entry of another name and adds none |
| Logging.RedactedAppend | middleware/responseLogger.js:53-57 | redacting a concatenation redacts each part |
| Logging.RedactedOne | middleware/responseLogger.js:53-57 | a single header survives redaction exactly when its name is not sensitive |
| Logging.RedactedOmitsSensitive | middleware/responseLogger.js:53-57 | the three deletes leave the headers without authorization, cookie and x-api-key, in one pass |
| Logging.RedactionDropsCredentials | middleware/responseLogger.js:53-57 | the redacted headers are exactly the request's headers that are not sensitive |
| Logging.SerializeHeaders | middleware/responseLogger.js:50-63 | the logged headers are the ones the headers rule gives |
| Logging.HeadersLogged | middleware/responseLogger.js:50-63 | the logged headers are the text of the headers without credentials, whole when it fits in 2000 characters, else its first 2000 and "...", or the placeholder when they cannot be serialised |
| Logging.RecordOfRequest | middleware/responseLogger.js:31-36 | the record names the user's id only with a user, the method when there is one, the original URL before the mounted one, and the client address |
| Logging.ReplyMessage | middleware/responseLogger.js:28 | the logged message is never empty: the reply's message, else its error, else "HTTP <code> Error" |
| Logging.ReplyStack | middleware/responseLogger.js:29 | a stack is logged exactly when the reply carries a stack or an error text |
| Logging.ErrorReplyRecord | middleware/responseLogger.js:24-80 | a reply of the error helper logs its status and message, no stack outside development, and in development the thrown error's stack or the thrown value |
| Logging.StopReplyRecord | middleware/responseLogger.js:28 | 401, 403 and 400 replies log their message, with "Unauthorized", "Forbidden" and "Validation error" by default |
| Logging.ResponseLogger.constructor | middleware/responseLogger.js:13 | the tracked status starts as the response's status, or 200 when there is none; nothing logged or sent |
| Logging.ResponseLogger.Status | middleware/responseLogger.js:16-19 | setting a status sets both the tracked and the response status, and nothing else |
| Logging.ResponseLogger.Json | middleware/responseLogger.js:22-85 | the payload is sent unchanged; a record of the request and the reply is added exactly when the tracked status is at least 400 |
| Logging.ResponseLogger.Reply | middleware/responseLogger.js:16-85 | a helper reply sets the status and sends its body, logging it exactly when that status is at least 400 |
| Logging.FailureMessage | middleware/errorLogger.js:9 | the error's message when non-empty, otherwise its text |
| Logging.FailureStatus | middleware/errorLogger.js:11 | the logged status is never zero: the error's status, else its statusCode, else 500 |
| Logging.ErrorLogger | middleware/errorLogger.js:6-70 | the error is always passed on unchanged; a record is made exactly when there is an error, with its message, stack and status and the request's fields |
| Logging.SameRequestFields | middleware/errorLogger.js:14-62 | for the same request both loggers record the same user, method, URL, body, headers, address and agent |

## Left out

- Concurrency and transaction isolation are out of scope, because the model is sequential:
  - the check-then-decrement race between two checkouts of the same book (controllers/orderController.js:48 and :86) is not represented;
  - every operation runs atomically on one database value.
- Floating point: prices, subtotals and revenues are exact integer cents:
  - `parseFloat` and `toFixed(2)` are exact on them;
  - binary rounding of float sums is not modelled.
- Orderings by `createdAt DESC` are modelled as reverse key order, because rows are created in key order. Rows that share a timestamp, or timestamps that disagree with key order, are not modelled.
- Request bodies are modelled as typed values: a number field is an integer or absent, and a JSON `null` is treated like an absent field. So the model does not capture:
  - `quantity: null` in `addToCart`, which the source's `= 1` default does not replace and which then fails the `quantity < 1` check (controllers/cartController.js:53, :59);
  - `price: null` in `createBook`, which passes the `price === undefined || price < 0` check and is stored as `parseFloat(null)` (controllers/admin/bookController.js:85, :106);
  - numbers sent as strings, which `existingCart.quantity + quantity` concatenates (controllers/cartController.js:88).
- Sequelize `Op.like '%s%'` is a case-sensitive substring test, because collation and case folding depend on the database.
- Attribute projections (`attributes: [...]`) are not modelled: the full rows are returned, the book under each order item included.
- Column ranges are not modelled, because numbers are unbounded integers: stock is an INTEGER column (models/Book.js:33), at most 2^31-1, and prices and order and payment totals are DECIMAL(10,2) (models/Book.js:28, models/Order.js:25, models/Payment.js:24), at most 99,999,999.99. Past these limits the database refuses the write and the source replies 500, where the model replies with success: AdminBooks.StockSpec for an `add` past the INTEGER range, AdminBooks.CreateSpec and AdminBooks.UpdateSpec for a price or stock out of range, and Orders.CheckoutSpec for a cart worth more than the DECIMAL column holds.
- `findAndCountAll` with includes may count joined rows in some dialects. The model counts orders and books.
- Pagination parameters are modelled only for page and limit of at least 1 (a precondition), because other values depend on the SQL dialect's handling of negative or zero LIMIT/OFFSET and NaN.
- Date query parameters (`new Date(startDate)`) are already-parsed millisecond bounds. Invalid date strings are not modelled.
- `setHours` and `setMinutes` are plain millisecond arithmetic, because time zones, daylight-saving shifts and the Date range are not modelled.
- The catch blocks' 500 replies are modelled where a step can fail in the model:
  - the duplicate order number;
  - the duplicate session token;
  - a failing `jwt.sign`;
  - an invalid expiry.

  Database errors that cannot occur on a valid in-memory value are not modelled, and a catch block's reply is a `Responses.ServerError` without the thrown error's detail.
- `generateToken` (controllers/authController.js:7-14) is `jwt.sign` and is not modelled: its result is a parameter of login.
- `getProfile` (controllers/authController.js:120-131) is not modelled: it only reads a user by key.
- Cascading deletes (models/Cart.js:17, 26; models/Payment.js:10-18) are not modelled, because no operation of the core deletes a user, book or order; book deletion is a soft delete.
- User and OrderItem definitions are not part of this model beyond the fields the controllers use.
- Defaults the database fills in are written out by the operations that rely on them:
  - the order status `pending`;
  - book `isActive` true;
  - session `isActive` true.
- Reports.GetSalesReport and Reports.GetBookSalesReport require every order item to belong to a stored order, because the source dereferences `item.order` without a check; the order-item foreign key guarantees it in a valid database.
- `console` logging is I/O and not modelled.
- The fire-and-forget `ErrorLog.create` is not modelled: the loggers' result is the record they would store. Whether the database accepts it and its column lengths are not modelled.
- Logging.Truncate: lengths count Dafny characters, where JavaScript counts UTF-16 code units; the two agree on text without surrogate pairs.
- Logging.ErrorLogger: a thrown value is modelled with the properties the logger reads. A thrown null or undefined is modelled as no error, whose record is not built.
- `req.connection` is assumed to be present: the loggers read `req.connection.remoteAddress` without a check.
- The rate limiter, routes, API documentation, server start-up, migrations and seeders are application wiring with no logic of the core.
