/** The database as mutable state: one field per table and the auto-increment counters.
    The controllers that write (checkout, cart, catalogue, payment callback, login, logout)
    change these fields step by step; `State()` is the value the specifications talk about. */
module Store {
  import opened Schema

  class Database {
    var users: Table<User>
    var books: Table<Book>
    var carts: Table<CartLine>
    var orders: Table<Order>
    var items: Table<OrderItem>
    var payments: Table<Payment>
    var sessions: Table<Session>
    var next: Counters

    function State(): Db
      reads this
    {
      Db(users, books, carts, orders, items, payments, sessions, next)
    }

    constructor (db: Db)
      ensures State() == db
    {
      users, books, carts, orders := db.users, db.books, db.carts, db.orders;
      items, payments, sessions, next := db.items, db.payments, db.sessions, db.next;
    }
  }
}
