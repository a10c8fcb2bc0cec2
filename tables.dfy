/**
 * The rows of the relational store the routes work on, and one `Db` object
 * holding every table the restock pipeline, the notification routes and the
 * admin routes read or write. Each SQL statement of the routes becomes an
 * assignment to one of these fields.
 */
module Tables {

  datatype Option<T> = None | Some(value: T)

  /** `shopkeepers.verification_status`. */
  datatype Verification = Pending | Approved | Rejected
  {
    /** The string stored in the column and compared against the `status` query parameter. */
    function Name(): string
    {
      match this
      case Pending => "pending"
      case Approved => "approved"
      case Rejected => "rejected"
    }
  }

  /** A `products` row; the id is the key of `Db.products`. Prices are whole paise. */
  datatype Product = Product(
    shopkeeperId: int, name: string, description: string,
    price: int, stock: int, category: string, image: Option<string>)

  /** The columns of a `customers` row the fan-out reads. */
  datatype Customer = Customer(email: string, name: string)

  /** The columns of a `shopkeepers` row the verification workflow reads or writes. */
  datatype Shopkeeper = Shopkeeper(
    id: int, name: string, shopName: string, status: Verification,
    verifiedBy: Option<int>, verifiedAt: Option<int>, rejectionReason: Option<string>)

  /** A `product_notifications` row: one customer's interest in one product. */
  datatype Subscription = Subscription(
    id: int, customerId: int, productId: int,
    notified: bool, notifiedAt: Option<int>, createdAt: int)

  /** A `notifications` row; `userId` only means something together with `userRole`. */
  datatype Notification = Notification(
    id: int, userId: int, userRole: string, kind: string, title: string,
    message: string, link: Option<string>, isRead: bool, createdAt: int)

  /** One call of the mail service's "product available" sender. */
  datatype Email = Email(
    to: string, name: string, productName: string, price: int, stock: int, link: string)

  /** The status code and `message` of a route's JSON reply. */
  datatype Response = Response(status: nat, message: string)

  /** A read route's reply: a JSON body, or an error status with its message. */
  datatype Result<T> = Ok(value: T) | Err(status: nat, message: string)

  /** `SELECT ... FROM products WHERE id = ?`: the row, if there is one. */
  function LookupProduct(products: map<int, Product>, id: int): (r: Option<Product>)
    ensures r.Some? <==> id in products
    ensures r.Some? ==> r.value == products[id]
  {
    if id in products then Some(products[id]) else None
  }

  /** `SELECT ... FROM shopkeepers WHERE id = ?`, first row: the first shopkeeper row with that id. */
  function FindShopkeeper(rows: seq<Shopkeeper>, id: int): (r: Option<Shopkeeper>)
    ensures r.None? <==> forall i :: 0 <= i < |rows| ==> rows[i].id != id
    ensures r.Some? ==> exists i :: (0 <= i < |rows| && rows[i] == r.value && r.value.id == id
                                     && forall j :: 0 <= j < i ==> rows[j].id != id)
  {
    if rows == [] then None
    else if rows[0].id == id then Some(rows[0])
    else
      var r := FindShopkeeper(rows[1..], id);
      if r.Some? then
        var i :| (0 <= i < |rows[1..]| && rows[1..][i] == r.value && r.value.id == id
                  && forall j :: 0 <= j < i ==> rows[1..][j].id != id);
        assert rows[i + 1] == r.value;
        assert forall j :: 0 <= j < i + 1 ==> rows[j].id != id by {
          forall j | 0 <= j < i + 1 ensures rows[j].id != id {
            if j > 0 { assert rows[j] == rows[1..][j - 1]; }
          }
        }
        r
      else
        assert forall i :: 0 <= i < |rows| ==> rows[i].id != id by {
          forall i | 0 <= i < |rows| ensures rows[i].id != id {
            if i > 0 { assert rows[i] == rows[1..][i - 1]; }
          }
        }
        r
  }

  /** The ids of a table whose ids come from an auto-increment counter. */
  ghost predicate AllocatedIds(ids: seq<int>, next: int)
  {
    && (forall i, j :: 0 <= i < j < |ids| ==> ids[i] < ids[j])
    && (forall i :: 0 <= i < |ids| ==> ids[i] < next)
  }

  /** The id column of a table, in row order. */
  function Ids<T>(rows: seq<T>, id: T -> int): (ids: seq<int>)
    ensures |ids| == |rows|
    ensures forall i :: 0 <= i < |rows| ==> ids[i] == id(rows[i])
  {
    seq(|rows|, i requires 0 <= i < |rows| => id(rows[i]))
  }

  function SubscriptionId(s: Subscription): int
  {
    s.id
  }

  function NotificationId(n: Notification): int
  {
    n.id
  }

  function SubscriptionIds(rows: seq<Subscription>): seq<int>
  {
    Ids(rows, SubscriptionId)
  }

  function NotificationIds(rows: seq<Notification>): seq<int>
  {
    Ids(rows, NotificationId)
  }

  class Db {
    var products: map<int, Product>
    var nextProductId: int
    var customers: map<int, Customer>
    var shopkeepers: seq<Shopkeeper>
    var subscriptions: seq<Subscription>
    var nextSubscriptionId: int
    var notifications: seq<Notification>
    var nextNotificationId: int
    /** Every email handed to the mail transport, in order. */
    var outbox: seq<Email>

    /** Auto-increment ids are unique, increase with insertion order and stay below the counter. */
    ghost predicate Valid()
      reads this
    {
      && AllocatedIds(SubscriptionIds(subscriptions), nextSubscriptionId)
      && AllocatedIds(NotificationIds(notifications), nextNotificationId)
      && (forall id :: id in products ==> id < nextProductId)
    }

    constructor (customers: map<int, Customer>, shopkeepers: seq<Shopkeeper>)
      ensures Valid()
      ensures this.customers == customers && this.shopkeepers == shopkeepers
      ensures products == map[] && subscriptions == [] && notifications == [] && outbox == []
    {
      this.customers := customers;
      this.shopkeepers := shopkeepers;
      products := map[];
      nextProductId := 1;
      subscriptions := [];
      nextSubscriptionId := 1;
      notifications := [];
      nextNotificationId := 1;
      outbox := [];
    }
  }
}
