/**
 * The product write routes of `backend/routes/products_temp.js`: the add
 * route's verification gate, the update route with its back-in-stock
 * fan-out to subscribers, and delete.
 */
module ProductRoutes {
  import opened Tables
  import opened Text
  import NotificationRoutes

  // ---------------------------------------------------------------------------
  // POST /add

  /**
   * The multipart form of the add route. Form fields are text, so a numeric
   * field is missing only when absent or empty (`None`); "0" is truthy.
   */
  datatype AddRequest = AddRequest(
    shopkeeperId: Option<int>, name: Option<string>, description: string,
    price: Option<int>, stock: Option<int>, category: Option<string>, image: Option<string>)

  predicate MissingFields(req: AddRequest)
  {
    req.shopkeeperId.None? || NotificationRoutes.MissingText(req.name) || req.price.None?
    || req.stock.None? || NotificationRoutes.MissingText(req.category)
  }

  /** What the add route decides before writing: insert, or refuse with a status (and, for 403, the shopkeeper's status). */
  datatype AddDecision = Insert | Refuse(status: nat, message: string, verification: Option<Verification>)

  /** The shopkeeper the request names is on record and approved. */
  predicate ApprovedShopkeeper(shopkeepers: seq<Shopkeeper>, id: int)
  {
    var sk := FindShopkeeper(shopkeepers, id);
    sk.Some? && sk.value.status == Approved
  }

  function AddGate(req: AddRequest, shopkeepers: seq<Shopkeeper>): (d: AddDecision)
    ensures d.Insert? <==> !MissingFields(req) && ApprovedShopkeeper(shopkeepers, req.shopkeeperId.value)
    ensures MissingFields(req) ==> d == Refuse(400, "Missing fields", None)
    ensures !MissingFields(req) && (forall i :: 0 <= i < |shopkeepers| ==> shopkeepers[i].id != req.shopkeeperId.value)
            ==> d == Refuse(404, "Shopkeeper not found", None)
    ensures d.Refuse? && d.status == 403 ==>
              exists i :: (0 <= i < |shopkeepers| && shopkeepers[i].id == req.shopkeeperId.value
                           && shopkeepers[i].status != Approved && d.verification == Some(shopkeepers[i].status))
    ensures d.Refuse? ==> d.status in {400, 403, 404}
  {
    if MissingFields(req) then Refuse(400, "Missing fields", None)
    else
      var sk := FindShopkeeper(shopkeepers, req.shopkeeperId.value);
      if sk.None? then Refuse(404, "Shopkeeper not found", None)
      else if sk.value.status != Approved then
        Refuse(403, "Your account must be verified by admin before adding products", Some(sk.value.status))
      else Insert
  }

  /** The row the insert writes; the image path is present only when a file was uploaded. */
  function NewProduct(req: AddRequest): Product
    requires !MissingFields(req)
  {
    Product(req.shopkeeperId.value, req.name.value, req.description, req.price.value,
            req.stock.value, req.category.value, req.image)
  }

  method AddProduct(db: Db, req: AddRequest) returns (resp: Response, verification: Option<Verification>)
    requires db.Valid()
    modifies db`products, db`nextProductId
    ensures db.Valid()
    ensures var d := AddGate(req, db.shopkeepers);
      if d.Insert? then
        && db.products == old(db.products)[old(db.nextProductId) := NewProduct(req)]
        && db.nextProductId == old(db.nextProductId) + 1
        && resp == Response(200, "Product added successfully") && verification.None?
      else
        && db.products == old(db.products) && db.nextProductId == old(db.nextProductId)
        && resp == Response(d.status, d.message) && verification == d.verification
  {
    var d := AddGate(req, db.shopkeepers);
    if d.Refuse? {
      return Response(d.status, d.message), d.verification;
    }
    db.products := db.products[db.nextProductId := NewProduct(req)];
    db.nextProductId := db.nextProductId + 1;
    resp, verification := Response(200, "Product added successfully"), None;
  }

  /** A refused request leaves the product table as it was; an accepted one adds exactly one row, owned by an approved shopkeeper. */
  lemma {:induction false} AddOnlyForApproved(products: map<int, Product>, next: int, req: AddRequest, shopkeepers: seq<Shopkeeper>)
    requires forall id :: id in products ==> id < next
    ensures AddGate(req, shopkeepers).Insert? ==>
      && next !in products
      && |products[next := NewProduct(req)].Keys| == |products.Keys| + 1
      && ApprovedShopkeeper(shopkeepers, products[next := NewProduct(req)][next].shopkeeperId)
  {
    if AddGate(req, shopkeepers).Insert? {
      assert products[next := NewProduct(req)].Keys == products.Keys + {next};
    }
  }

  // ---------------------------------------------------------------------------
  // PUT /:id

  /** The form of the update route; `image` is the stored path of an uploaded file, if any. */
  datatype UpdateRequest = UpdateRequest(
    name: string, description: string, price: int, stock: int, category: string, image: Option<string>)

  /** `oldProduct[0]?.stock || 0`: a missing row reads as stock 0. */
  function OldStock(row: Option<Product>): (s: int)
    ensures row.None? ==> s == 0
    ensures row.Some? ==> s == row.value.stock
  {
    if row.Some? then row.value.stock else 0
  }

  /** The back-in-stock trigger: the stock read before the write is exactly 0 and the new one positive. */
  predicate IsRestock(row: Option<Product>, newStock: int)
  {
    OldStock(row) == 0 && newStock > 0
  }

  /** `oldProduct[0]?.name || name`: the stored name, unless the row is missing or its name empty. */
  function NoticeName(row: Option<Product>, submitted: string): (n: string)
    ensures row.Some? && row.value.name != "" ==> n == row.value.name
    ensures row.None? || row.value.name == "" ==> n == submitted
  {
    if row.Some? && row.value.name != "" then row.value.name else submitted
  }

  /** `UPDATE products SET ... WHERE id = ?`: only row `id` changes, and only if it exists. */
  function ApplyUpdate(products: map<int, Product>, id: int, req: UpdateRequest): (r: map<int, Product>)
    ensures r.Keys == products.Keys
    ensures forall k :: k in products && k != id ==> r[k] == products[k]
    ensures id in products ==>
      && r[id].shopkeeperId == products[id].shopkeeperId
      && r[id].name == req.name && r[id].description == req.description && r[id].price == req.price
      && r[id].stock == req.stock && r[id].category == req.category
      && r[id].image == (if req.image.Some? then req.image else products[id].image)
  {
    if id in products then
      var p := products[id];
      products[id := Product(p.shopkeeperId, req.name, req.description, req.price, req.stock, req.category,
                             if req.image.Some? then req.image else p.image)]
    else products
  }

  /** `SELECT customer_id FROM product_notifications WHERE product_id = ? AND notified = FALSE`, in table order. */
  function Unnotified(rows: seq<Subscription>, productId: int): (r: seq<Subscription>)
    ensures |r| <= |rows|
  {
    if rows == [] then []
    else if rows[0].productId == productId && !rows[0].notified then [rows[0]] + Unnotified(rows[1..], productId)
    else Unnotified(rows[1..], productId)
  }

  lemma {:induction false} UnnotifiedMembers(rows: seq<Subscription>, productId: int, x: Subscription)
    ensures x in Unnotified(rows, productId) <==> x in rows && x.productId == productId && !x.notified
  {
    if rows != [] {
      UnnotifiedMembers(rows[1..], productId, x);
      assert rows == [rows[0]] + rows[1..];
    }
  }

  /** Subscribers of one product, each at most once, give distinct customers. */
  lemma {:induction false} UnnotifiedDistinctCustomers(rows: seq<Subscription>, productId: int)
    requires NotificationRoutes.UniquePairs(rows)
    ensures forall i, j :: 0 <= i < j < |Unnotified(rows, productId)| ==>
      Unnotified(rows, productId)[i].customerId != Unnotified(rows, productId)[j].customerId
  {
    if rows != [] {
      UniquePairsTail(rows);
      UnnotifiedDistinctCustomers(rows[1..], productId);
      if rows[0].productId == productId && !rows[0].notified {
        HeadNotSelectedAgain(rows, productId);
        ConsDistinctCustomers(rows[0], Unnotified(rows[1..], productId));
      }
    }
  }

  lemma {:induction false} UniquePairsTail(rows: seq<Subscription>)
    requires rows != [] && NotificationRoutes.UniquePairs(rows)
    ensures NotificationRoutes.UniquePairs(rows[1..])
  {
    forall i, j | 0 <= i < j < |rows[1..]|
      ensures !NotificationRoutes.SamePair(rows[1..][j], rows[1..][i].customerId, rows[1..][i].productId)
    {
      assert rows[1..][i] == rows[i + 1] && rows[1..][j] == rows[j + 1];
    }
  }

  /** Under unique pairs, the first row's customer is not selected again from the rest. */
  lemma {:induction false} HeadNotSelectedAgain(rows: seq<Subscription>, productId: int)
    requires rows != [] && NotificationRoutes.UniquePairs(rows) && rows[0].productId == productId
    ensures forall k :: 0 <= k < |Unnotified(rows[1..], productId)| ==>
      Unnotified(rows[1..], productId)[k].customerId != rows[0].customerId
  {
    var rest := Unnotified(rows[1..], productId);
    forall k | 0 <= k < |rest| ensures rest[k].customerId != rows[0].customerId {
      UnnotifiedMembers(rows[1..], productId, rest[k]);
      var m :| 0 <= m < |rows[1..]| && rows[1..][m] == rest[k];
      assert rows[m + 1] == rest[k];
      assert !NotificationRoutes.SamePair(rows[m + 1], rows[0].customerId, rows[0].productId);
    }
  }

  lemma {:induction false} ConsDistinctCustomers(x: Subscription, rest: seq<Subscription>)
    requires forall i, j :: 0 <= i < j < |rest| ==> rest[i].customerId != rest[j].customerId
    requires forall k :: 0 <= k < |rest| ==> rest[k].customerId != x.customerId
    ensures forall i, j :: 0 <= i < j < |[x] + rest| ==> ([x] + rest)[i].customerId != ([x] + rest)[j].customerId
  {
    var sel := [x] + rest;
    forall i, j | 0 <= i < j < |sel| ensures sel[i].customerId != sel[j].customerId {
      if i == 0 {
        assert sel[j] == rest[j - 1];
      } else {
        assert sel[i] == rest[i - 1] && sel[j] == rest[j - 1];
      }
    }
  }

  /** `UPDATE product_notifications SET notified = TRUE, notified_at = NOW() WHERE product_id = ? AND notified = FALSE`. */
  function MarkNotified(rows: seq<Subscription>, productId: int, now: int): (r: seq<Subscription>)
    ensures |r| == |rows|
  {
    seq(|rows|, i requires 0 <= i < |rows| =>
      if rows[i].productId == productId && !rows[i].notified
      then rows[i].(notified := true, notifiedAt := Some(now))
      else rows[i])
  }

  /** The bulk mark touches exactly the unnotified rows of the product, and nothing but their two flag columns. */
  lemma {:induction false} MarkNotifiedOnlyTargets(rows: seq<Subscription>, productId: int, now: int, i: int)
    requires 0 <= i < |rows|
    ensures rows[i].productId != productId || rows[i].notified ==> MarkNotified(rows, productId, now)[i] == rows[i]
    ensures rows[i].productId == productId && !rows[i].notified ==>
      && MarkNotified(rows, productId, now)[i].notified
      && MarkNotified(rows, productId, now)[i].notifiedAt == Some(now)
      && MarkNotified(rows, productId, now)[i].(notified := false, notifiedAt := rows[i].notifiedAt) == rows[i]
  {
  }

  /** After the bulk mark, a second restock of the product selects nobody. */
  lemma {:induction false} SecondRestockSelectsNothing(rows: seq<Subscription>, productId: int, now: int)
    ensures Unnotified(MarkNotified(rows, productId, now), productId) == []
  {
    var marked := MarkNotified(rows, productId, now);
    var sel := Unnotified(marked, productId);
    if sel != [] {
      UnnotifiedMembers(marked, productId, sel[0]);
      assert false;
    }
  }

  /** Marking twice is marking once, whatever the second timestamp. */
  lemma {:induction false} MarkNotifiedIdempotent(rows: seq<Subscription>, productId: int, now: int, later: int)
    ensures MarkNotified(MarkNotified(rows, productId, now), productId, later) == MarkNotified(rows, productId, now)
  {
  }

  /** With no unnotified row for the product, the bulk mark changes nothing. */
  lemma {:induction false} MarkNotifiedNoop(rows: seq<Subscription>, productId: int, now: int)
    requires Unnotified(rows, productId) == []
    ensures MarkNotified(rows, productId, now) == rows
  {
    forall i | 0 <= i < |rows| ensures MarkNotified(rows, productId, now)[i] == rows[i] {
      UnnotifiedMembers(rows, productId, rows[i]);
    }
  }

  function NotifiedCount(rows: seq<Subscription>): nat
  {
    if rows == [] then 0 else (if rows[0].notified then 1 else 0) + NotifiedCount(rows[1..])
  }

  /** The bulk mark flips exactly as many rows as the selection held. */
  lemma {:induction false} MarkNotifiedCount(rows: seq<Subscription>, productId: int, now: int)
    ensures NotifiedCount(MarkNotified(rows, productId, now)) == NotifiedCount(rows) + |Unnotified(rows, productId)|
  {
    if rows != [] {
      MarkNotifiedCount(rows[1..], productId, now);
      assert MarkNotified(rows, productId, now)[1..] == MarkNotified(rows[1..], productId, now);
    }
  }

  /**
   * The bulk mark re-evaluates its filter when it runs, so a subscription
   * written after the selection (and so never notified) is marked as well.
   */
  lemma {:induction false} LateSubscriptionIsMarked(rows: seq<Subscription>, late: Subscription, productId: int, now: int)
    requires late.productId == productId && !late.notified
    requires late !in rows
    ensures late !in Unnotified(rows, productId)
    ensures MarkNotified(rows + [late], productId, now)[|rows|].notified
  {
    UnnotifiedMembers(rows, productId, late);
  }

  const RestockTitle: string := "Product Back in Stock! \U{1F389}"

  function RestockMessage(name: string, stock: int): string
  {
    name + " is now available with " + IntToString(stock) + " units in stock"
  }

  /** The in-app link, relative to the front end. */
  function ProductPath(productId: int): string
  {
    "/product/" + IntToString(productId)
  }

  /** The absolute link the email carries. */
  function ProductLink(productId: int): string
  {
    "http://localhost:5173/product/" + IntToString(productId)
  }

  /** The message names the product and the new stock, in that order. */
  lemma {:induction false} RestockMessageMentions(name: string, stock: int)
    ensures StartsWith(RestockMessage(name, stock), name)
    ensures Contains(RestockMessage(name, stock), IntToString(stock))
  {
    var m := RestockMessage(name, stock);
    var at := |name| + |" is now available with "|;
    assert m[at..at + |IntToString(stock)|] == IntToString(stock);
    assert OccursAt(m, IntToString(stock), at);
    ContainsIffOccurs(m, IntToString(stock));
  }

  /** The in-app notification row inserted for one subscriber. */
  function RestockNotice(customerId: int, id: int, name: string, stock: int, productId: int, now: int): Notification
  {
    NotificationRoutes.NewNotification(id, customerId, "customer", "product_available",
      RestockTitle, RestockMessage(name, stock), Some(ProductPath(productId)), now)
  }

  /** The notification rows the loop inserts for the subscribers `subs`, ids allocated from `firstId`. */
  function RestockNotices(subs: seq<Subscription>, firstId: int, name: string, stock: int, productId: int, now: int)
    : (r: seq<Notification>)
    ensures |r| == |subs|
  {
    seq(|subs|, k requires 0 <= k < |subs| => RestockNotice(subs[k].customerId, firstId + k, name, stock, productId, now))
  }

  /** Each selected subscriber gets one unread customer notification carrying the restock title, message and link. */
  lemma {:induction false} RestockNoticeContents(subs: seq<Subscription>, firstId: int, name: string, stock: int, productId: int, now: int, k: int)
    requires 0 <= k < |subs|
    ensures var n := RestockNotices(subs, firstId, name, stock, productId, now)[k];
      && n.userId == subs[k].customerId && n.userRole == "customer" && n.kind == "product_available"
      && n.title == RestockTitle && n.link == Some(ProductPath(productId)) && !n.isRead
      && StartsWith(n.message, name) && Contains(n.message, IntToString(stock))
  {
    var id := firstId + k;
    assert RestockNotices(subs, firstId, name, stock, productId, now)[k]
        == RestockNotice(subs[k].customerId, id, name, stock, productId, now);
    RestockNoticeFields(subs[k].customerId, id, name, stock, productId, now);
  }

  lemma {:induction false} RestockNoticeFields(customerId: int, id: int, name: string, stock: int, productId: int, now: int)
    ensures var n := RestockNotice(customerId, id, name, stock, productId, now);
      && n.userId == customerId && n.userRole == "customer" && n.kind == "product_available"
      && n.title == RestockTitle && n.link == Some(ProductPath(productId)) && !n.isRead
      && StartsWith(n.message, name) && Contains(n.message, IntToString(stock))
  {
    RestockMessageMentions(name, stock);
  }

  /** The k-th notification of a fan-out goes to the k-th selected subscriber. */
  lemma {:induction false} RestockNoticeRecipients(subs: seq<Subscription>, firstId: int, name: string, stock: int, productId: int, now: int)
    ensures var notices := RestockNotices(subs, firstId, name, stock, productId, now);
      forall k :: 0 <= k < |subs| ==> notices[k].userId == subs[k].customerId
  {
  }

  /** Under unique (customer, product) pairs, a customer appears once in the selection exactly when they have an unnotified subscription. */
  lemma {:induction false} SelectedOnce(rows: seq<Subscription>, productId: int, c: int)
    requires NotificationRoutes.UniquePairs(rows)
    ensures var sel := Unnotified(rows, productId);
      (exists i :: 0 <= i < |rows| && rows[i].customerId == c && rows[i].productId == productId && !rows[i].notified)
      <==> |set k | 0 <= k < |sel| && sel[k].customerId == c| == 1
  {
    var sel := Unnotified(rows, productId);
    var ks := set k | 0 <= k < |sel| && sel[k].customerId == c;
    UnnotifiedDistinctCustomers(rows, productId);
    if exists i :: 0 <= i < |rows| && rows[i].customerId == c && rows[i].productId == productId && !rows[i].notified {
      var i :| 0 <= i < |rows| && rows[i].customerId == c && rows[i].productId == productId && !rows[i].notified;
      UnnotifiedMembers(rows, productId, rows[i]);
      var k :| 0 <= k < |sel| && sel[k] == rows[i];
      assert ks == {k};
    } else {
      forall k | 0 <= k < |sel| ensures sel[k].customerId != c {
        UnnotifiedMembers(rows, productId, sel[k]);
      }
      assert ks == {};
    }
  }

  /**
   * Under unique (customer, product) pairs, a full fan-out sends every
   * subscriber of the product that was not yet notified exactly one notification.
   */
  lemma {:induction false} OneNoticePerSubscriber(rows: seq<Subscription>, firstId: int, name: string, stock: int, productId: int, now: int, c: int)
    requires NotificationRoutes.UniquePairs(rows)
    ensures var notices := RestockNotices(Unnotified(rows, productId), firstId, name, stock, productId, now);
      (exists i :: 0 <= i < |rows| && rows[i].customerId == c && rows[i].productId == productId && !rows[i].notified)
      <==> |set k | 0 <= k < |notices| && notices[k].userId == c| == 1
  {
    var sel := Unnotified(rows, productId);
    var notices := RestockNotices(sel, firstId, name, stock, productId, now);
    RestockNoticeRecipients(sel, firstId, name, stock, productId, now);
    SelectedOnce(rows, productId, c);
    assert (set k | 0 <= k < |notices| && notices[k].userId == c) == (set k | 0 <= k < |sel| && sel[k].customerId == c);
  }

  lemma {:induction false} RestockNoticesStep(
    subs: seq<Subscription>, i: nat, firstId: int, id: int, name: string, stock: int, productId: int, now: int)
    requires i < |subs|
    requires id == firstId + i
    ensures RestockNotices(subs[..i + 1], firstId, name, stock, productId, now)
         == RestockNotices(subs[..i], firstId, name, stock, productId, now)
            + [RestockNotice(subs[i].customerId, id, name, stock, productId, now)]
  {
    var longer := RestockNotices(subs[..i + 1], firstId, name, stock, productId, now);
    var shorter := RestockNotices(subs[..i], firstId, name, stock, productId, now);
    var x := RestockNotice(subs[i].customerId, id, name, stock, productId, now);
    forall k | 0 <= k < |longer| ensures longer[k] == (shorter + [x])[k] {
      RestockNoticeAt(subs[..i + 1], firstId, firstId + k, name, stock, productId, now, k);
      if k < i {
        RestockNoticeAt(subs[..i], firstId, firstId + k, name, stock, productId, now, k);
        assert subs[..i + 1][k] == subs[..i][k];
      }
    }
    assert longer == shorter + [x];
  }

  lemma {:induction false} RestockNoticeAt(
    subs: seq<Subscription>, firstId: int, id: int, name: string, stock: int, productId: int, now: int, k: int)
    requires 0 <= k < |subs| && id == firstId + k
    ensures RestockNotices(subs, firstId, name, stock, productId, now)[k]
         == RestockNotice(subs[k].customerId, id, name, stock, productId, now)
  {
  }

  /** The email sent to one subscriber: none when the customer row is missing. */
  function RestockEmail(customers: map<int, Customer>, customerId: int, name: string, price: int, stock: int, productId: int)
    : seq<Email>
  {
    if customerId in customers
    then [Email(customers[customerId].email, customers[customerId].name, name, price, stock, ProductLink(productId))]
    else []
  }

  /** The emails the loop hands to the mail service: one per subscriber whose customer row exists. */
  function RestockEmails(subs: seq<Subscription>, customers: map<int, Customer>, name: string, price: int, stock: int, productId: int)
    : (r: seq<Email>)
    ensures |r| <= |subs|
  {
    if subs == [] then []
    else
      var rest := RestockEmails(subs[..|subs| - 1], customers, name, price, stock, productId);
      rest + RestockEmail(customers, subs[|subs| - 1].customerId, name, price, stock, productId)
  }

  /** Every email goes to a subscriber's customer row; with every customer on record, each subscriber gets one. */
  lemma {:induction false} RestockEmailsAddressed(subs: seq<Subscription>, customers: map<int, Customer>, name: string, price: int, stock: int, productId: int)
    ensures var mails := RestockEmails(subs, customers, name, price, stock, productId);
      forall e :: e in mails ==>
        exists k :: 0 <= k < |subs| && subs[k].customerId in customers && e.to == customers[subs[k].customerId].email
    ensures (forall k :: 0 <= k < |subs| ==> subs[k].customerId in customers) ==>
      |RestockEmails(subs, customers, name, price, stock, productId)| == |subs|
  {
    if subs != [] {
      var init := subs[..|subs| - 1];
      RestockEmailsAddressed(init, customers, name, price, stock, productId);
      assert forall e :: e in RestockEmails(init, customers, name, price, stock, productId) ==>
        exists k :: 0 <= k < |init| && init[k].customerId in customers && e.to == customers[init[k].customerId].email;
      forall e | e in RestockEmails(subs, customers, name, price, stock, productId)
        ensures exists k :: 0 <= k < |subs| && subs[k].customerId in customers && e.to == customers[subs[k].customerId].email
      {
        var rest := RestockEmails(init, customers, name, price, stock, productId);
        var last := RestockEmail(customers, subs[|subs| - 1].customerId, name, price, stock, productId);
        assert e in rest + last;
        if e in rest {
          var k :| 0 <= k < |init| && init[k].customerId in customers && e.to == customers[init[k].customerId].email;
          assert subs[k] == init[k];
        } else {
          assert e in last;
          assert e.to == customers[subs[|subs| - 1].customerId].email;
        }
      }
    }
  }

  lemma {:induction false} RestockEmailsStep(subs: seq<Subscription>, i: nat, customers: map<int, Customer>, name: string, price: int, stock: int, productId: int)
    requires i < |subs|
    ensures RestockEmails(subs[..i + 1], customers, name, price, stock, productId)
      == RestockEmails(subs[..i], customers, name, price, stock, productId)
         + RestockEmail(customers, subs[i].customerId, name, price, stock, productId)
  {
    assert subs[..i + 1][..i] == subs[..i];
  }

  /** `productDetails[0]?.price || 0`, read after the update. */
  function EmailPrice(products: map<int, Product>, productId: int): int
  {
    if productId in products then products[productId].price else 0
  }

  /** The selection the update route fans out to: empty unless the stock goes from 0 to positive. */
  function Selection(products: map<int, Product>, subscriptions: seq<Subscription>, id: int, req: UpdateRequest)
    : (sel: seq<Subscription>)
    ensures !IsRestock(LookupProduct(products, id), req.stock) ==> sel == []
    ensures forall x :: x in sel <==> (IsRestock(LookupProduct(products, id), req.stock) && x in subscriptions
                                      && x.productId == id && !x.notified)
  {
    if IsRestock(LookupProduct(products, id), req.stock) then
      var sel := Unnotified(subscriptions, id);
      assert forall x :: x in sel <==> x in subscriptions && x.productId == id && !x.notified by {
        forall x ensures x in sel <==> x in subscriptions && x.productId == id && !x.notified {
          UnnotifiedMembers(subscriptions, id, x);
        }
      }
      sel
    else []
  }

  /** How many subscribers the loop gets through: all of them, or up to the first refused insert. */
  function Processed(selected: nat, failAt: Option<nat>): (n: nat)
    ensures n <= selected
    ensures n < selected <==> failAt.Some? && failAt.value < selected
  {
    if failAt.Some? && failAt.value < selected then failAt.value else selected
  }

  /** The mail service: records the attempt and reports the transport's answer; it never fails the caller. */
  method SendProductAvailableEmail(db: Db, email: Email, transport: Email -> bool) returns (sent: bool)
    modifies db`outbox
    ensures db.outbox == old(db.outbox) + [email]
    ensures sent == transport(email)
  {
    db.outbox := db.outbox + [email];
    sent := transport(email);
  }

  /**
   * One pass of the `for` loop: insert the in-app notification and, when the
   * customer row exists, send the email. `accepted` is whether the store takes
   * the insert; when it does not, the pass stops before the email.
   */
  method NotifyOne(
    db: Db, sub: Subscription, productId: int, productName: string, price: int, stock: int,
    now: int, accepted: bool, transport: Email -> bool) returns (ok: bool)
    requires db.Valid()
    modifies db`notifications, db`nextNotificationId, db`outbox
    ensures db.Valid()
    ensures ok == accepted
    ensures ok ==>
      && db.notifications == old(db.notifications)
           + [RestockNotice(sub.customerId, old(db.nextNotificationId), productName, stock, productId, now)]
      && db.nextNotificationId == old(db.nextNotificationId) + 1
      && db.outbox == old(db.outbox) + RestockEmail(db.customers, sub.customerId, productName, price, stock, productId)
    ensures !ok ==>
      && db.notifications == old(db.notifications) && db.nextNotificationId == old(db.nextNotificationId)
      && db.outbox == old(db.outbox)
  {
    ok := NotificationRoutes.CreateNotification(
      db, sub.customerId, "customer", "product_available", RestockTitle, RestockMessage(productName, stock),
      Some(ProductPath(productId)), now, accepted);
    if !ok {
      return;
    }
    if sub.customerId in db.customers {
      var customer := db.customers[sub.customerId];
      var _ := SendProductAvailableEmail(
        db, Email(customer.email, customer.name, productName, price, stock, ProductLink(productId)), transport);
    }
  }

  /**
   * The `for` loop over the selected subscribers, in order. `failAt`, when it
   * names the index of a subscriber, is the first in-app insert the store
   * refuses; the loop stops there and reports how far it got. `transport` is
   * the mail server's verdict on each email, which the loop ignores.
   */
  method NotifySubscribers(
    db: Db, subscribers: seq<Subscription>, productId: int, productName: string, price: int, stock: int,
    now: int, failAt: Option<nat>, transport: Email -> bool) returns (done: nat)
    requires db.Valid()
    modifies db`notifications, db`nextNotificationId, db`outbox
    ensures db.Valid()
    ensures done == Processed(|subscribers|, failAt)
    ensures db.notifications == old(db.notifications)
      + RestockNotices(subscribers[..done], old(db.nextNotificationId), productName, stock, productId, now)
    ensures db.nextNotificationId == old(db.nextNotificationId) + done
    ensures db.outbox == old(db.outbox)
      + RestockEmails(subscribers[..done], db.customers, productName, price, stock, productId)
  {
    ghost var firstId := db.nextNotificationId;
    ghost var notices0 := db.notifications;
    ghost var outbox0 := db.outbox;
    ghost var customers := db.customers;
    done := 0;
    while done < |subscribers|
      invariant 0 <= done <= |subscribers|
      invariant failAt.None? || failAt.value >= done
      invariant db.Valid() && db.customers == customers
      invariant db.notifications == notices0 + RestockNotices(subscribers[..done], firstId, productName, stock, productId, now)
      invariant db.nextNotificationId == firstId + done
      invariant db.outbox == outbox0 + RestockEmails(subscribers[..done], customers, productName, price, stock, productId)
    {
      var ok := NotifyNext(db, subscribers, done, firstId, notices0, outbox0, customers,
                           productId, productName, price, stock, now, !(failAt.Some? && failAt.value == done), transport);
      if !ok {
        break;
      }
      done := done + 1;
    }
  }

  /** Pass `done` of the loop, stated as the step from the first `done` subscribers to the first `done + 1`. */
  method NotifyNext(
    db: Db, subscribers: seq<Subscription>, done: nat, ghost firstId: int, ghost notices0: seq<Notification>,
    ghost outbox0: seq<Email>, ghost customers: map<int, Customer>,
    productId: int, productName: string, price: int, stock: int, now: int, accepted: bool, transport: Email -> bool)
    returns (ok: bool)
    requires done < |subscribers|
    requires db.Valid() && db.customers == customers
    requires db.notifications == notices0 + RestockNotices(subscribers[..done], firstId, productName, stock, productId, now)
    requires db.nextNotificationId == firstId + done
    requires db.outbox == outbox0 + RestockEmails(subscribers[..done], customers, productName, price, stock, productId)
    modifies db`notifications, db`nextNotificationId, db`outbox
    ensures db.Valid()
    ensures ok == accepted
    ensures ok ==>
      && db.notifications == notices0 + RestockNotices(subscribers[..done + 1], firstId, productName, stock, productId, now)
      && db.nextNotificationId == firstId + done + 1
      && db.outbox == outbox0 + RestockEmails(subscribers[..done + 1], customers, productName, price, stock, productId)
    ensures !ok ==>
      && db.notifications == old(db.notifications) && db.nextNotificationId == old(db.nextNotificationId)
      && db.outbox == old(db.outbox)
  {
    NotifyStep(subscribers, done, db.notifications, db.outbox, db.nextNotificationId, notices0, outbox0, firstId, customers,
               productName, price, stock, productId, now);
    ok := NotifyOne(db, subscribers[done], productId, productName, price, stock, now, accepted, transport);
  }

  /** One pass of the loop extends the notifications and the emails sent so far by that subscriber's. */
  lemma {:induction false} NotifyStep(
    subs: seq<Subscription>, i: nat, notices: seq<Notification>, outbox: seq<Email>, id: int,
    notices0: seq<Notification>, outbox0: seq<Email>, firstId: int,
    customers: map<int, Customer>, name: string, price: int, stock: int, productId: int, now: int)
    requires i < |subs|
    requires notices == notices0 + RestockNotices(subs[..i], firstId, name, stock, productId, now)
    requires id == firstId + i
    requires outbox == outbox0 + RestockEmails(subs[..i], customers, name, price, stock, productId)
    ensures notices + [RestockNotice(subs[i].customerId, id, name, stock, productId, now)]
      == notices0 + RestockNotices(subs[..i + 1], firstId, name, stock, productId, now)
    ensures outbox + RestockEmail(customers, subs[i].customerId, name, price, stock, productId)
      == outbox0 + RestockEmails(subs[..i + 1], customers, name, price, stock, productId)
  {
    NoticesAppendStep(subs, i, notices0, firstId, id, name, stock, productId, now);
    EmailsAppendStep(subs, i, outbox0, customers, name, price, stock, productId);
  }

  lemma {:induction false} NoticesAppendStep(
    subs: seq<Subscription>, i: nat, notices0: seq<Notification>, firstId: int, id: int,
    name: string, stock: int, productId: int, now: int)
    requires i < |subs|
    requires id == firstId + i
    ensures notices0 + RestockNotices(subs[..i], firstId, name, stock, productId, now)
        + [RestockNotice(subs[i].customerId, id, name, stock, productId, now)]
      == notices0 + RestockNotices(subs[..i + 1], firstId, name, stock, productId, now)
  {
    RestockNoticesStep(subs, i, firstId, id, name, stock, productId, now);
    AppendAssoc(notices0, RestockNotices(subs[..i], firstId, name, stock, productId, now),
                [RestockNotice(subs[i].customerId, id, name, stock, productId, now)]);
  }

  lemma {:induction false} EmailsAppendStep(
    subs: seq<Subscription>, i: nat, outbox0: seq<Email>, customers: map<int, Customer>,
    name: string, price: int, stock: int, productId: int)
    requires i < |subs|
    ensures outbox0 + RestockEmails(subs[..i], customers, name, price, stock, productId)
        + RestockEmail(customers, subs[i].customerId, name, price, stock, productId)
      == outbox0 + RestockEmails(subs[..i + 1], customers, name, price, stock, productId)
  {
    RestockEmailsStep(subs, i, customers, name, price, stock, productId);
    AppendAssoc(outbox0, RestockEmails(subs[..i], customers, name, price, stock, productId),
                RestockEmail(customers, subs[i].customerId, name, price, stock, productId));
  }

  lemma {:induction false} AppendAssoc<T>(a: seq<T>, b: seq<T>, c: seq<T>)
    ensures (a + b) + c == a + (b + c)
  {
  }

  /**
   * The restock branch, run after the row was written: select the product's
   * unnotified subscribers, notify them in order, and mark them all in one bulk
   * update unless an insert was refused. `failed` tells the route to answer 500.
   */
  method FanOut(db: Db, id: int, productName: string, stock: int, now: int, failAt: Option<nat>, transport: Email -> bool)
    returns (failed: bool)
    requires db.Valid()
    modifies db`subscriptions, db`notifications, db`nextNotificationId, db`outbox
    ensures db.Valid()
    ensures var sel := Unnotified(old(db.subscriptions), id);
      var done := sel[..Processed(|sel|, failAt)];
      && failed == (|done| < |sel|)
      && db.notifications == old(db.notifications) + RestockNotices(done, old(db.nextNotificationId), productName, stock, id, now)
      && db.nextNotificationId == old(db.nextNotificationId) + |done|
      && db.outbox == old(db.outbox) + RestockEmails(done, db.customers, productName, EmailPrice(db.products, id), stock, id)
      && db.subscriptions == (if sel != [] && !failed then MarkNotified(old(db.subscriptions), id, now) else old(db.subscriptions))
  {
    var subscribers := Unnotified(db.subscriptions, id);
    if |subscribers| == 0 {
      return false;
    }
    var price := EmailPrice(db.products, id);
    var done := NotifySubscribers(db, subscribers, id, productName, price, stock, now, failAt, transport);
    if done < |subscribers| {
      return true;
    }
    assert subscribers[..done] == subscribers;
    MarkNotifiedKeepsIds(db.subscriptions, id, now);
    db.subscriptions := MarkNotified(db.subscriptions, id, now);
    failed := false;
  }

  /**
   * The update route: read the old stock and name, write the row, and on a
   * 0-to-positive restock fan out to the unnotified subscribers and mark them.
   * A refused in-app insert ends the route with 500 after the row was written
   * and before any subscription is marked.
   */
  method UpdateProduct(db: Db, id: int, req: UpdateRequest, now: int, failAt: Option<nat>, transport: Email -> bool)
    returns (resp: Response)
    requires db.Valid()
    modifies db`products, db`subscriptions, db`notifications, db`nextNotificationId, db`outbox
    ensures db.Valid()
    ensures db.products == ApplyUpdate(old(db.products), id, req)
    ensures var row := LookupProduct(old(db.products), id);
      var name := NoticeName(row, req.name);
      var sel := Selection(old(db.products), old(db.subscriptions), id, req);
      var done := sel[..Processed(|sel|, failAt)];
      var failed := |done| < |sel|;
      && db.notifications == old(db.notifications) + RestockNotices(done, old(db.nextNotificationId), name, req.stock, id, now)
      && db.nextNotificationId == old(db.nextNotificationId) + |done|
      && db.outbox == old(db.outbox) + RestockEmails(done, db.customers, name, EmailPrice(db.products, id), req.stock, id)
      && db.subscriptions == (if sel != [] && !failed then MarkNotified(old(db.subscriptions), id, now) else old(db.subscriptions))
      && resp == (if failed then Response(500, "Failed to update product") else Response(200, "Product updated successfully"))
  {
    var row := LookupProduct(db.products, id);
    var oldStock := OldStock(row);
    var productName := NoticeName(row, req.name);
    db.products := ApplyUpdate(db.products, id, req);
    if oldStock == 0 && req.stock > 0 {
      var failed := FanOut(db, id, productName, req.stock, now, failAt, transport);
      if failed {
        return Response(500, "Failed to update product");
      }
    }
    resp := Response(200, "Product updated successfully");
  }

  lemma {:induction false} MarkNotifiedKeepsIds(rows: seq<Subscription>, productId: int, now: int)
    ensures SubscriptionIds(MarkNotified(rows, productId, now)) == SubscriptionIds(rows)
  {
  }

  // ---------------------------------------------------------------------------
  // DELETE /:id

  /** Deletes the product row; subscriptions and notifications that name it stay. */
  method DeleteProduct(db: Db, id: int) returns (resp: Response)
    requires db.Valid()
    modifies db`products
    ensures db.Valid()
    ensures db.products == old(db.products) - {id}
    ensures resp == Response(200, "Product deleted successfully")
  {
    db.products := db.products - {id};
    resp := Response(200, "Product deleted successfully");
  }
}
