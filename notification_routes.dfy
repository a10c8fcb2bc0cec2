/**
 * The subscription store (`product_notifications`) and the notification
 * store (`notifications`) behind `backend/routes/notification.js`: the
 * `createNotification` helper and the seven routes, each a statement or a
 * query over one table.
 */
module NotificationRoutes {
  import opened Tables
  import opened Ordering

  /** A JSON-body field that JavaScript's `!x` rejects: absent, or the number 0. */
  predicate MissingBodyId(o: Option<int>)
  {
    o.None? || o.value == 0
  }

  /** A query-string field is text: `None` stands for an absent or empty one ("0" is truthy). */
  predicate MissingQueryId(o: Option<int>)
  {
    o.None?
  }

  predicate MissingText(o: Option<string>)
  {
    o.None? || o.value == ""
  }

  // ---------------------------------------------------------------------------
  // createNotification

  /** The row `INSERT INTO notifications` creates: unread, stamped with the insertion time. */
  function NewNotification(
    id: int, userId: int, userRole: string, kind: string, title: string,
    message: string, link: Option<string>, now: int): (n: Notification)
    ensures !n.isRead && n.id == id && n.createdAt == now
    ensures n.userId == userId && n.userRole == userRole && n.kind == kind
    ensures n.title == title && n.message == message && n.link == link
  {
    Notification(id, userId, userRole, kind, title, message, link, false, now)
  }

  lemma {:induction false} AppendNotificationIds(rows: seq<Notification>, n: Notification)
    ensures NotificationIds(rows + [n]) == NotificationIds(rows) + [n.id]
  {
  }

  /**
   * Inserts one notification. `accepted` is the storage engine's verdict on the
   * insert; when it refuses, the error is passed back to the caller (`ok` is false).
   */
  method CreateNotification(
    db: Db, userId: int, userRole: string, kind: string, title: string,
    message: string, link: Option<string>, now: int, accepted: bool) returns (ok: bool)
    requires db.Valid()
    modifies db`notifications, db`nextNotificationId
    ensures db.Valid()
    ensures ok == accepted
    ensures ok ==> (db.notifications == old(db.notifications)
      + [NewNotification(old(db.nextNotificationId), userId, userRole, kind, title, message, link, now)])
    ensures ok ==> db.nextNotificationId == old(db.nextNotificationId) + 1
    ensures !ok ==> db.notifications == old(db.notifications)
    ensures !ok ==> db.nextNotificationId == old(db.nextNotificationId)
  {
    if !accepted {
      return false;
    }
    var n := NewNotification(db.nextNotificationId, userId, userRole, kind, title, message, link, now);
    AppendNotificationIds(db.notifications, n);
    db.notifications := db.notifications + [n];
    db.nextNotificationId := db.nextNotificationId + 1;
    ok := true;
  }

  // ---------------------------------------------------------------------------
  // The subscription store

  predicate SamePair(s: Subscription, customerId: int, productId: int)
  {
    s.customerId == customerId && s.productId == productId
  }

  /** `SELECT ... FROM product_notifications WHERE customer_id = ? AND product_id = ?`. */
  function PairRows(rows: seq<Subscription>, customerId: int, productId: int): (r: seq<Subscription>)
    ensures |r| <= |rows|
  {
    if rows == [] then []
    else if SamePair(rows[0], customerId, productId) then [rows[0]] + PairRows(rows[1..], customerId, productId)
    else PairRows(rows[1..], customerId, productId)
  }

  /** The pair's rows are exactly the table's rows for that customer and product. */
  lemma {:induction false} PairRowsMembers(rows: seq<Subscription>, customerId: int, productId: int, x: Subscription)
    ensures x in PairRows(rows, customerId, productId) <==> x in rows && SamePair(x, customerId, productId)
  {
    if rows != [] {
      PairRowsMembers(rows[1..], customerId, productId, x);
      assert rows == [rows[0]] + rows[1..];
    }
  }

  /** At most one row per (customer, product) pair. */
  ghost predicate UniquePairs(rows: seq<Subscription>)
  {
    forall i, j :: 0 <= i < j < |rows| ==>
      !SamePair(rows[j], rows[i].customerId, rows[i].productId)
  }

  lemma {:induction false} UniquePairsAtMostOne(rows: seq<Subscription>, customerId: int, productId: int)
    requires UniquePairs(rows)
    ensures |PairRows(rows, customerId, productId)| <= 1
  {
    if rows != [] {
      UniquePairsAtMostOne(rows[1..], customerId, productId);
      if SamePair(rows[0], customerId, productId) && PairRows(rows[1..], customerId, productId) != [] {
        var x := PairRows(rows[1..], customerId, productId)[0];
        PairRowsMembers(rows[1..], customerId, productId, x);
        assert false;
      }
    }
  }

  function NewSubscription(id: int, customerId: int, productId: int, now: int): (s: Subscription)
    ensures !s.notified && s.notifiedAt.None? && SamePair(s, customerId, productId)
  {
    Subscription(id, customerId, productId, false, None, now)
  }

  lemma {:induction false} AppendSubscriptionIds(rows: seq<Subscription>, s: Subscription)
    ensures SubscriptionIds(rows + [s]) == SubscriptionIds(rows) + [s.id]
  {
  }

  /** Appending a subscription for a pair that has no row keeps pairs unique. */
  lemma {:induction false} SubscribeKeepsPairsUnique(rows: seq<Subscription>, s: Subscription)
    requires UniquePairs(rows)
    requires PairRows(rows, s.customerId, s.productId) == []
    ensures UniquePairs(rows + [s])
  {
    forall i | 0 <= i < |rows| ensures !SamePair(s, rows[i].customerId, rows[i].productId) {
      PairRowsMembers(rows, s.customerId, s.productId, rows[i]);
    }
  }

  /**
   * POST /subscribe. A missing id is a 400; any existing row for the pair,
   * notified or not, is a 400 "Already subscribed"; otherwise one unnotified
   * row is inserted.
   */
  method Subscribe(db: Db, productId: Option<int>, customerId: Option<int>, now: int) returns (resp: Response)
    requires db.Valid()
    modifies db`subscriptions, db`nextSubscriptionId
    ensures db.Valid()
    ensures MissingBodyId(productId) || MissingBodyId(customerId) ==>
      resp == Response(400, "Product ID and Customer ID are required")
      && db.subscriptions == old(db.subscriptions) && db.nextSubscriptionId == old(db.nextSubscriptionId)
    ensures (!MissingBodyId(productId) && !MissingBodyId(customerId)
      && PairRows(old(db.subscriptions), customerId.value, productId.value) != []) ==>
      resp == Response(400, "Already subscribed to this product")
      && db.subscriptions == old(db.subscriptions) && db.nextSubscriptionId == old(db.nextSubscriptionId)
    ensures (!MissingBodyId(productId) && !MissingBodyId(customerId)
      && PairRows(old(db.subscriptions), customerId.value, productId.value) == []) ==>
      resp == Response(200, "Successfully subscribed to product notifications")
      && db.subscriptions == old(db.subscriptions)
        + [NewSubscription(old(db.nextSubscriptionId), customerId.value, productId.value, now)]
      && db.nextSubscriptionId == old(db.nextSubscriptionId) + 1
    ensures UniquePairs(old(db.subscriptions)) ==> UniquePairs(db.subscriptions)
  {
    if MissingBodyId(productId) || MissingBodyId(customerId) {
      return Response(400, "Product ID and Customer ID are required");
    }
    var existing := PairRows(db.subscriptions, customerId.value, productId.value);
    if |existing| > 0 {
      return Response(400, "Already subscribed to this product");
    }
    var s := NewSubscription(db.nextSubscriptionId, customerId.value, productId.value, now);
    AppendSubscriptionIds(db.subscriptions, s);
    if UniquePairs(db.subscriptions) {
      SubscribeKeepsPairsUnique(db.subscriptions, s);
    }
    db.subscriptions := db.subscriptions + [s];
    db.nextSubscriptionId := db.nextSubscriptionId + 1;
    resp := Response(200, "Successfully subscribed to product notifications");
  }

  /** `DELETE FROM product_notifications WHERE customer_id = ? AND product_id = ?`. */
  function WithoutPair(rows: seq<Subscription>, customerId: int, productId: int): (r: seq<Subscription>)
    ensures |r| <= |rows|
  {
    if rows == [] then []
    else if SamePair(rows[0], customerId, productId) then WithoutPair(rows[1..], customerId, productId)
    else [rows[0]] + WithoutPair(rows[1..], customerId, productId)
  }

  /** The delete removes every row of the pair and keeps every other row, in order. */
  lemma {:induction false} WithoutPairMembers(rows: seq<Subscription>, customerId: int, productId: int, x: Subscription)
    ensures x in WithoutPair(rows, customerId, productId) <==> x in rows && !SamePair(x, customerId, productId)
  {
    if rows != [] {
      WithoutPairMembers(rows[1..], customerId, productId, x);
      assert rows == [rows[0]] + rows[1..];
    }
  }

  /** Deleting keeps the order of the remaining rows, so increasing ids stay increasing. */
  lemma {:induction false} WithoutPairKeepsIds(rows: seq<Subscription>, customerId: int, productId: int, next: int)
    requires AllocatedIds(SubscriptionIds(rows), next)
    ensures AllocatedIds(SubscriptionIds(WithoutPair(rows, customerId, productId)), next)
  {
    if rows != [] {
      assert AllocatedIds(SubscriptionIds(rows[1..]), next) by {
        assert forall i :: 0 <= i < |rows[1..]| ==> SubscriptionIds(rows[1..])[i] == SubscriptionIds(rows)[i + 1];
      }
      WithoutPairKeepsIds(rows[1..], customerId, productId, next);
      var rest := WithoutPair(rows[1..], customerId, productId);
      if !SamePair(rows[0], customerId, productId) {
        forall i | 0 <= i < |rest| ensures rows[0].id < rest[i].id {
          assert rest[i] in rest;
          WithoutPairMembers(rows[1..], customerId, productId, rest[i]);
          var j :| 0 <= j < |rows[1..]| && rows[1..][j] == rest[i];
          assert SubscriptionIds(rows)[0] < SubscriptionIds(rows)[j + 1];
        }
        var r := [rows[0]] + rest;
        var ids := SubscriptionIds(r);
        forall i, j | 0 <= i < j < |ids| ensures ids[i] < ids[j] {
          assert ids[j] == SubscriptionIds(rest)[j - 1];
          if i > 0 { assert ids[i] == SubscriptionIds(rest)[i - 1]; }
        }
        forall i | 0 <= i < |ids| ensures ids[i] < next {
          if i > 0 { assert ids[i] == SubscriptionIds(rest)[i - 1]; } else { assert ids[0] == SubscriptionIds(rows)[0]; }
        }
      }
    }
  }

  lemma {:induction false} WithoutPairKeepsUnique(rows: seq<Subscription>, customerId: int, productId: int)
    requires UniquePairs(rows)
    ensures UniquePairs(WithoutPair(rows, customerId, productId))
  {
    if rows != [] {
      WithoutPairKeepsUnique(rows[1..], customerId, productId);
      var rest := WithoutPair(rows[1..], customerId, productId);
      if !SamePair(rows[0], customerId, productId) {
        forall i | 0 <= i < |rest| ensures !SamePair(rest[i], rows[0].customerId, rows[0].productId) {
          assert rest[i] in rest;
          WithoutPairMembers(rows[1..], customerId, productId, rest[i]);
          var j :| 0 <= j < |rows[1..]| && rows[1..][j] == rest[i];
          assert rows[j + 1] == rest[i];
        }
        var r := [rows[0]] + rest;
        forall i, j | 0 <= i < j < |r| ensures !SamePair(r[j], r[i].customerId, r[i].productId) {
          if i > 0 { assert r[i] == rest[i - 1]; }
          assert r[j] == rest[j - 1];
        }
      }
    }
  }

  /**
   * DELETE /unsubscribe/:productId. Needs `customer_id` (400 otherwise); deletes
   * every row of the pair and no other, and succeeds whether or not a row existed.
   */
  method Unsubscribe(db: Db, productId: int, customerId: Option<int>) returns (resp: Response)
    requires db.Valid()
    modifies db`subscriptions
    ensures db.Valid()
    ensures MissingBodyId(customerId) ==>
      resp == Response(400, "Customer ID is required") && db.subscriptions == old(db.subscriptions)
    ensures !MissingBodyId(customerId) ==>
      resp == Response(200, "Successfully unsubscribed")
      && db.subscriptions == WithoutPair(old(db.subscriptions), customerId.value, productId)
    ensures UniquePairs(old(db.subscriptions)) ==> UniquePairs(db.subscriptions)
  {
    if MissingBodyId(customerId) {
      return Response(400, "Customer ID is required");
    }
    WithoutPairKeepsIds(db.subscriptions, customerId.value, productId, db.nextSubscriptionId);
    if UniquePairs(db.subscriptions) {
      WithoutPairKeepsUnique(db.subscriptions, customerId.value, productId);
    }
    db.subscriptions := WithoutPair(db.subscriptions, customerId.value, productId);
    resp := Response(200, "Successfully unsubscribed");
  }

  /** After an unsubscribe the pair has no row, so a new subscribe is accepted. */
  lemma {:induction false} UnsubscribeClearsPair(rows: seq<Subscription>, customerId: int, productId: int)
    ensures PairRows(WithoutPair(rows, customerId, productId), customerId, productId) == []
  {
    var rest := WithoutPair(rows, customerId, productId);
    if PairRows(rest, customerId, productId) != [] {
      var x := PairRows(rest, customerId, productId)[0];
      PairRowsMembers(rest, customerId, productId, x);
      WithoutPairMembers(rows, customerId, productId, x);
    }
  }

  /**
   * GET /subscription/:productId: `subscribed` is true exactly when some row
   * exists for the pair, whatever its `notified` flag.
   */
  function CheckSubscription(rows: seq<Subscription>, productId: int, customerId: Option<int>): (r: Result<bool>)
    ensures r.Err? <==> MissingQueryId(customerId)
    ensures r.Err? ==> r == Err(400, "Customer ID is required")
    ensures r.Ok? ==> (r.value <==> exists i :: 0 <= i < |rows| && SamePair(rows[i], customerId.value, productId))
  {
    if MissingQueryId(customerId) then Err(400, "Customer ID is required")
    else
      var found := PairRows(rows, customerId.value, productId);
      if found != [] then
        PairRowsMembers(rows, customerId.value, productId, found[0]);
        Ok(true)
      else
        assert forall i :: 0 <= i < |rows| ==> !SamePair(rows[i], customerId.value, productId) by {
          forall i | 0 <= i < |rows| ensures !SamePair(rows[i], customerId.value, productId) {
            PairRowsMembers(rows, customerId.value, productId, rows[i]);
          }
        }
        Ok(false)
  }

  // ---------------------------------------------------------------------------
  // The notification store

  predicate Visible(n: Notification, userId: int, userRole: string, unreadOnly: bool)
  {
    n.userId == userId && n.userRole == userRole && (!unreadOnly || !n.isRead)
  }

  /** `WHERE user_id = ? AND user_role = ? [AND is_read = FALSE]`, in table order. */
  function VisibleRows(rows: seq<Notification>, userId: int, userRole: string, unreadOnly: bool): (r: seq<Notification>)
    ensures |r| <= |rows|
  {
    if rows == [] then []
    else if Visible(rows[0], userId, userRole, unreadOnly) then [rows[0]] + VisibleRows(rows[1..], userId, userRole, unreadOnly)
    else VisibleRows(rows[1..], userId, userRole, unreadOnly)
  }

  lemma {:induction false} VisibleRowsMembers(rows: seq<Notification>, userId: int, userRole: string, unreadOnly: bool, x: Notification)
    ensures x in VisibleRows(rows, userId, userRole, unreadOnly) <==> x in rows && Visible(x, userId, userRole, unreadOnly)
  {
    if rows != [] {
      VisibleRowsMembers(rows[1..], userId, userRole, unreadOnly, x);
      assert rows == [rows[0]] + rows[1..];
    }
  }

  /** The sort key of `ORDER BY created_at DESC`. */
  function NewestFirst(n: Notification): int
  {
    -n.createdAt
  }

  const PageSize: nat := 50

  /** The rows GET / returns: the user's (unread) rows, newest first, at most 50. */
  function ListFor(rows: seq<Notification>, userId: int, userRole: string, unreadOnly: bool): seq<Notification>
  {
    Take(SortBy(VisibleRows(rows, userId, userRole, unreadOnly), NewestFirst), PageSize)
  }

  /** Only rows of that (user, role) are listed, only unread ones when asked, each taken from the table. */
  lemma {:induction false} ListForSound(rows: seq<Notification>, userId: int, userRole: string, unreadOnly: bool, x: Notification)
    requires x in ListFor(rows, userId, userRole, unreadOnly)
    ensures x in rows && Visible(x, userId, userRole, unreadOnly)
  {
    var v := VisibleRows(rows, userId, userRole, unreadOnly);
    var s := SortBy(v, NewestFirst);
    assert x in s;
    SortByMembers(v, NewestFirst, x);
    VisibleRowsMembers(rows, userId, userRole, unreadOnly, x);
  }

  /** The page is the first 50 visible rows, or all of them when there are fewer. */
  lemma {:induction false} ListForSize(rows: seq<Notification>, userId: int, userRole: string, unreadOnly: bool)
    ensures var n := |VisibleRows(rows, userId, userRole, unreadOnly)|;
      |ListFor(rows, userId, userRole, unreadOnly)| == if n <= 50 then n else 50
  {
  }

  /** Newest first: `created_at` never increases along the page. */
  lemma {:induction false} ListForNewestFirst(rows: seq<Notification>, userId: int, userRole: string, unreadOnly: bool)
    ensures var page := ListFor(rows, userId, userRole, unreadOnly);
      forall i, j :: 0 <= i < j < |page| ==> page[i].createdAt >= page[j].createdAt
  {
    var s := SortBy(VisibleRows(rows, userId, userRole, unreadOnly), NewestFirst);
    SortBySorted(VisibleRows(rows, userId, userRole, unreadOnly), NewestFirst);
    var page := ListFor(rows, userId, userRole, unreadOnly);
    forall i, j | 0 <= i < j < |page| ensures page[i].createdAt >= page[j].createdAt {
      assert page[i] == s[i] && page[j] == s[j];
      assert NewestFirst(s[i]) <= NewestFirst(s[j]);
    }
  }

  /** A visible row left off the page is no newer than any row on it. */
  lemma {:induction false} ListForKeepsNewest(rows: seq<Notification>, userId: int, userRole: string, unreadOnly: bool, x: Notification)
    requires x in rows && Visible(x, userId, userRole, unreadOnly)
    requires x !in ListFor(rows, userId, userRole, unreadOnly)
    ensures forall y :: y in ListFor(rows, userId, userRole, unreadOnly) ==> y.createdAt >= x.createdAt
  {
    var v := VisibleRows(rows, userId, userRole, unreadOnly);
    var s := SortBy(v, NewestFirst);
    var page := ListFor(rows, userId, userRole, unreadOnly);
    VisibleRowsMembers(rows, userId, userRole, unreadOnly, x);
    SortByMembers(v, NewestFirst, x);
    SortBySorted(v, NewestFirst);
    var j :| 0 <= j < |s| && s[j] == x;
    assert j >= |page|;
    forall y | y in page ensures y.createdAt >= x.createdAt {
      var i :| 0 <= i < |page| && page[i] == y;
      assert s[i] == y;
      assert NewestFirst(s[i]) <= NewestFirst(s[j]);
    }
  }

  /** GET /: both `user_id` and `user_role` are required; `unread=true` restricts to unread rows. */
  function GetNotifications(
    rows: seq<Notification>, userId: Option<int>, userRole: Option<string>, unread: Option<string>)
    : (r: Result<seq<Notification>>)
    ensures r.Err? <==> MissingQueryId(userId) || MissingText(userRole)
    ensures r.Err? ==> r == Err(400, "User ID and role are required")
    ensures r.Ok? ==> r.value == ListFor(rows, userId.value, userRole.value, unread == Some("true"))
  {
    if MissingQueryId(userId) || MissingText(userRole) then Err(400, "User ID and role are required")
    else Ok(ListFor(rows, userId.value, userRole.value, unread == Some("true")))
  }

  /** `SELECT COUNT(*) ... WHERE user_id = ? AND user_role = ? AND is_read = FALSE`. */
  function CountUnread(rows: seq<Notification>, userId: int, userRole: string): nat
  {
    if rows == [] then 0
    else (if Visible(rows[0], userId, userRole, true) then 1 else 0) + CountUnread(rows[1..], userId, userRole)
  }

  /** The count is the size of the unread listing before the 50-row cap. */
  lemma {:induction false} CountUnreadIsUnreadRows(rows: seq<Notification>, userId: int, userRole: string)
    ensures CountUnread(rows, userId, userRole) == |VisibleRows(rows, userId, userRole, true)|
  {
    if rows != [] {
      CountUnreadIsUnreadRows(rows[1..], userId, userRole);
    }
  }

  lemma {:induction false} CountUnreadAppend(rows: seq<Notification>, n: Notification, userId: int, userRole: string)
    ensures CountUnread(rows + [n], userId, userRole)
      == CountUnread(rows, userId, userRole) + if Visible(n, userId, userRole, true) then 1 else 0
  {
    if rows == [] {
      assert [n][1..] == [];
    } else {
      assert (rows + [n])[1..] == rows[1..] + [n];
      CountUnreadAppend(rows[1..], n, userId, userRole);
    }
  }

  /** A new notification raises its recipient's unread count by one and nobody else's. */
  lemma {:induction false} CreateRaisesUnreadCount(
    rows: seq<Notification>, id: int, userId: int, userRole: string, kind: string, title: string,
    message: string, link: Option<string>, now: int, otherId: int, otherRole: string)
    ensures CountUnread(rows + [NewNotification(id, userId, userRole, kind, title, message, link, now)], userId, userRole)
      == CountUnread(rows, userId, userRole) + 1
    ensures (otherId, otherRole) != (userId, userRole) ==>
      CountUnread(rows + [NewNotification(id, userId, userRole, kind, title, message, link, now)], otherId, otherRole)
      == CountUnread(rows, otherId, otherRole)
  {
    var n := NewNotification(id, userId, userRole, kind, title, message, link, now);
    CountUnreadAppend(rows, n, userId, userRole);
    CountUnreadAppend(rows, n, otherId, otherRole);
  }

  /** GET /unread-count. */
  function GetUnreadCount(rows: seq<Notification>, userId: Option<int>, userRole: Option<string>): (r: Result<nat>)
    ensures r.Err? <==> MissingQueryId(userId) || MissingText(userRole)
    ensures r.Err? ==> r == Err(400, "User ID and role are required")
    ensures r.Ok? ==> r.value == |VisibleRows(rows, userId.value, userRole.value, true)|
  {
    if MissingQueryId(userId) || MissingText(userRole) then Err(400, "User ID and role are required")
    else
      CountUnreadIsUnreadRows(rows, userId.value, userRole.value);
      Ok(CountUnread(rows, userId.value, userRole.value))
  }

  /** `UPDATE notifications SET is_read = TRUE WHERE id = ?`. */
  function MarkReadRows(rows: seq<Notification>, id: int): (r: seq<Notification>)
    ensures |r| == |rows|
  {
    seq(|rows|, i requires 0 <= i < |rows| => if rows[i].id == id then rows[i].(isRead := true) else rows[i])
  }

  /** Marking twice is marking once. */
  lemma {:induction false} MarkReadIdempotent(rows: seq<Notification>, id: int)
    ensures MarkReadRows(MarkReadRows(rows, id), id) == MarkReadRows(rows, id)
  {
  }

  /** An id with no row changes nothing, and is no error. */
  lemma {:induction false} MarkReadUnknownId(rows: seq<Notification>, id: int)
    requires forall i :: 0 <= i < |rows| ==> rows[i].id != id
    ensures MarkReadRows(rows, id) == rows
  {
  }

  /** Only the row with that id changes, and only its read flag. */
  lemma {:induction false} MarkReadOnlyTarget(rows: seq<Notification>, id: int, i: int)
    requires 0 <= i < |rows|
    ensures rows[i].id != id ==> MarkReadRows(rows, id)[i] == rows[i]
    ensures rows[i].id == id ==> MarkReadRows(rows, id)[i] == rows[i].(isRead := true)
  {
  }

  lemma {:induction false} MarkReadNeverRaisesCount(rows: seq<Notification>, id: int, userId: int, userRole: string)
    ensures CountUnread(MarkReadRows(rows, id), userId, userRole) <= CountUnread(rows, userId, userRole)
  {
    if rows != [] {
      assert MarkReadRows(rows, id)[1..] == MarkReadRows(rows[1..], id);
      MarkReadNeverRaisesCount(rows[1..], id, userId, userRole);
    }
  }

  method MarkRead(db: Db, id: int) returns (resp: Response)
    requires db.Valid()
    modifies db`notifications
    ensures db.Valid()
    ensures db.notifications == MarkReadRows(old(db.notifications), id)
    ensures resp == Response(200, "Notification marked as read")
  {
    assert NotificationIds(MarkReadRows(db.notifications, id)) == NotificationIds(db.notifications);
    db.notifications := MarkReadRows(db.notifications, id);
    resp := Response(200, "Notification marked as read");
  }

  /** `UPDATE notifications SET is_read = TRUE WHERE user_id = ? AND user_role = ? AND is_read = FALSE`. */
  function MarkAllReadRows(rows: seq<Notification>, userId: int, userRole: string): (r: seq<Notification>)
    ensures |r| == |rows|
  {
    seq(|rows|, i requires 0 <= i < |rows| =>
      if Visible(rows[i], userId, userRole, true) then rows[i].(isRead := true) else rows[i])
  }

  /** After mark-all-read the (user, role) has nothing unread, and every other pair keeps its count. */
  lemma {:induction false} MarkAllReadCounts(rows: seq<Notification>, userId: int, userRole: string, otherId: int, otherRole: string)
    ensures CountUnread(MarkAllReadRows(rows, userId, userRole), userId, userRole) == 0
    ensures (otherId, otherRole) != (userId, userRole) ==>
      CountUnread(MarkAllReadRows(rows, userId, userRole), otherId, otherRole) == CountUnread(rows, otherId, otherRole)
  {
    if rows != [] {
      assert MarkAllReadRows(rows, userId, userRole)[1..] == MarkAllReadRows(rows[1..], userId, userRole);
      MarkAllReadCounts(rows[1..], userId, userRole, otherId, otherRole);
    }
  }

  /** Rows of other users or roles are untouched. */
  lemma {:induction false} MarkAllReadOthersUnchanged(rows: seq<Notification>, userId: int, userRole: string, i: int)
    requires 0 <= i < |rows|
    requires rows[i].userId != userId || rows[i].userRole != userRole
    ensures MarkAllReadRows(rows, userId, userRole)[i] == rows[i]
  {
  }

  method MarkAllRead(db: Db, userId: Option<int>, userRole: Option<string>) returns (resp: Response)
    requires db.Valid()
    modifies db`notifications
    ensures db.Valid()
    ensures MissingBodyId(userId) || MissingText(userRole) ==>
      resp == Response(400, "User ID and role are required") && db.notifications == old(db.notifications)
    ensures !MissingBodyId(userId) && !MissingText(userRole) ==>
      resp == Response(200, "All notifications marked as read")
      && db.notifications == MarkAllReadRows(old(db.notifications), userId.value, userRole.value)
  {
    if MissingBodyId(userId) || MissingText(userRole) {
      return Response(400, "User ID and role are required");
    }
    assert NotificationIds(MarkAllReadRows(db.notifications, userId.value, userRole.value)) == NotificationIds(db.notifications);
    db.notifications := MarkAllReadRows(db.notifications, userId.value, userRole.value);
    resp := Response(200, "All notifications marked as read");
  }
}
