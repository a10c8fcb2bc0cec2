/**
 * The shopkeeper verification workflow of `backend/routes/admin.js`: the
 * approve and reject transitions, which rewrite one `shopkeepers` row, and
 * the pending and all-shopkeepers listings. The admin id comes from the
 * authenticated session and the timestamp from the database clock; both are
 * parameters here.
 */
module AdminRoutes {
  import opened Tables
  import opened Ordering
  import NotificationRoutes

  // ---------------------------------------------------------------------------
  // Transitions

  /** The row after `SET verification_status = 'approved', verified_by = ?, verified_at = now, rejection_reason = NULL`. */
  function ApprovedRow(s: Shopkeeper, adminId: int, now: int): (r: Shopkeeper)
    ensures r.status == Verification.Approved && r.verifiedBy == Some(adminId) && r.verifiedAt == Some(now)
    ensures r.rejectionReason.None?
    ensures r.id == s.id && r.name == s.name && r.shopName == s.shopName
  {
    s.(status := Verification.Approved, verifiedBy := Some(adminId), verifiedAt := Some(now), rejectionReason := None)
  }

  /** The row after `SET verification_status = 'rejected', verified_by = ?, verified_at = now, rejection_reason = ?`. */
  function RejectedRow(s: Shopkeeper, adminId: int, now: int, reason: string): (r: Shopkeeper)
    ensures r.status == Verification.Rejected && r.verifiedBy == Some(adminId) && r.verifiedAt == Some(now)
    ensures r.rejectionReason == Some(reason)
    ensures r.id == s.id && r.name == s.name && r.shopName == s.shopName
  {
    s.(status := Verification.Rejected, verifiedBy := Some(adminId), verifiedAt := Some(now), rejectionReason := Some(reason))
  }

  /** `UPDATE shopkeepers SET ... WHERE id = ?` for the approval. */
  function ApproveRows(rows: seq<Shopkeeper>, id: int, adminId: int, now: int): (r: seq<Shopkeeper>)
    ensures |r| == |rows|
  {
    seq(|rows|, i requires 0 <= i < |rows| => if rows[i].id == id then ApprovedRow(rows[i], adminId, now) else rows[i])
  }

  /** `UPDATE shopkeepers SET ... WHERE id = ?` for the rejection. */
  function RejectRows(rows: seq<Shopkeeper>, id: int, adminId: int, now: int, reason: string): (r: seq<Shopkeeper>)
    ensures |r| == |rows|
  {
    seq(|rows|, i requires 0 <= i < |rows| => if rows[i].id == id then RejectedRow(rows[i], adminId, now, reason) else rows[i])
  }

  /** Rewriting rows in place keeps every id where it was, so a lookup finds a row exactly when it did before. */
  lemma {:induction false} FindAfterRewrite(rows: seq<Shopkeeper>, rewritten: seq<Shopkeeper>, id: int)
    requires |rewritten| == |rows|
    requires forall i :: 0 <= i < |rows| ==> rewritten[i].id == rows[i].id
    ensures FindShopkeeper(rewritten, id).None? <==> FindShopkeeper(rows, id).None?
    ensures FindShopkeeper(rows, id).Some? ==>
      exists i :: (0 <= i < |rows| && rows[i] == FindShopkeeper(rows, id).value
                   && rewritten[i] == FindShopkeeper(rewritten, id).value)
  {
    if rows != [] && rows[0].id != id {
      FindAfterRewrite(rows[1..], rewritten[1..], id);
      if FindShopkeeper(rows, id).Some? {
        var i :| (0 <= i < |rows[1..]| && rows[1..][i] == FindShopkeeper(rows, id).value
                  && rewritten[1..][i] == FindShopkeeper(rewritten, id).value);
        assert rows[i + 1] == rows[1..][i] && rewritten[i + 1] == rewritten[1..][i];
      }
    } else if rows != [] {
      assert rows[0] == FindShopkeeper(rows, id).value && rewritten[0] == FindShopkeeper(rewritten, id).value;
    }
  }

  /**
   * The approve route answers 404 exactly when no row has the id; otherwise the
   * row it returns is approved by this admin at this time with no rejection
   * reason, whatever its status was before: there is no check of the current status.
   */
  lemma {:induction false} ApproveOutcome(rows: seq<Shopkeeper>, id: int, adminId: int, now: int)
    ensures var after := FindShopkeeper(ApproveRows(rows, id, adminId, now), id);
      && (after.None? <==> forall i :: 0 <= i < |rows| ==> rows[i].id != id)
      && (after.Some? ==> after.value == ApprovedRow(FindShopkeeper(rows, id).value, adminId, now))
  {
    FindAfterRewrite(rows, ApproveRows(rows, id, adminId, now), id);
  }

  /** The reject route's counterpart: the returned row is rejected, with this admin, time and reason. */
  lemma {:induction false} RejectOutcome(rows: seq<Shopkeeper>, id: int, adminId: int, now: int, reason: string)
    ensures var after := FindShopkeeper(RejectRows(rows, id, adminId, now, reason), id);
      && (after.None? <==> forall i :: 0 <= i < |rows| ==> rows[i].id != id)
      && (after.Some? ==> after.value == RejectedRow(FindShopkeeper(rows, id).value, adminId, now, reason))
  {
    FindAfterRewrite(rows, RejectRows(rows, id, adminId, now, reason), id);
  }

  /** Rows with another id are not touched by either transition. */
  lemma {:induction false} TransitionsLeaveOthers(rows: seq<Shopkeeper>, id: int, adminId: int, now: int, reason: string, i: int)
    requires 0 <= i < |rows| && rows[i].id != id
    ensures ApproveRows(rows, id, adminId, now)[i] == rows[i]
    ensures RejectRows(rows, id, adminId, now, reason)[i] == rows[i]
  {
  }

  /** A rejected shopkeeper can be approved afterwards and vice versa; the later transition wins and the reason is cleared. */
  lemma {:induction false} RejectThenApprove(rows: seq<Shopkeeper>, id: int, adminId: int, t1: int, t2: int, reason: string)
    ensures ApproveRows(RejectRows(rows, id, adminId, t1, reason), id, adminId, t2) == ApproveRows(rows, id, adminId, t2)
    ensures RejectRows(ApproveRows(rows, id, adminId, t1), id, adminId, t2, reason) == RejectRows(rows, id, adminId, t2, reason)
  {
  }

  method ApproveShopkeeper(db: Db, id: int, adminId: int, now: int) returns (resp: Response, shopkeeper: Option<Shopkeeper>)
    modifies db`shopkeepers
    ensures db.shopkeepers == ApproveRows(old(db.shopkeepers), id, adminId, now)
    ensures shopkeeper == FindShopkeeper(db.shopkeepers, id)
    ensures shopkeeper.None? ==> resp == Response(404, "Shopkeeper not found")
    ensures shopkeeper.Some? ==> resp == Response(200, "Shopkeeper approved successfully")
  {
    db.shopkeepers := ApproveRows(db.shopkeepers, id, adminId, now);
    shopkeeper := FindShopkeeper(db.shopkeepers, id);
    if shopkeeper.None? {
      return Response(404, "Shopkeeper not found"), shopkeeper;
    }
    resp := Response(200, "Shopkeeper approved successfully");
  }

  /** A reason JavaScript's `!reason` rejects (absent or empty) is refused before any write. */
  method RejectShopkeeper(db: Db, id: int, adminId: int, now: int, reason: Option<string>)
    returns (resp: Response, shopkeeper: Option<Shopkeeper>)
    modifies db`shopkeepers
    ensures NotificationRoutes.MissingText(reason) ==>
      && db.shopkeepers == old(db.shopkeepers) && shopkeeper.None?
      && resp == Response(400, "Rejection reason is required")
    ensures !NotificationRoutes.MissingText(reason) ==>
      && db.shopkeepers == RejectRows(old(db.shopkeepers), id, adminId, now, reason.value)
      && shopkeeper == FindShopkeeper(db.shopkeepers, id)
      && resp == (if shopkeeper.None? then Response(404, "Shopkeeper not found") else Response(200, "Shopkeeper rejected"))
  {
    if NotificationRoutes.MissingText(reason) {
      return Response(400, "Rejection reason is required"), None;
    }
    db.shopkeepers := RejectRows(db.shopkeepers, id, adminId, now, reason.value);
    shopkeeper := FindShopkeeper(db.shopkeepers, id);
    if shopkeeper.None? {
      return Response(404, "Shopkeeper not found"), shopkeeper;
    }
    resp := Response(200, "Shopkeeper rejected");
  }

  // ---------------------------------------------------------------------------
  // Listings

  /** `WHERE verification_status = ?`, in table order. */
  function WithStatus(rows: seq<Shopkeeper>, status: string): (r: seq<Shopkeeper>)
    ensures |r| <= |rows|
  {
    if rows == [] then []
    else if rows[0].status.Name() == status then [rows[0]] + WithStatus(rows[1..], status)
    else WithStatus(rows[1..], status)
  }

  lemma {:induction false} WithStatusMembers(rows: seq<Shopkeeper>, status: string, x: Shopkeeper)
    ensures x in WithStatus(rows, status) <==> x in rows && x.status.Name() == status
  {
    if rows != [] {
      WithStatusMembers(rows[1..], status, x);
      assert rows == [rows[0]] + rows[1..];
    }
  }

  /** `ORDER BY id DESC`. */
  function IdDesc(s: Shopkeeper): int
  {
    -s.id
  }

  /** The pending list. */
  function PendingList(rows: seq<Shopkeeper>): seq<Shopkeeper>
  {
    SortBy(WithStatus(rows, "pending"), IdDesc)
  }

  /** The pending list holds exactly the pending rows, each as often as in the table, with ids descending. */
  lemma {:induction false} PendingListSpec(rows: seq<Shopkeeper>)
    ensures multiset(PendingList(rows)) == multiset(WithStatus(rows, "pending"))
    ensures forall x :: x in PendingList(rows) <==> x in rows && x.status == Pending
    ensures forall i, j :: 0 <= i < j < |PendingList(rows)| ==> PendingList(rows)[i].id >= PendingList(rows)[j].id
  {
    var page := PendingList(rows);
    forall x ensures x in page <==> x in rows && x.status == Pending {
      SortByMembers(WithStatus(rows, "pending"), IdDesc, x);
      WithStatusMembers(rows, "pending", x);
    }
    SortBySorted(WithStatus(rows, "pending"), IdDesc);
    forall i, j | 0 <= i < j < |page| ensures page[i].id >= page[j].id {
      assert IdDesc(page[i]) <= IdDesc(page[j]);
    }
  }

  /** The all-shopkeepers list: filtered by `status` only when one is given (JavaScript-truthy), always ids descending. */
  function AllList(rows: seq<Shopkeeper>, status: Option<string>): seq<Shopkeeper>
  {
    var picked := if NotificationRoutes.MissingText(status) then rows else WithStatus(rows, status.value);
    SortBy(picked, IdDesc)
  }

  lemma {:induction false} AllListSpec(rows: seq<Shopkeeper>, status: Option<string>)
    ensures NotificationRoutes.MissingText(status) ==> multiset(AllList(rows, status)) == multiset(rows)
    ensures !NotificationRoutes.MissingText(status) ==>
      forall x :: x in AllList(rows, status) <==> x in rows && x.status.Name() == status.value
    ensures forall i, j :: 0 <= i < j < |AllList(rows, status)| ==> AllList(rows, status)[i].id >= AllList(rows, status)[j].id
  {
    var picked := if NotificationRoutes.MissingText(status) then rows else WithStatus(rows, status.value);
    var page := AllList(rows, status);
    if !NotificationRoutes.MissingText(status) {
      forall x ensures x in page <==> x in rows && x.status.Name() == status.value {
        SortByMembers(picked, IdDesc, x);
        WithStatusMembers(rows, status.value, x);
      }
    }
    SortBySorted(picked, IdDesc);
    forall i, j | 0 <= i < j < |page| ensures page[i].id >= page[j].id {
      assert IdDesc(page[i]) <= IdDesc(page[j]);
    }
  }

  /** Filtering by "pending" gives the pending list. */
  lemma {:induction false} AllListPendingIsPendingList(rows: seq<Shopkeeper>)
    ensures AllList(rows, Some("pending")) == PendingList(rows)
  {
  }
}
