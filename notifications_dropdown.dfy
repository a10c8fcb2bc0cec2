/**
 * The bell menu (`src/app/components/NotificationsDropdown.tsx`): the unread
 * count over the fetched page, the badge text, the relative-time label and
 * the rule that only an unread item is marked read on click. The clock and
 * the parsing of `created_at` are outside the model: labels take the elapsed
 * milliseconds.
 */
module NotificationsDropdown {
  import opened Tables
  import opened Text
  import opened Ordering
  import opened NotificationRoutes

  // ---------------------------------------------------------------------------
  // Unread count

  /** `notifications.filter(n => !n.is_read).length`. */
  function UnreadOnPage(page: seq<Notification>): nat
  {
    if page == [] then 0 else (if page[0].isRead then 0 else 1) + UnreadOnPage(page[1..])
  }

  lemma {:induction false} UnreadOnPageInsert(x: Notification, s: seq<Notification>, key: Notification -> int)
    ensures UnreadOnPage(Insert(x, s, key)) == UnreadOnPage(s) + (if x.isRead then 0 else 1)
  {
    if s != [] && key(x) > key(s[0]) {
      UnreadOnPageInsert(x, s[1..], key);
      assert ([s[0]] + Insert(x, s[1..], key))[1..] == Insert(x, s[1..], key);
    } else {
      assert ([x] + s)[1..] == s;
    }
  }

  /** Reordering the page does not change how many of its items are unread. */
  lemma {:induction false} UnreadOnPageSort(s: seq<Notification>, key: Notification -> int)
    ensures UnreadOnPage(SortBy(s, key)) == UnreadOnPage(s)
  {
    if s != [] {
      UnreadOnPageSort(s[1..], key);
      UnreadOnPageInsert(s[0], SortBy(s[1..], key), key);
    }
  }

  lemma {:induction false} UnreadOnPagePrefix(s: seq<Notification>, n: nat)
    requires n <= |s|
    ensures UnreadOnPage(s[..n]) <= UnreadOnPage(s)
  {
    if n > 0 {
      assert s[..n][1..] == s[1..][..n - 1];
      UnreadOnPagePrefix(s[1..], n - 1);
    }
  }

  /** Over all of a user's rows, the client's count is the server's unread count. */
  lemma {:induction false} UnreadOfVisible(rows: seq<Notification>, userId: int, userRole: string)
    ensures UnreadOnPage(VisibleRows(rows, userId, userRole, false)) == CountUnread(rows, userId, userRole)
  {
    if rows != [] {
      UnreadOfVisible(rows[1..], userId, userRole);
      if Visible(rows[0], userId, userRole, false) {
        assert ([rows[0]] + VisibleRows(rows[1..], userId, userRole, false))[1..] == VisibleRows(rows[1..], userId, userRole, false);
      }
    }
  }

  /**
   * The badge counts the unread items of the fetched page (the newest 50), so
   * it never exceeds the server's unread count, and equals it while the user
   * has at most 50 notifications.
   */
  lemma {:induction false} DropdownCountVersusServer(rows: seq<Notification>, userId: int, userRole: string)
    ensures UnreadOnPage(ListFor(rows, userId, userRole, false)) <= CountUnread(rows, userId, userRole)
    ensures |VisibleRows(rows, userId, userRole, false)| <= PageSize ==>
      UnreadOnPage(ListFor(rows, userId, userRole, false)) == CountUnread(rows, userId, userRole)
  {
    var v := VisibleRows(rows, userId, userRole, false);
    var sorted := SortBy(v, NewestFirst);
    UnreadOnPageSort(v, NewestFirst);
    UnreadOfVisible(rows, userId, userRole);
    var page := ListFor(rows, userId, userRole, false);
    UnreadOnPagePrefix(sorted, |page|);
    assert sorted[..|page|] == page;
    if |v| <= PageSize {
      assert sorted[..|page|] == sorted;
    }
  }

  // ---------------------------------------------------------------------------
  // Badge

  /** The badge: hidden for no unread items, the count up to 9, `9+` above. */
  function Badge(unread: int): (b: Option<string>)
    ensures b.None? <==> unread <= 0
    ensures unread > 9 ==> b == Some("9+")
    ensures 0 < unread <= 9 ==> b.Some? && |b.value| == 1 && IsDigit(b.value[0]) && DigitsValue(b.value) == unread
  {
    if unread <= 0 then None
    else if unread > 9 then Some("9+")
    else
      NatToStringRoundTrip(unread);
      Some(NatToString(unread))
  }

  // ---------------------------------------------------------------------------
  // timeAgo

  datatype Age = JustNow | MinutesAgo(minutes: nat) | HoursAgo(hours: nat) | DaysAgo(days: nat)

  /** `Math.floor(ms / 1000)`: the divisor is positive, so Dafny's division floors like JavaScript's. */
  function Seconds(elapsedMs: int): int
  {
    elapsedMs / 1000
  }

  /** The bucket `timeAgo` picks; each count is the whole number of its units in the elapsed time. */
  function AgeOf(elapsedMs: int): (a: Age)
    ensures var s := Seconds(elapsedMs);
      && (a.JustNow? <==> s < 60)
      && (a.MinutesAgo? <==> 60 <= s < 3600)
      && (a.HoursAgo? <==> 3600 <= s < 86400)
      && (a.DaysAgo? <==> 86400 <= s)
      && (a.MinutesAgo? ==> 1 <= a.minutes <= 59 && a.minutes * 60 <= s < a.minutes * 60 + 60)
      && (a.HoursAgo? ==> 1 <= a.hours <= 23 && a.hours * 3600 <= s < a.hours * 3600 + 3600)
      && (a.DaysAgo? ==> 1 <= a.days && a.days * 86400 <= s < a.days * 86400 + 86400)
  {
    var s := Seconds(elapsedMs);
    if s < 60 then JustNow
    else if s < 3600 then MinutesAgo(s / 60)
    else if s < 86400 then HoursAgo(s / 3600)
    else DaysAgo(s / 86400)
  }

  function Label(a: Age): string
  {
    match a
    case JustNow => "Just now"
    case MinutesAgo(m) => NatToString(m) + "m ago"
    case HoursAgo(h) => NatToString(h) + "h ago"
    case DaysAgo(d) => NatToString(d) + "d ago"
  }

  /** `timeAgo`. */
  function TimeAgo(elapsedMs: int): string
  {
    Label(AgeOf(elapsedMs))
  }

  lemma {:induction false} LabelNotJustNow(o: Age)
    requires !o.JustNow?
    ensures Label(o) != "Just now"
  {
    var l := Label(o);
    if o.MinutesAgo? {
      assert l[|l| - 5] == 'm';
    } else if o.HoursAgo? {
      assert l[|l| - 5] == 'h';
    } else {
      assert l[|l| - 5] == 'd';
    }
  }

  /** The order of the buckets. */
  function Rank(a: Age): nat
  {
    match a
    case JustNow => 0
    case MinutesAgo(_) => 1
    case HoursAgo(_) => 2
    case DaysAgo(_) => 3
  }

  /** An older item never gets a younger bucket, nor a smaller count within the same bucket. */
  lemma {:induction false} AgeMonotone(ms1: int, ms2: int)
    requires ms1 <= ms2
    ensures Rank(AgeOf(ms1)) <= Rank(AgeOf(ms2))
    ensures AgeOf(ms1).MinutesAgo? && AgeOf(ms2).MinutesAgo? ==> AgeOf(ms1).minutes <= AgeOf(ms2).minutes
    ensures AgeOf(ms1).HoursAgo? && AgeOf(ms2).HoursAgo? ==> AgeOf(ms1).hours <= AgeOf(ms2).hours
    ensures AgeOf(ms1).DaysAgo? && AgeOf(ms2).DaysAgo? ==> AgeOf(ms1).days <= AgeOf(ms2).days
  {
    assert Seconds(ms1) <= Seconds(ms2);
  }

  // ---------------------------------------------------------------------------
  // Click

  /** The id sent to mark-as-read when an item is clicked: only an unread item's. */
  function ClickTarget(n: Notification): (target: Option<int>)
    ensures target.Some? <==> !n.isRead
    ensures target.Some? ==> target.value == n.id
  {
    if !n.isRead then Some(n.id) else None
  }

  /** The store after a click: the mark-read route runs only when the click sends an id. */
  function AfterClick(rows: seq<Notification>, n: Notification): seq<Notification>
  {
    match ClickTarget(n)
    case None => rows
    case Some(id) => MarkReadRows(rows, id)
  }

  /**
   * Clicking a read item changes nothing; clicking an unread one makes every
   * row with its id read. Either way no unread count goes up.
   */
  lemma {:induction false} ClickEffect(rows: seq<Notification>, n: Notification, userId: int, userRole: string)
    ensures n.isRead ==> AfterClick(rows, n) == rows
    ensures !n.isRead ==> forall i :: 0 <= i < |rows| && rows[i].id == n.id ==> AfterClick(rows, n)[i].isRead
    ensures CountUnread(AfterClick(rows, n), userId, userRole) <= CountUnread(rows, userId, userRole)
  {
    if !n.isRead {
      MarkReadNeverRaisesCount(rows, n.id, userId, userRole);
    }
  }
}
