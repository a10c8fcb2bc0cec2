# Smart Village Mart: restock notifications, shop verification and page logic

Smart Village Mart is a discovery platform for village shops. Shopkeepers list
products, an admin approves or rejects each shopkeeper, and customers browse,
compare prices across shops and subscribe to "back in stock" alerts. This
project models the parts of that system with real logic, and proves their
properties in Dafny:

- **Product write routes** (`backend/routes/products_temp.js`). Adding a product
  is gated on the shopkeeper being approved. Updating a product whose stock goes
  from 0 to a positive number fans out to every subscriber who has not yet been
  notified. Each gets an in-app notification and, if their customer row exists,
  an email. Then one bulk update marks those subscriptions as notified. Deleting
  removes the row.
- **Notification routes** (`backend/routes/notification.js`). These cover the
  subscription store (subscribe, unsubscribe, check) and the notification store
  (create, list, unread count, mark one read, mark all read).
- **Admin routes** (`backend/routes/admin.js`). These cover the approve and
  reject transitions and the pending and all-shopkeepers listings.
- **Client logic**:
  - the price-comparison search and grouping (`PriceComparisonPage.tsx`);
  - the catalogue filter and sort (`ProductsPage.tsx`);
  - the notification bell's count, badge, relative time and click rule
    (`NotificationsDropdown.tsx`);
  - the assistant's keyword router (`ChatbotPage.tsx`).

The relational store is one `Db` object (`Tables.Db`), with one field per table
and an `outbox` that records every email handed to the mail service. Each SQL
statement becomes an assignment to one field, and each route is a method that
names the fields it writes. Read-only routes and client logic are functions over
table values.

The model follows the code where it differs from its evident intent:

- The in-app insert helper rethrows a storage error (`notification.js:14-17`).
  So a refused insert ends the restock loop. The route then answers 500
  "Failed to update product", after the product row was written and before any
  subscription is marked (`ProductRoutes.UpdateProduct`). The loop does not
  skip the failed subscriber and continue.
- The bulk "notified" update re-evaluates `product_id = ? AND notified = FALSE`
  when it runs. So a subscription written after the selection is marked too,
  without ever receiving a notification (`ProductRoutes.LateSubscriptionIsMarked`).
- When the price-comparison request fails, the page clears the results but
  leaves `hasSearched` set (`PriceComparison.FetchPriceComparisons`).
- The price-comparison name test lowercases the query as typed. It does not
  trim it, although the length guard does. The guard counts UTF-16 units, so
  a single emoji is already long enough to search
  (`PriceComparison.ShortQueryIff`).
- The grouping dictionary is a plain `{}`. A product whose lowercased, trimmed
  name is `constructor` or `__proto__` finds an inherited property there, so
  no group is created and the `push` throws. The page then shows no
  comparisons, with `hasSearched` set (`PriceComparison.GroupProductsByName`,
  `PriceComparison.FetchPriceComparisons`).

Two properties of the assistant's rule order:

- "show" contains "how", so a search the product rule cannot answer goes to the
  help rule at the latest (`Chatbot.ShowReachesHelpAtTheLatest`).
- "shopkeeper" contains "shop", so that word never reaches the registration
  rule (`Chatbot.ShopkeeperGoesToShops`).

Inputs that come from the world are parameters:

- the clock: `now`, and the elapsed milliseconds of a notification;
- the admin's session id;
- whether a store insert is accepted: `failAt`, the index of the first refused
  insert in the fan-out;
- the mail transport's verdict: a function whose answer the loop ignores;
- the responses of HTTP requests: `None` when a request fails.

## Model

| member | source | states |
|---|---|---|
| Text.Lower | src/app/pages/ProductsPage.tsx:48-50 | lowercasing keeps the length |
| Text.LowerIdempotent | src/app/pages/ProductsPage.tsx:48-50 | lowercasing twice is lowercasing once |
| Text.ContainsIffOccurs | src/app/pages/ProductsPage.tsx:48-50 | `includes` holds exactly when the substring occurs at some index |
| Text.ContainsEmpty | src/app/pages/ProductsPage.tsx:48-50 | every string includes the empty string |
| Text.TrimStartSpec | src/app/pages/PriceComparisonPage.tsx:99 | trimming the start removes a blank prefix and stops at the first non-space |
| Text.TrimEndSpec | src/app/pages/PriceComparisonPage.tsx:99 | trimming the end removes a blank suffix and stops at the last non-space |
| Text.TrimSpec | src/app/pages/PriceComparisonPage.tsx:99 | a trimmed string occurs in the original and neither end is white space |
| Text.TrimEmptyIffBlank | src/app/pages/ChatbotPage.tsx:46 | a string trims to empty exactly when it is all white space |
| Text.NatToString | src/app/components/NotificationsDropdown.tsx:81-83 | decimal rendering: digits only, one digit exactly below 10 |
| Text.NatToStringRoundTrip | src/app/components/NotificationsDropdown.tsx:81-83 | reading the rendered digits back gives the number |
| Ordering.Insert | src/app/pages/PriceComparisonPage.tsx:132 | insertion adds exactly one element, keeping the rest |
| Ordering.InsertSorted | src/app/pages/PriceComparisonPage.tsx:132 | inserting into a key-sorted list keeps it sorted |
| Ordering.InsertKeepsBound | src/app/pages/PriceComparisonPage.tsx:132 | inserting an element at or above a bound into a list at or above it keeps the whole list at or above it |
| Ordering.SortBy | src/app/pages/PriceComparisonPage.tsx:132 | sorting is a permutation of its input |
| Ordering.SortBySorted | src/app/pages/PriceComparisonPage.tsx:132 | the sorted list is in ascending key order |
| Ordering.SortByMembers | backend/routes/admin.js:58 | sorting neither adds nor loses elements |
| Ordering.SortByFirst | src/app/pages/PriceComparisonPage.tsx:125-132 | after sorting, the first element comes from the input and has the least key |
| Ordering.SortByLast | src/app/pages/PriceComparisonPage.tsx:125-132 | after sorting, the last element comes from the input and has the greatest key |
| Ordering.Take | backend/routes/notification.js:117 | `LIMIT n`: a prefix of length min(n, size) |
| Tables.LookupProduct | backend/routes/products_temp.js:182-184 | the row is found exactly when the id is a key, and it is that key's row |
| Tables.FindShopkeeper | backend/routes/admin.js:115-122 | no row exactly when no row has the id; otherwise the first row with that id |
| NotificationRoutes.NewNotification | backend/routes/notification.js:7-13 | the inserted row carries the given fields and is unread |
| NotificationRoutes.AppendNotificationIds | backend/routes/notification.js:10-13 | an insert appends its id to the table's id column |
| NotificationRoutes.CreateNotification | backend/routes/notification.js:7-18 | an accepted insert appends one row with the next id; a refused one changes nothing and is reported to the caller |
| NotificationRoutes.PairRows | backend/routes/notification.js:30-33 | the lookup returns no more rows than the table holds |
| NotificationRoutes.PairRowsMembers | backend/routes/notification.js:30-33 | the lookup returns exactly the rows of that (customer, product) pair |
| NotificationRoutes.UniquePairsAtMostOne | backend/routes/notification.js:35-37 | with unique pairs, a pair has at most one row |
| NotificationRoutes.NewSubscription | backend/routes/notification.js:40-44 | a new subscription is for the pair and not yet notified |
| NotificationRoutes.AppendSubscriptionIds | backend/routes/notification.js:40-44 | a subscription insert appends its id |
| NotificationRoutes.SubscribeKeepsPairsUnique | backend/routes/notification.js:35-44 | inserting only when the pair has no row keeps pairs unique |
| NotificationRoutes.Subscribe | backend/routes/notification.js:21-51 | 400 on a missing id and 400 when already subscribed, with no write; otherwise exactly one new row; pairs stay unique |
| NotificationRoutes.WithoutPair | backend/routes/notification.js:63-66 | the delete never grows the table |
| NotificationRoutes.WithoutPairMembers | backend/routes/notification.js:63-66 | the delete removes exactly the pair's rows |
| NotificationRoutes.WithoutPairKeepsIds | backend/routes/notification.js:63-66 | the remaining ids stay increasing and allocated |
| NotificationRoutes.WithoutPairKeepsUnique | backend/routes/notification.js:63-66 | the delete keeps pairs unique |
| NotificationRoutes.Unsubscribe | backend/routes/notification.js:54-73 | 400 on a missing customer id with no write; otherwise the pair's rows are deleted |
| NotificationRoutes.UnsubscribeClearsPair | backend/routes/notification.js:63-66 | after unsubscribing the pair has no row, so a new subscribe succeeds |
| NotificationRoutes.CheckSubscription | backend/routes/notification.js:76-95 | 400 exactly on a missing customer id; otherwise `subscribed` iff a row exists for the pair |
| NotificationRoutes.VisibleRows | backend/routes/notification.js:106-115 | the WHERE clause never grows the table |
| NotificationRoutes.VisibleRowsMembers | backend/routes/notification.js:106-115 | exactly the rows of the user and role, unread only when asked |
| NotificationRoutes.ListForSound | backend/routes/notification.js:98-125 | every listed row is a table row of that user and role, unread when asked |
| NotificationRoutes.ListForSize | backend/routes/notification.js:117 | the page holds min(50, matching rows) rows |
| NotificationRoutes.ListForNewestFirst | backend/routes/notification.js:117 | `created_at` never increases along the page |
| NotificationRoutes.ListForKeepsNewest | backend/routes/notification.js:117 | a matching row left off the page is no newer than any row on it |
| NotificationRoutes.GetNotifications | backend/routes/notification.js:98-125 | 400 exactly when the user id or role is missing; otherwise the listed page |
| NotificationRoutes.CountUnreadIsUnreadRows | backend/routes/notification.js:136-140 | the count is the number of unread rows of the user and role |
| NotificationRoutes.CountUnreadAppend | backend/routes/notification.js:136-140 | appending a row adds one to its owner's count if it is unread, and nothing otherwise |
| NotificationRoutes.CreateRaisesUnreadCount | backend/routes/notification.js:7-18 | a new notification raises its recipient's unread count by one and nobody else's |
| NotificationRoutes.GetUnreadCount | backend/routes/notification.js:128-147 | 400 exactly when the user id or role is missing; otherwise the unread count |
| NotificationRoutes.MarkReadRows | backend/routes/notification.js:154-157 | the update keeps the table size |
| NotificationRoutes.MarkReadIdempotent | backend/routes/notification.js:154-157 | marking twice equals marking once |
| NotificationRoutes.MarkReadUnknownId | backend/routes/notification.js:150-164 | an unknown id changes nothing |
| NotificationRoutes.MarkReadOnlyTarget | backend/routes/notification.js:154-157 | only the row with the id changes, and only its read flag |
| NotificationRoutes.MarkReadNeverRaisesCount | backend/routes/notification.js:154-157 | no unread count goes up |
| NotificationRoutes.MarkRead | backend/routes/notification.js:150-164 | the table becomes the marked table; answers 200 whether or not the id exists |
| NotificationRoutes.MarkAllReadRows | backend/routes/notification.js:175-178 | the update keeps the table size |
| NotificationRoutes.MarkAllReadCounts | backend/routes/notification.js:175-178 | afterwards the user has no unread rows and every other (user, role) keeps its count |
| NotificationRoutes.MarkAllReadOthersUnchanged | backend/routes/notification.js:175-178 | rows of other users or roles are untouched |
| NotificationRoutes.MarkAllRead | backend/routes/notification.js:167-185 | 400 with no write on a missing user id or role; otherwise the user's rows all become read |
| ProductRoutes.AddGate | backend/routes/products_temp.js:39-58 | insert iff no field is missing and the shopkeeper is approved; 400, 404 and 403 (with the current status) otherwise |
| ProductRoutes.AddProduct | backend/routes/products_temp.js:28-83 | an accepted request adds exactly one row under a fresh id; a refused one changes nothing and returns the gate's status |
| ProductRoutes.AddOnlyForApproved | backend/routes/products_temp.js:53-78 | an accepted add grows the table by one row owned by an approved shopkeeper |
| ProductRoutes.OldStock | backend/routes/products_temp.js:183 | a missing row reads as stock 0 |
| ProductRoutes.NoticeName | backend/routes/products_temp.js:184 | the stored name, or the submitted one when the row is missing or its name is empty |
| ProductRoutes.ApplyUpdate | backend/routes/products_temp.js:186-202 | only row `id` changes, its owner is kept, and its image is kept unless a file was uploaded |
| ProductRoutes.Unnotified | backend/routes/products_temp.js:209-213 | the selection never grows the table |
| ProductRoutes.UnnotifiedMembers | backend/routes/products_temp.js:209-213 | the selection holds exactly the product's not-yet-notified subscriptions |
| ProductRoutes.UnnotifiedDistinctCustomers | backend/routes/products_temp.js:209-213 | with unique pairs, no customer is selected twice |
| ProductRoutes.MarkNotified | backend/routes/products_temp.js:261-266 | the bulk update keeps the table size |
| ProductRoutes.MarkNotifiedOnlyTargets | backend/routes/products_temp.js:261-266 | exactly the product's unnotified rows are flagged, with the time, and nothing else changes |
| ProductRoutes.SecondRestockSelectsNothing | backend/routes/products_temp.js:209-266 | after the bulk update a later restock selects nobody, so no subscriber is notified twice |
| ProductRoutes.MarkNotifiedIdempotent | backend/routes/products_temp.js:261-266 | a second bulk update changes nothing, so racing updates mark each row once |
| ProductRoutes.MarkNotifiedNoop | backend/routes/products_temp.js:261-266 | with nothing unnotified the bulk update is a no-op |
| ProductRoutes.MarkNotifiedCount | backend/routes/products_temp.js:261-266 | the notified count rises by exactly the size of the selection |
| ProductRoutes.LateSubscriptionIsMarked | backend/routes/products_temp.js:209-266 | a subscription added after the selection is not selected but is marked |
| ProductRoutes.RestockMessageMentions | backend/routes/products_temp.js:236 | the message starts with the product name and includes the new stock |
| ProductRoutes.RestockNotices | backend/routes/products_temp.js:229-238 | one notification per selected subscriber |
| ProductRoutes.RestockNoticeContents | backend/routes/products_temp.js:231-238 | each notification is an unread customer notification with the restock title, message and link |
| ProductRoutes.RestockNoticeFields | backend/routes/products_temp.js:231-238 | one subscriber's notification is addressed to that customer, unread, with the restock title, the product link and a message naming the product and the stock |
| ProductRoutes.RestockNoticeRecipients | backend/routes/products_temp.js:229-238 | the k-th notification of the fan-out goes to the k-th selected subscriber |
| ProductRoutes.SelectedOnce | backend/routes/products_temp.js:209-213 | with unique pairs, a customer is selected exactly once iff they have an unnotified subscription to the product, and never otherwise |
| ProductRoutes.OneNoticePerSubscriber | backend/routes/products_temp.js:209-238 | with unique pairs, a customer gets exactly one notification iff they had an unnotified subscription |
| ProductRoutes.RestockNoticesStep | backend/routes/products_temp.js:229-238 | each pass of the loop appends that subscriber's notification |
| ProductRoutes.RestockEmails | backend/routes/products_temp.js:240-257 | no more emails than subscribers |
| ProductRoutes.RestockEmailsAddressed | backend/routes/products_temp.js:240-257 | every email goes to a subscriber's address; with all customers on record, one email each |
| ProductRoutes.RestockEmailsStep | backend/routes/products_temp.js:240-257 | each pass sends an email exactly when the customer row exists |
| ProductRoutes.Selection | backend/routes/products_temp.js:205-213 | nobody is selected unless the stock goes from 0 to positive; then exactly the unnotified subscribers |
| ProductRoutes.Processed | backend/routes/products_temp.js:229-258 | the loop finishes unless an insert is refused, and then stops at that subscriber |
| ProductRoutes.SendProductAvailableEmail | backend/services/emailService.js:81-87 | records the email and reports the transport's verdict without failing the caller |
| ProductRoutes.NotifyOne | backend/routes/products_temp.js:229-257 | one pass of the loop: an accepted insert appends that subscriber's notification under the next id, and an email goes out iff the customer row exists; a refused insert changes nothing |
| ProductRoutes.NotifyNext | backend/routes/products_temp.js:229-258 | pass `done` turns the notifications and emails of the first `done` subscribers into those of the first `done + 1`, or changes nothing when the insert is refused |
| ProductRoutes.NotifyStep | backend/routes/products_temp.js:229-257 | adding subscriber i's notification and email to those of the first i subscribers gives those of the first i + 1 |
| ProductRoutes.NoticesAppendStep | backend/routes/products_temp.js:229-238 | the notifications of one more subscriber extend the earlier ones by exactly that subscriber's notification |
| ProductRoutes.EmailsAppendStep | backend/routes/products_temp.js:240-257 | the emails of one more subscriber extend the earlier ones by exactly that subscriber's email, if any |
| ProductRoutes.NotifySubscribers | backend/routes/products_temp.js:229-258 | the processed subscribers' notifications, with consecutive ids, and their emails are appended, whatever the transport answers |
| ProductRoutes.FanOut | backend/routes/products_temp.js:209-266 | the processed prefix of the unnotified selection is notified with consecutive ids and emailed; it fails iff an insert was refused; the bulk mark runs only when the selection is non-empty and nothing failed |
| ProductRoutes.UpdateProduct | backend/routes/products_temp.js:177-277 | the row is written; on a restock the selection is notified and then marked; a refused insert gives 500 with nothing marked |
| ProductRoutes.MarkNotifiedKeepsIds | backend/routes/products_temp.js:261-266 | the bulk update keeps the id column |
| ProductRoutes.DeleteProduct | backend/routes/products_temp.js:280-288 | the route deletes only the products row; subscriptions and notifications naming it are kept, assuming the `product_notifications` schema has no cascading key (that schema is not part of this model) |
| AdminRoutes.ApprovedRow | backend/routes/admin.js:105-112 | the row is approved by this admin at this time with no reason, and keeps its identity |
| AdminRoutes.RejectedRow | backend/routes/admin.js:146-153 | the row is rejected by this admin at this time with the reason, and keeps its identity |
| AdminRoutes.ApproveRows | backend/routes/admin.js:105-112 | the update keeps the table size |
| AdminRoutes.RejectRows | backend/routes/admin.js:146-153 | the update keeps the table size |
| AdminRoutes.FindAfterRewrite | backend/routes/admin.js:115-122 | rewriting rows in place keeps which row the lookup finds |
| AdminRoutes.ApproveOutcome | backend/routes/admin.js:99-132 | 404 exactly when no row has the id; otherwise the returned row is the approved version of the found row, whatever its status was |
| AdminRoutes.RejectOutcome | backend/routes/admin.js:135-173 | 404 exactly when no row has the id; otherwise the returned row is the rejected version of the found row |
| AdminRoutes.TransitionsLeaveOthers | backend/routes/admin.js:111 | rows with another id are untouched |
| AdminRoutes.RejectThenApprove | backend/routes/admin.js:105-153 | the later transition wins and replaces the reason |
| AdminRoutes.ApproveShopkeeper | backend/routes/admin.js:99-132 | the table is rewritten, then 404 or 200 with the row |
| AdminRoutes.RejectShopkeeper | backend/routes/admin.js:135-173 | a missing reason gives 400 with no write; otherwise the rewrite, then 404 or 200 |
| AdminRoutes.WithStatus | backend/routes/admin.js:83-86 | the filter never grows the table |
| AdminRoutes.WithStatusMembers | backend/routes/admin.js:83-86 | exactly the rows with that status |
| AdminRoutes.PendingListSpec | backend/routes/admin.js:49-66 | exactly the pending rows, each as often as in the table, ids descending |
| AdminRoutes.AllListSpec | backend/routes/admin.js:69-96 | all rows without a status, exactly that status's rows with one; ids descending |
| AdminRoutes.AllListPendingIsPendingList | backend/routes/admin.js:69-96 | filtering by "pending" yields the pending list |
| PriceComparison.FilterForComparison | src/app/pages/PriceComparisonPage.tsx:68-73 | the filter never adds rows |
| PriceComparison.FilterForComparisonMembers | src/app/pages/PriceComparisonPage.tsx:68-73 | exactly the rows passing the name test (skipped for a query shorter than 2 UTF-16 units after trimming) and the category test |
| PriceComparison.ShortQueryFiltersByCategoryOnly | src/app/pages/PriceComparisonPage.tsx:69-71 | a query shorter than 2 UTF-16 units after trimming filters by category alone |
| PriceComparison.Utf16Length | src/app/pages/PriceComparisonPage.tsx:56 | `length` in UTF-16 units: at least the number of characters and at most twice it |
| PriceComparison.ShortQueryIff | src/app/pages/PriceComparisonPage.tsx:56 | a query is short exactly when, trimmed, it is empty or one character of the Basic Multilingual Plane; one emoji is not short |
| PriceComparison.OrDefault | src/app/pages/PriceComparisonPage.tsx:113-114 | a missing or empty text takes the fallback |
| PriceComparison.GroupOf | src/app/pages/PriceComparisonPage.tsx:98-119 | a group, once created, has at least one shop (for keys `{}` does not inherit; `GroupProductsByName` handles the others) |
| PriceComparison.Keys | src/app/pages/PriceComparisonPage.tsx:96-108 | each key present once, exactly the keys with a group |
| PriceComparison.Grouped | src/app/pages/PriceComparisonPage.tsx:122 | one value per key |
| PriceComparison.GroupOfExists | src/app/pages/PriceComparisonPage.tsx:99-108 | a key has a group exactly when some product carries it |
| PriceComparison.GroupHeaderIsFirst | src/app/pages/PriceComparisonPage.tsx:101-108 | a group's id, name and category come from its key's first product |
| PriceComparison.GroupOfStep | src/app/pages/PriceComparisonPage.tsx:99-118 | visiting product i creates its key's group with that product's header if the key is new, then appends its offer; every other key's group is unchanged |
| PriceComparison.OfferInItsGroup | src/app/pages/PriceComparisonPage.tsx:110-118 | every product's offer is in its key's group |
| PriceComparison.TotalAppend | src/app/pages/PriceComparisonPage.tsx:110-118 | counting shop entries distributes over appending a group |
| PriceComparison.TotalUpdate | src/app/pages/PriceComparisonPage.tsx:110-118 | replacing one group changes the count by the size difference |
| PriceComparison.GroupedSnocKnown | src/app/pages/PriceComparisonPage.tsx:110-122 | a product whose key is known changes only that key's group in the list of groups |
| PriceComparison.GroupedSnocNew | src/app/pages/PriceComparisonPage.tsx:101-122 | a product with a new key appends one group to the list of groups |
| PriceComparison.GroupedTotal | src/app/pages/PriceComparisonPage.tsx:95-119 | there are as many shop entries as products: none dropped or duplicated |
| PriceComparison.MinPrice | src/app/pages/PriceComparisonPage.tsx:126 | a lower bound of the prices that some shop attains |
| PriceComparison.MaxPrice | src/app/pages/PriceComparisonPage.tsx:127 | an upper bound of the prices that some shop attains |
| PriceComparison.SortedFirstIsCheapest | src/app/pages/PriceComparisonPage.tsx:126-132 | after the sort the first shop has the lowest price |
| PriceComparison.SortedLastIsDearest | src/app/pages/PriceComparisonPage.tsx:127-132 | after the sort the last shop has the highest price |
| PriceComparison.SummarizeShops | src/app/pages/PriceComparisonPage.tsx:132-140 | a summary keeps the group's header and lists its shops as a permutation, cheapest first |
| PriceComparison.SummarizePrices | src/app/pages/PriceComparisonPage.tsx:125-128 | lowest and highest bound every price and are the first and last shops' prices; the difference is their non-negative gap |
| PriceComparison.Summaries | src/app/pages/PriceComparisonPage.tsx:123-141 | no more comparisons than groups |
| PriceComparison.SummariesMembers | src/app/pages/PriceComparisonPage.tsx:123-141 | exactly the summaries of the groups with more than one shop |
| PriceComparison.ComparisonsFromGroups | src/app/pages/PriceComparisonPage.tsx:122-141 | each comparison is some key's group summarised, with at least two shops |
| PriceComparison.VisitTracks | src/app/pages/PriceComparisonPage.tsx:98-119 | one pass of the `forEach` keeps the dictionary and its key order equal to the groups of the products seen so far |
| PriceComparison.Visit | src/app/pages/PriceComparisonPage.tsx:99-118 | the `forEach` body for a product whose key `{}` does not inherit keeps every scanned key uninherited and the dictionary tracking one more product |
| PriceComparison.Values | src/app/pages/PriceComparisonPage.tsx:122 | `Object.values` lists one group per key, in key-insertion order |
| PriceComparison.TracksComparisons | src/app/pages/PriceComparisonPage.tsx:122-143 | a dictionary that tracks all the products yields exactly their comparisons |
| PriceComparison.ScannedAll | src/app/pages/PriceComparisonPage.tsx:98-143 | a loop that runs to the end met no inherited key and returns exactly the comparisons |
| PriceComparison.InheritedKeyAt | src/app/pages/PriceComparisonPage.tsx:99-110 | a product whose key is inherited is one on which the loop throws |
| PriceComparison.TracksValues | src/app/pages/PriceComparisonPage.tsx:122 | reading the dictionary in key-insertion order (`Object.values`) gives exactly the list of groups |
| PriceComparison.GroupsToComparisons | src/app/pages/PriceComparisonPage.tsx:122-141 | every key carried by two or more products has its comparison |
| PriceComparison.GroupProductsByName | src/app/pages/PriceComparisonPage.tsx:95-143 | the dictionary-filling loop throws exactly when some product's key is `constructor` or `__proto__`, which `{}` inherits; otherwise it returns exactly the comparisons of the products |
| PriceComparison.FetchPriceComparisons | src/app/pages/PriceComparisonPage.tsx:54-84 | a short query with every category clears without searching; a failed request, or a filtered row whose key is inherited by `{}`, clears with `hasSearched`; otherwise the comparisons of the filtered rows |
| ProductsPage.Filter | src/app/pages/ProductsPage.tsx:47-54 | the filter never adds products |
| ProductsPage.FilterMembers | src/app/pages/ProductsPage.tsx:47-54 | exactly the products whose name includes the query and whose category matches |
| ProductsPage.EmptySearchKeepsAll | src/app/pages/ProductsPage.tsx:47-54 | an empty query with "all" keeps the whole catalogue in order |
| ProductsPage.FilteredProductsSpec | src/app/pages/ProductsPage.tsx:46-59 | the filtered products, as a permutation, by ascending price for "price-low" and descending for "price-high" |
| ProductsPage.FilteredProductsMembers | src/app/pages/ProductsPage.tsx:46-59 | a product is shown exactly when it is in the feed and matches |
| NotificationsDropdown.UnreadOnPageInsert | src/app/components/NotificationsDropdown.tsx:46 | inserting an item adds one to the unread count exactly when it is unread |
| NotificationsDropdown.UnreadOnPageSort | src/app/components/NotificationsDropdown.tsx:46 | reordering does not change the unread count |
| NotificationsDropdown.UnreadOnPagePrefix | src/app/components/NotificationsDropdown.tsx:46 | a prefix has no more unread items than the whole |
| NotificationsDropdown.UnreadOfVisible | src/app/components/NotificationsDropdown.tsx:46 | over all of a user's rows the client count equals the server's unread count |
| NotificationsDropdown.DropdownCountVersusServer | src/app/components/NotificationsDropdown.tsx:41-47 | the bell's count never exceeds the server's unread count, and equals it with at most 50 notifications |
| NotificationsDropdown.Badge | src/app/components/NotificationsDropdown.tsx:97-100 | hidden iff nothing is unread; "9+" above 9; otherwise the one digit of the count |
| NotificationsDropdown.AgeOf | src/app/components/NotificationsDropdown.tsx:75-84 | the bucket matches the elapsed seconds and its count is the whole number of units elapsed |
| NotificationsDropdown.LabelNotJustNow | src/app/components/NotificationsDropdown.tsx:80-83 | a counted label is never "Just now" |
| NotificationsDropdown.AgeMonotone | src/app/components/NotificationsDropdown.tsx:78-83 | an older item never gets a younger bucket or a smaller count |
| NotificationsDropdown.ClickTarget | src/app/components/NotificationsDropdown.tsx:147-151 | a click sends the item's id exactly when it is unread |
| NotificationsDropdown.ClickEffect | src/app/components/NotificationsDropdown.tsx:147-151 | clicking a read item changes nothing; clicking an unread one marks its rows read; no count goes up |
| Chatbot.FirstFound | src/app/pages/ChatbotPage.tsx:74 | no index exactly when no word occurs; otherwise the first word in list order that occurs |
| Chatbot.NameMatches | src/app/pages/ChatbotPage.tsx:79-81 | the filter never adds products |
| Chatbot.NameMatchesMembers | src/app/pages/ChatbotPage.tsx:79-81 | exactly the products whose lowercased name includes the keyword |
| Chatbot.SearchProducts | src/app/pages/ChatbotPage.tsx:72-97 | answers exactly when a search word, a first keyword and a matching catalogue product exist; 1 to 3 cards |
| Chatbot.GetBotResponse | src/app/pages/ChatbotPage.tsx:68-222 | the reply comes from a rule that applies to the lowercased message: the product search, a keyword list, or the default |
| Chatbot.NoEarlierRuleFires | src/app/pages/ChatbotPage.tsx:68-222 | no rule tested before the answering one applies to the lowercased message, so the reply is the first applicable rule's |
| Chatbot.GetBotResponseContents | src/app/pages/ChatbotPage.tsx:72-211 | cards are the first at most 3 matches of the first keyword; the category is the first one named, present iff one is; the greeting names the user |
| Chatbot.CaseInsensitive | src/app/pages/ChatbotPage.tsx:69 | a message and its lowercase get the same reply |
| Chatbot.ContainsTail | src/app/pages/ChatbotPage.tsx:190 | a message including a word includes every tail of it |
| Chatbot.ShowReachesHelpAtTheLatest | src/app/pages/ChatbotPage.tsx:72-199 | a message with "show" is answered by the help rule at the latest |
| Chatbot.ShopkeeperGoesToShops | src/app/pages/ChatbotPage.tsx:100-167 | a message with "shopkeeper" is answered by the product or shop rule, never the sign-up reply |
| Chatbot.SendMessage | src/app/pages/ChatbotPage.tsx:44-66 | a blank input changes nothing; otherwise the input and then its reply are appended and the box is cleared (the reply's one-second delay is left out) |

## Left out

- Letter case: `toLowerCase` is modelled on ASCII letters only. Other characters are kept as they are.
- ProductsPage.FilteredProducts: the default sort by `localeCompare` on names is not modelled; the filtered order is kept instead. Locale collation is not expressible here.
- PriceComparison.Comparisons: `savingsPercentage` is left out. It uses floating-point division and `toFixed`. The final sort by it is left out too, so the comparisons come in key insertion order.
- PriceComparison.SummarizeShops: the in-place `shops.sort` is modelled on values, as a sort of the shop list. Aliasing of the group object is not captured.
- `Object.values` ordering is modelled as key insertion order. JavaScript lists integer-like keys first, in numeric order.
- JavaScript number coercion is left out. Form and query values are modelled as already-parsed integers. In the add and subscription routes a missing or empty one is `None`. Prices are whole units rather than floats.
- ProductRoutes.UpdateProduct: the PUT body's fields are assumed present and parsed. A missing field binds `undefined`, which the source writes as NULL and which fails `stock > 0`; that case is not modelled.
- Storage failures are modelled only for the in-app insert inside the restock loop. All other statements are assumed to succeed. The routes' generic 500 replies for those failures are not modelled.
- Concurrency is left out. Interleavings of two restocks are covered only through the idempotence and selection lemmas on the bulk update.
- File uploads are left out. An uploaded image is given as its stored path.
- Authentication is left out. The admin's id is a parameter.
- The mail service's HTML body and SMTP transport are left out. An email is recorded with its fields, and the transport's answer is a parameter that the loop ignores.
- `Date` parsing and the clock are left out. The relative time takes the elapsed milliseconds, and routes take `now`.
- Polling every 30 seconds, the debounce delay, loading flags and rendering are left out.
- Chatbot.SendMessage: the input and its reply are appended in one step. In the page the reply arrives in a separate state update one second later, and only the send button (disabled on blank text) guards sending. A second message sent within that second lands between an input and its reply; the model does not capture that interleaving.
- The assistant's fixed reply texts, ids and timestamps are left out. Only what varies (keyword, products, category, user name) is kept.
- `filteredComparisons`, the page's second filter at render time, is left out.
- MySQL's case-insensitive collation is left out; the model compares text exactly. This affects these members:
- AdminRoutes.WithStatus: the status filter matches only the exact status name, where MySQL would also match `Pending` to `pending`.
- NotificationRoutes.Visible: `user_role = ?` is compared exactly, so a request with `Customer` lists nothing in the model but the user's rows in the source. The same holds for NotificationRoutes.VisibleRows, NotificationRoutes.CountUnread and NotificationRoutes.MarkAllReadRows, which use the same test.
- The read-only product routes are not part of this model: the catalogue, the comparison feed and a single product.
- The front end's counter refresh after marking an item read is left out. The model states the effect on the store.
