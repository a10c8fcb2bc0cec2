/**
 * The price-comparison page (`src/app/pages/PriceComparisonPage.tsx`): the
 * search guard and filter of `fetchPriceComparisons`, and
 * `groupProductsByName`, which groups the offers of one product name across
 * shops and summarises each group's prices. Prices are whole paise.
 */
module PriceComparison {
  import opened Tables
  import opened Text
  import opened Ordering

  /** A row of the comparison feed: a product joined with its shop. */
  datatype CompareRow = CompareRow(
    id: int, name: string, category: string, price: int, stock: int, image: Option<string>,
    shopId: int, shopName: string, shopAddress: Option<string>, shopPhone: Option<string>)

  /** One shop's entry in a group. */
  datatype ShopOffer = ShopOffer(
    shopId: int, shopName: string, shopAddress: string, shopPhone: string,
    price: int, stock: int, image: Option<string>)

  /** A group being built: id, name and category of its first product, and every shop offering it. */
  datatype Group = Group(id: int, name: string, category: string, shops: seq<ShopOffer>)

  /** A returned group with its price statistics. */
  datatype Comparison = Comparison(
    id: int, name: string, category: string, shops: seq<ShopOffer>,
    lowestPrice: int, highestPrice: int, priceDifference: int)

  // ---------------------------------------------------------------------------
  // Search guard and filter

  /**
   * JavaScript's `length`: UTF-16 code units, so a character outside the
   * Basic Multilingual Plane (a surrogate pair) counts twice.
   */
  function Utf16Length(s: string): (n: nat)
    ensures |s| <= n <= 2 * |s|
  {
    if s == [] then 0 else (if s[0] as int >= 0x1_0000 then 2 else 1) + Utf16Length(s[1..])
  }

  /** `!query || query.trim().length < 2`. */
  predicate ShortQuery(query: string)
  {
    Utf16Length(Trim(query)) < 2
  }

  /** A query is short exactly when, trimmed, it is empty or one character of the Basic Multilingual Plane. */
  lemma {:induction false} ShortQueryIff(query: string)
    ensures ShortQuery(query) <==> Trim(query) == [] || (|Trim(query)| == 1 && Trim(query)[0] as int < 0x1_0000)
  {
    var t := Trim(query);
    if |t| >= 2 {
      assert Utf16Length(t) >= |t|;
    } else if |t| == 1 {
      assert t[1..] == [];
    }
  }

  /** The filter of `fetchPriceComparisons`; the name test uses the query as typed, untrimmed. */
  predicate KeepForComparison(p: CompareRow, query: string, category: string)
  {
    && (ShortQuery(query) || Contains(Lower(p.name), Lower(query)))
    && (category == "all" || p.category == category)
  }

  function FilterForComparison(rows: seq<CompareRow>, query: string, category: string): (r: seq<CompareRow>)
    ensures |r| <= |rows|
  {
    if rows == [] then []
    else if KeepForComparison(rows[0], query, category) then [rows[0]] + FilterForComparison(rows[1..], query, category)
    else FilterForComparison(rows[1..], query, category)
  }

  /** The filter keeps exactly the rows that pass both tests. */
  lemma {:induction false} FilterForComparisonMembers(rows: seq<CompareRow>, query: string, category: string, x: CompareRow)
    ensures x in FilterForComparison(rows, query, category) <==> x in rows && KeepForComparison(x, query, category)
  {
    if rows != [] {
      FilterForComparisonMembers(rows[1..], query, category, x);
      assert rows == [rows[0]] + rows[1..];
    }
  }

  /** A short query with a named category keeps exactly that category's rows, whatever their names. */
  lemma {:induction false} ShortQueryFiltersByCategoryOnly(rows: seq<CompareRow>, query: string, category: string, x: CompareRow)
    requires ShortQuery(query)
    ensures x in FilterForComparison(rows, query, category) <==> x in rows && (category == "all" || x.category == category)
  {
    FilterForComparisonMembers(rows, query, category, x);
  }

  // ---------------------------------------------------------------------------
  // Grouping

  /** `product.name.toLowerCase().trim()`. */
  function GroupKey(name: string): string
  {
    Trim(Lower(name))
  }

  /** `x || fallback` on a text column: `null` and the empty string both take the fallback. */
  function OrDefault(o: Option<string>, fallback: string): (r: string)
    ensures o.Some? && o.value != "" ==> r == o.value
    ensures o.None? || o.value == "" ==> r == fallback
  {
    if o.Some? && o.value != "" then o.value else fallback
  }

  /** The shop entry pushed for a product. */
  function Offer(p: CompareRow): ShopOffer
  {
    ShopOffer(p.shopId, p.shopName, OrDefault(p.shopAddress, "Address not available"), OrDefault(p.shopPhone, "N/A"),
              p.price, p.stock, p.image)
  }

  /**
   * The entry `grouped[k]` holds after the products `s` were visited: created
   * from the first product with key `k`, then extended by one offer per product.
   */
  function GroupOf(s: seq<CompareRow>, k: string): (g: Option<Group>)
    ensures g.Some? ==> |g.value.shops| >= 1
  {
    if s == [] then None
    else
      var p := s[|s| - 1];
      var g := GroupOf(s[..|s| - 1], k);
      if GroupKey(p.name) != k then g
      else if g.None? then Some(Group(p.id, p.name, p.category, [Offer(p)]))
      else Some(g.value.(shops := g.value.shops + [Offer(p)]))
  }

  /** The keys of `grouped` in insertion order: each key once, at its first product. */
  function Keys(s: seq<CompareRow>): (ks: seq<string>)
    ensures forall k :: k in ks <==> GroupOf(s, k).Some?
    ensures forall a, b :: 0 <= a < b < |ks| ==> ks[a] != ks[b]
  {
    if s == [] then []
    else
      var ks := Keys(s[..|s| - 1]);
      var k := GroupKey(s[|s| - 1].name);
      if k in ks then ks else ks + [k]
  }

  /** `Object.values(grouped)`, in key insertion order. */
  function Grouped(s: seq<CompareRow>): (gs: seq<Group>)
    ensures |gs| == |Keys(s)|
  {
    var ks := Keys(s);
    seq(|ks|, j requires 0 <= j < |ks| => GroupOf(s, ks[j]).value)
  }

  /** Some product in `s` carries the key `k`. */
  ghost predicate KeyOccurs(s: seq<CompareRow>, k: string)
  {
    exists j :: 0 <= j < |s| && GroupKey(s[j].name) == k
  }

  lemma {:induction false} KeyOccursSnoc(s: seq<CompareRow>, k: string)
    requires s != []
    ensures KeyOccurs(s, k) <==> KeyOccurs(s[..|s| - 1], k) || GroupKey(s[|s| - 1].name) == k
  {
    var init := s[..|s| - 1];
    if KeyOccurs(s, k) && GroupKey(s[|s| - 1].name) != k {
      var j :| 0 <= j < |s| && GroupKey(s[j].name) == k;
      assert init[j] == s[j];
    }
    if KeyOccurs(init, k) {
      var j :| 0 <= j < |init| && GroupKey(init[j].name) == k;
      assert s[j] == init[j];
    }
  }

  /** A product's key has a group exactly when some product carries that key. */
  lemma {:induction false} GroupOfExists(s: seq<CompareRow>, k: string)
    ensures GroupOf(s, k).Some? <==> KeyOccurs(s, k)
  {
    if s != [] {
      GroupOfExists(s[..|s| - 1], k);
      KeyOccursSnoc(s, k);
    }
  }

  /** A group's id, name and category are those of the first product with its key. */
  lemma {:induction false} GroupHeaderIsFirst(s: seq<CompareRow>, k: string)
    requires GroupOf(s, k).Some?
    ensures var g := GroupOf(s, k).value;
      exists j :: (0 <= j < |s| && GroupKey(s[j].name) == k
                   && (forall i :: 0 <= i < j ==> GroupKey(s[i].name) != k)
                   && g.id == s[j].id && g.name == s[j].name && g.category == s[j].category)
  {
    var init := s[..|s| - 1];
    var g := GroupOf(s, k).value;
    if GroupOf(init, k).Some? {
      GroupHeaderIsFirst(init, k);
      var j :| (0 <= j < |init| && GroupKey(init[j].name) == k
                && (forall i :: 0 <= i < j ==> GroupKey(init[i].name) != k)
                && GroupOf(init, k).value.id == init[j].id && GroupOf(init, k).value.name == init[j].name
                && GroupOf(init, k).value.category == init[j].category);
      assert s[j] == init[j];
      assert forall i :: 0 <= i < j ==> s[i] == init[i];
    } else {
      GroupOfExists(init, k);
      assert forall i :: 0 <= i < |init| ==> s[i] == init[i];
    }
  }

  /** Every product's offer lands in the group of its own key. */
  lemma {:induction false} OfferInItsGroup(s: seq<CompareRow>, j: int)
    requires 0 <= j < |s|
    ensures GroupOf(s, GroupKey(s[j].name)).Some?
    ensures Offer(s[j]) in GroupOf(s, GroupKey(s[j].name)).value.shops
  {
    var init := s[..|s| - 1];
    var k := GroupKey(s[j].name);
    if j < |init| {
      assert init[j] == s[j];
      OfferInItsGroup(init, j);
    }
  }

  /** The number of shop entries over a list of groups. */
  function Total(gs: seq<Group>): nat
  {
    if gs == [] then 0 else |gs[0].shops| + Total(gs[1..])
  }

  lemma {:induction false} TotalAppend(gs: seq<Group>, g: Group)
    ensures Total(gs + [g]) == Total(gs) + |g.shops|
  {
    if gs != [] {
      assert (gs + [g])[1..] == gs[1..] + [g];
      TotalAppend(gs[1..], g);
    }
  }

  lemma {:induction false} TotalUpdate(gs: seq<Group>, m: int, g: Group)
    requires 0 <= m < |gs|
    ensures Total(gs[m := g]) == Total(gs) - |gs[m].shops| + |g.shops|
  {
    if m > 0 {
      assert gs[m := g][1..] == gs[1..][m - 1 := g];
      TotalUpdate(gs[1..], m - 1, g);
    }
  }

  /** A product whose key is already present extends that key's group in place. */
  lemma {:induction false} GroupedSnocKnown(s: seq<CompareRow>, m: int)
    requires s != [] && 0 <= m < |Keys(s[..|s| - 1])|
    requires Keys(s[..|s| - 1])[m] == GroupKey(s[|s| - 1].name)
    ensures Grouped(s) == Grouped(s[..|s| - 1])[m := GroupOf(s, GroupKey(s[|s| - 1].name)).value]
  {
    var ks0 := Keys(s[..|s| - 1]);
    var k := GroupKey(s[|s| - 1].name);
    forall j | 0 <= j < |ks0| ensures Grouped(s)[j] == Grouped(s[..|s| - 1])[m := GroupOf(s, k).value][j] {
      if j != m { assert ks0[j] != k; }
    }
  }

  /** A product with a new key appends a new group. */
  lemma {:induction false} GroupedSnocNew(s: seq<CompareRow>)
    requires s != [] && GroupKey(s[|s| - 1].name) !in Keys(s[..|s| - 1])
    ensures Grouped(s) == Grouped(s[..|s| - 1]) + [GroupOf(s, GroupKey(s[|s| - 1].name)).value]
  {
    var ks0 := Keys(s[..|s| - 1]);
    var k := GroupKey(s[|s| - 1].name);
    assert Keys(s) == ks0 + [k];
    forall j | 0 <= j < |ks0| ensures Grouped(s)[j] == Grouped(s[..|s| - 1])[j] {
      assert ks0[j] != k;
    }
  }

  /** Grouping neither drops nor duplicates: there are as many shop entries as products. */
  lemma {:induction false} GroupedTotal(s: seq<CompareRow>)
    ensures Total(Grouped(s)) == |s|
  {
    if s != [] {
      var init := s[..|s| - 1];
      var k := GroupKey(s[|s| - 1].name);
      var ks0 := Keys(init);
      GroupedTotal(init);
      if k in ks0 {
        var m :| 0 <= m < |ks0| && ks0[m] == k;
        GroupedSnocKnown(s, m);
        TotalUpdate(Grouped(init), m, GroupOf(s, k).value);
      } else {
        GroupedSnocNew(s);
        TotalAppend(Grouped(init), GroupOf(s, k).value);
      }
    }
  }

  // ---------------------------------------------------------------------------
  // Price statistics

  function PriceOf(o: ShopOffer): int
  {
    o.price
  }

  /** `Math.min(...prices)`. */
  function MinPrice(shops: seq<ShopOffer>): (m: int)
    requires |shops| >= 1
    ensures forall i :: 0 <= i < |shops| ==> m <= shops[i].price
    ensures exists i :: 0 <= i < |shops| && shops[i].price == m
  {
    if |shops| == 1 then shops[0].price
    else
      var rest := MinPrice(shops[1..]);
      assert forall i :: 1 <= i < |shops| ==> shops[i] == shops[1..][i - 1];
      if shops[0].price <= rest then shops[0].price else rest
  }

  /** `Math.max(...prices)`. */
  function MaxPrice(shops: seq<ShopOffer>): (m: int)
    requires |shops| >= 1
    ensures forall i :: 0 <= i < |shops| ==> shops[i].price <= m
    ensures exists i :: 0 <= i < |shops| && shops[i].price == m
  {
    if |shops| == 1 then shops[0].price
    else
      var rest := MaxPrice(shops[1..]);
      assert forall i :: 1 <= i < |shops| ==> shops[i] == shops[1..][i - 1];
      if shops[0].price >= rest then shops[0].price else rest
  }

  /** The `map` step: statistics over the group's prices, shops sorted cheapest first. */
  function Summarize(g: Group): Comparison
    requires |g.shops| >= 1
  {
    var low := MinPrice(g.shops);
    var high := MaxPrice(g.shops);
    Comparison(g.id, g.name, g.category, SortBy(g.shops, PriceOf), low, high, high - low)
  }

  /** After sorting by price the first shop is a cheapest one. */
  lemma {:induction false} SortedFirstIsCheapest(shops: seq<ShopOffer>)
    requires |shops| >= 1
    ensures SortBy(shops, PriceOf)[0].price == MinPrice(shops)
  {
    var sorted := SortBy(shops, PriceOf);
    SortByFirst(shops, PriceOf);
    var lo :| 0 <= lo < |shops| && shops[lo].price == MinPrice(shops);
    assert shops[lo] in shops;
    var m :| 0 <= m < |shops| && shops[m] == sorted[0];
    assert MinPrice(shops) <= shops[m].price;
  }

  /** After sorting by price the last shop is a dearest one. */
  lemma {:induction false} SortedLastIsDearest(shops: seq<ShopOffer>)
    requires |shops| >= 1
    ensures Last(SortBy(shops, PriceOf)).price == MaxPrice(shops)
  {
    var last := Last(SortBy(shops, PriceOf));
    SortByLast(shops, PriceOf);
    var hi :| 0 <= hi < |shops| && shops[hi].price == MaxPrice(shops);
    assert shops[hi] in shops;
    var m :| 0 <= m < |shops| && shops[m] == last;
    assert shops[m].price <= MaxPrice(shops);
  }

  /** A summary lists the group's shops, each as often as the group does, cheapest first. */
  lemma {:induction false} SummarizeShops(g: Group)
    requires |g.shops| >= 1
    ensures var c := Summarize(g);
      && c.id == g.id && c.name == g.name && c.category == g.category
      && multiset(c.shops) == multiset(g.shops)
      && forall i, j :: 0 <= i < j < |c.shops| ==> c.shops[i].price <= c.shops[j].price
  {
    SortBySorted(g.shops, PriceOf);
  }

  /**
   * A summary's lowest and highest prices bound every shop's price and are the
   * first and last listed shops' prices; the difference is their gap and is
   * never negative.
   */
  lemma {:induction false} SummarizePrices(g: Group)
    requires |g.shops| >= 1
    ensures var c := Summarize(g);
      && (forall i :: 0 <= i < |g.shops| ==> c.lowestPrice <= g.shops[i].price <= c.highestPrice)
      && c.shops[0].price == c.lowestPrice && c.shops[|c.shops| - 1].price == c.highestPrice
      && c.priceDifference == c.highestPrice - c.lowestPrice && c.priceDifference >= 0
  {
    SortedFirstIsCheapest(g.shops);
    SortedLastIsDearest(g.shops);
  }

  /** The `filter` and `map` steps: groups offered by one shop only are dropped. */
  function Summaries(gs: seq<Group>): (cs: seq<Comparison>)
    ensures |cs| <= |gs|
  {
    if gs == [] then []
    else if |gs[0].shops| > 1 then [Summarize(gs[0])] + Summaries(gs[1..])
    else Summaries(gs[1..])
  }

  /** Some group of `gs` with more than one shop summarises to `c`. */
  ghost predicate SummaryOfSome(gs: seq<Group>, c: Comparison)
  {
    exists i :: 0 <= i < |gs| && |gs[i].shops| > 1 && c == Summarize(gs[i])
  }

  lemma {:induction false} SummaryOfSomeCons(gs: seq<Group>, c: Comparison)
    requires gs != []
    ensures SummaryOfSome(gs, c) <==> (|gs[0].shops| > 1 && c == Summarize(gs[0])) || SummaryOfSome(gs[1..], c)
  {
    var tail := gs[1..];
    if SummaryOfSome(tail, c) {
      var i :| 0 <= i < |tail| && |tail[i].shops| > 1 && c == Summarize(tail[i]);
      assert gs[i + 1] == tail[i];
    }
    if SummaryOfSome(gs, c) {
      var i :| 0 <= i < |gs| && |gs[i].shops| > 1 && c == Summarize(gs[i]);
      if i > 0 { assert gs[i] == tail[i - 1]; }
    }
  }

  lemma {:induction false} SummariesMembers(gs: seq<Group>, c: Comparison)
    ensures c in Summaries(gs) <==> SummaryOfSome(gs, c)
  {
    if gs != [] {
      SummariesMembers(gs[1..], c);
      SummaryOfSomeCons(gs, c);
    }
  }

  /** What `groupProductsByName` returns, before the ordering by savings. */
  function Comparisons(s: seq<CompareRow>): seq<Comparison>
  {
    Summaries(Grouped(s))
  }

  /** Each returned comparison is some key's group summarised, and lists at least two shops. */
  lemma {:induction false} ComparisonsFromGroups(s: seq<CompareRow>, c: Comparison)
    requires c in Comparisons(s)
    ensures exists k :: GroupOf(s, k).Some? && |GroupOf(s, k).value.shops| > 1 && c == Summarize(GroupOf(s, k).value)
    ensures |c.shops| >= 2
  {
    var ks := Keys(s);
    var gs := Grouped(s);
    SummariesMembers(gs, c);
    var i :| 0 <= i < |gs| && |gs[i].shops| > 1 && c == Summarize(gs[i]);
    var k := ks[i];
    assert GroupOf(s, k).value == gs[i];
    SummarizeShops(gs[i]);
    assert |multiset(c.shops)| == |multiset(gs[i].shops)|;
  }

  /** Every key carried by at least two products has its summary among the returned comparisons. */
  lemma {:induction false} GroupsToComparisons(s: seq<CompareRow>, k: string)
    requires GroupOf(s, k).Some? && |GroupOf(s, k).value.shops| > 1
    ensures Summarize(GroupOf(s, k).value) in Comparisons(s)
  {
    var ks := Keys(s);
    var gs := Grouped(s);
    var i :| 0 <= i < |ks| && ks[i] == k;
    assert gs[i] == GroupOf(s, k).value;
    SummariesMembers(gs, Summarize(GroupOf(s, k).value));
  }

  /** Visiting product `i` extends its own key's group, or creates it, and leaves every other key's alone. */
  lemma {:induction false} GroupOfStep(s: seq<CompareRow>, i: nat)
    requires i < |s|
    ensures Keys(s[..i + 1]) == (if GroupKey(s[i].name) in Keys(s[..i]) then Keys(s[..i]) else Keys(s[..i]) + [GroupKey(s[i].name)])
    ensures forall k :: k != GroupKey(s[i].name) ==> GroupOf(s[..i + 1], k) == GroupOf(s[..i], k)
    ensures GroupOf(s[..i + 1], GroupKey(s[i].name)).Some?
    ensures GroupOf(s[..i], GroupKey(s[i].name)).None? ==>
      GroupOf(s[..i + 1], GroupKey(s[i].name)).value == Group(s[i].id, s[i].name, s[i].category, [Offer(s[i])])
    ensures GroupOf(s[..i], GroupKey(s[i].name)).Some? ==>
      GroupOf(s[..i + 1], GroupKey(s[i].name)).value
        == GroupOf(s[..i], GroupKey(s[i].name)).value.(shops := GroupOf(s[..i], GroupKey(s[i].name)).value.shops + [Offer(s[i])])
  {
    assert s[..i + 1][..i] == s[..i];
  }

  /** The loop state of `groupProductsByName` after visiting the products `s`. */
  ghost predicate Tracks(grouped: map<string, Group>, order: seq<string>, s: seq<CompareRow>)
  {
    && order == Keys(s)
    && (forall k :: k in grouped <==> GroupOf(s, k).Some?)
    && (forall k :: k in grouped ==> grouped[k] == GroupOf(s, k).value)
  }

  /**
   * One pass of the loop: `mid` is the dictionary after the entry for the key
   * was created if missing, `g1` after the offer was pushed onto it.
   */
  lemma {:induction false} VisitTracks(
    s: seq<CompareRow>, i: nat, g0: map<string, Group>, o0: seq<string>,
    mid: map<string, Group>, g1: map<string, Group>, o1: seq<string>)
    requires i < |s| && Tracks(g0, o0, s[..i])
    requires GroupKey(s[i].name) in mid
    requires mid == if GroupKey(s[i].name) in g0 then g0
                    else g0[GroupKey(s[i].name) := Group(s[i].id, s[i].name, s[i].category, [])]
    requires o1 == if GroupKey(s[i].name) in g0 then o0 else o0 + [GroupKey(s[i].name)]
    requires g1 == mid[GroupKey(s[i].name) := mid[GroupKey(s[i].name)].(shops := mid[GroupKey(s[i].name)].shops + [Offer(s[i])])]
    ensures Tracks(g1, o1, s[..i + 1])
  {
    var key := GroupKey(s[i].name);
    if key in g0 {
      assert mid == g0;
      VisitKnownKey(s, i, key, g0, o0, g1, o1);
    } else {
      assert [] + [Offer(s[i])] == [Offer(s[i])];
      assert g1 == g0[key := Group(s[i].id, s[i].name, s[i].category, [Offer(s[i])])];
      VisitNewKey(s, i, key, g0, o0, g1, o1);
    }
  }

  /** A pass for a key already in the dictionary: its group gets the offer, the key order stays. */
  lemma {:induction false} VisitKnownKey(
    s: seq<CompareRow>, i: nat, key: string, g0: map<string, Group>, o0: seq<string>,
    g1: map<string, Group>, o1: seq<string>)
    requires i < |s| && Tracks(g0, o0, s[..i])
    requires key == GroupKey(s[i].name) && key in g0
    requires o1 == o0
    requires g1 == g0[key := g0[key].(shops := g0[key].shops + [Offer(s[i])])]
    ensures Tracks(g1, o1, s[..i + 1])
  {
    GroupOfStep(s, i);
    assert GroupOf(s[..i], key).Some?;
    forall k ensures k in g1 <==> GroupOf(s[..i + 1], k).Some? {
    }
    forall k | k in g1 ensures g1[k] == GroupOf(s[..i + 1], k).value {
    }
  }

  /** A pass for a new key: the key is appended to the order with a group holding just this offer. */
  lemma {:induction false} VisitNewKey(
    s: seq<CompareRow>, i: nat, key: string, g0: map<string, Group>, o0: seq<string>,
    g1: map<string, Group>, o1: seq<string>)
    requires i < |s| && Tracks(g0, o0, s[..i])
    requires key == GroupKey(s[i].name) && key !in g0
    requires o1 == o0 + [key]
    requires g1 == g0[key := Group(s[i].id, s[i].name, s[i].category, [Offer(s[i])])]
    ensures Tracks(g1, o1, s[..i + 1])
  {
    GroupOfStep(s, i);
    assert GroupOf(s[..i], key).None?;
    forall k ensures k in g1 <==> GroupOf(s[..i + 1], k).Some? {
    }
    forall k | k in g1 ensures g1[k] == GroupOf(s[..i + 1], k).value {
    }
  }

  /** After the loop, the dictionary's values in key order are the groups. */
  lemma {:induction false} TracksValues(grouped: map<string, Group>, order: seq<string>, s: seq<CompareRow>)
    requires Tracks(grouped, order, s)
    ensures forall j :: 0 <= j < |order| ==> order[j] in grouped
    ensures seq(|order|, j requires 0 <= j < |order| && order[j] in grouped => grouped[order[j]]) == Grouped(s)
  {
  }

  /** `Object.values(grouped)`: the groups in the order their keys were first inserted. */
  function Values(grouped: map<string, Group>, order: seq<string>): (gs: seq<Group>)
    requires forall j :: 0 <= j < |order| ==> order[j] in grouped
    ensures |gs| == |order|
    ensures forall j :: 0 <= j < |order| ==> gs[j] == grouped[order[j]]
  {
    seq(|order|, j requires 0 <= j < |order| && order[j] in grouped => grouped[order[j]])
  }

  /** A dictionary that tracks all of `s` summarises to exactly the comparisons of `s`. */
  lemma {:induction false} TracksComparisons(grouped: map<string, Group>, order: seq<string>, s: seq<CompareRow>)
    requires Tracks(grouped, order, s)
    ensures forall j :: 0 <= j < |order| ==> order[j] in grouped
    ensures Summaries(Values(grouped, order)) == Comparisons(s)
  {
    TracksValues(grouped, order, s);
  }

  /**
   * The lowercase keys a plain object literal already resolves through its
   * prototype: `grouped[key]` is then truthy before any group was stored, so
   * no group is created and the `push` that follows throws a `TypeError`.
   */
  const InheritedKeys: set<string> := {"constructor", "__proto__"}

  predicate InheritedKey(key: string)
  {
    key in InheritedKeys
  }

  /** Some product's key names an inherited property of `{}`. */
  ghost predicate HitsInheritedKey(products: seq<CompareRow>)
  {
    exists j :: 0 <= j < |products| && InheritedKey(GroupKey(products[j].name))
  }

  /**
   * `groupProductsByName`: one pass over the products filling the `grouped`
   * dictionary (its keys in insertion order in `order`), then the filter and
   * the statistics over its values. `None` is the `TypeError` the pass throws
   * at the first product whose key is inherited.
   */
  method GroupProductsByName(products: seq<CompareRow>) returns (result: Option<seq<Comparison>>)
    ensures result.None? <==> HitsInheritedKey(products)
    ensures result.Some? ==> result.value == Comparisons(products)
  {
    var grouped: map<string, Group> := map[];
    var order: seq<string> := [];
    var thrown := false;
    var i := 0;
    while i < |products|
      invariant 0 <= i <= |products| && !thrown
      invariant Scanned(products, i, grouped, order)
    {
      var key := GroupKey(products[i].name);
      if InheritedKey(key) {
        thrown := true;
        break;
      }
      grouped, order := Visit(products, i, grouped, order);
      i := i + 1;
    }
    if thrown {
      InheritedKeyAt(products, i);
      return None;
    }
    ScannedAll(products, grouped, order);
    result := Some(Summaries(Values(grouped, order)));
  }

  /**
   * The loop state after the first `i` products: none of them had an
   * inherited key, and the dictionary and its key order track them.
   */
  ghost predicate Scanned(products: seq<CompareRow>, i: int, grouped: map<string, Group>, order: seq<string>)
  {
    && 0 <= i <= |products|
    && (forall j :: 0 <= j < i ==> !InheritedKey(GroupKey(products[j].name)))
    && Tracks(grouped, order, products[..i])
  }

  /** The body of the `forEach` for product `i`: create its key's group if missing, then push its offer. */
  method Visit(products: seq<CompareRow>, i: int, grouped: map<string, Group>, order: seq<string>)
    returns (grouped': map<string, Group>, order': seq<string>)
    requires i < |products| && Scanned(products, i, grouped, order)
    requires !InheritedKey(GroupKey(products[i].name))
    ensures Scanned(products, i + 1, grouped', order')
  {
    var p := products[i];
    var key := GroupKey(p.name);
    grouped', order' := grouped, order;
    if key !in grouped' {
      grouped' := grouped'[key := Group(p.id, p.name, p.category, [])];
      order' := order' + [key];
    }
    ghost var mid := grouped';
    grouped' := grouped'[key := grouped'[key].(shops := grouped'[key].shops + [Offer(p)])];
    VisitTracks(products, i, grouped, order, mid, grouped', order');
  }

  lemma {:induction false} InheritedKeyAt(products: seq<CompareRow>, i: int)
    requires 0 <= i < |products| && InheritedKey(GroupKey(products[i].name))
    ensures HitsInheritedKey(products)
  {
  }

  /** Once every product is scanned, none had an inherited key and the groups summarise to the comparisons. */
  lemma {:induction false} ScannedAll(products: seq<CompareRow>, grouped: map<string, Group>, order: seq<string>)
    requires Scanned(products, |products|, grouped, order)
    ensures !HitsInheritedKey(products)
    ensures forall j :: 0 <= j < |order| ==> order[j] in grouped
    ensures Summaries(Values(grouped, order)) == Comparisons(products)
  {
    assert products[..|products|] == products;
    TracksComparisons(grouped, order, products);
  }

  // ---------------------------------------------------------------------------
  // fetchPriceComparisons

  /** The page state `fetchPriceComparisons` leaves behind. */
  datatype SearchState = SearchState(comparisons: seq<Comparison>, hasSearched: bool)

  /**
   * `fetchPriceComparisons(query, category)`. `fetched` is the comparison feed
   * the request returns, or `None` when the request fails.
   */
  method FetchPriceComparisons(query: string, category: string, fetched: Option<seq<CompareRow>>) returns (st: SearchState)
    ensures ShortQuery(query) && category == "all" ==> st == SearchState([], false)
    ensures !(ShortQuery(query) && category == "all") && fetched.None? ==> st == SearchState([], true)
    ensures !(ShortQuery(query) && category == "all") && fetched.Some? ==>
      && st.hasSearched
      && (HitsInheritedKey(FilterForComparison(fetched.value, query, category)) ==> st.comparisons == [])
      && (!HitsInheritedKey(FilterForComparison(fetched.value, query, category)) ==>
            st.comparisons == Comparisons(FilterForComparison(fetched.value, query, category)))
  {
    if ShortQuery(query) && category == "all" {
      return SearchState([], false);
    }
    if fetched.None? {
      return SearchState([], true);
    }
    var filtered := FilterForComparison(fetched.value, query, category);
    var grouped := GroupProductsByName(filtered);
    st := SearchState(if grouped.Some? then grouped.value else [], true);
  }
}
