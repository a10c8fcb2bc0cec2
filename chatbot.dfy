/**
 * The rule-based assistant of `src/app/pages/ChatbotPage.tsx`: the guard on
 * sending a message and `getBotResponse`, which lowercases the message and
 * answers with the first of its keyword rules that applies. The catalogue
 * request of the product rule is a parameter (`None` when it fails); ids,
 * timestamps, the typing delay and the fixed reply texts are outside the
 * model, which keeps only what varies between replies.
 */
module Chatbot {
  import opened Tables
  import opened Text
  import opened Ordering
  import opened ProductsPage

  // ---------------------------------------------------------------------------
  // Keyword lists, in the order the page tests them

  const SearchWords: seq<string> := ["find", "search", "show"]
  const ProductKeywords: seq<string> := ["rice", "wheat", "oil", "sugar", "flour", "dal", "masoor", "toor", "chana"]
  const ShopWords: seq<string> := ["shop", "store", "seller"]
  const Categories: seq<string> := ["groceries", "electronics", "agricultural", "fashion", "health"]
  const PriceWords: seq<string> := ["price", "compare", "cheap", "best deal"]
  const BuyWords: seq<string> := ["buy", "purchase", "order", "how to get"]
  const DeliveryWords: seq<string> := ["deliver", "shipping", "courier"]
  const RegisterWords: seq<string> := ["become", "register", "shopkeeper", "join"]
  const LocationWords: seq<string> := ["address", "location", "where", "near me"]
  const PaymentWords: seq<string> := ["payment", "pay", "cash"]
  const HelpWords: seq<string> := ["help", "how", "work", "use"]
  const GreetingWords: seq<string> := ["hello", "hi", "hey"]

  /** The message includes at least one of the words. */
  ghost predicate MentionsAny(m: string, words: seq<string>)
  {
    exists i :: 0 <= i < |words| && Contains(m, words[i])
  }

  /** `words[i]` is the first of the words, in list order, that the message includes. */
  ghost predicate FirstMentioned(m: string, words: seq<string>, i: int)
  {
    0 <= i < |words| && Contains(m, words[i]) && forall j :: 0 <= j < i ==> !Contains(m, words[j])
  }

  /** `words.find(w => m.includes(w))`, as an index into the list. */
  function FirstFound(words: seq<string>, m: string): (r: Option<nat>)
    ensures r.None? <==> !MentionsAny(m, words)
    ensures r.Some? ==> FirstMentioned(m, words, r.value)
  {
    if words == [] then None
    else if Contains(m, words[0]) then Some(0)
    else
      match FirstFound(words[1..], m)
      case None => None
      case Some(i) =>
        assert forall j :: 1 <= j <= i + 1 ==> words[j] == words[1..][j - 1];
        Some(i + 1)
  }

  // ---------------------------------------------------------------------------
  // Product search

  /** `products.filter(p => p.name.toLowerCase().includes(keyword))`, in feed order. */
  function NameMatches(products: seq<ListedProduct>, keyword: string): (r: seq<ListedProduct>)
    ensures |r| <= |products|
  {
    if products == [] then []
    else if Contains(Lower(products[0].name), keyword) then [products[0]] + NameMatches(products[1..], keyword)
    else NameMatches(products[1..], keyword)
  }

  lemma {:induction false} NameMatchesMembers(products: seq<ListedProduct>, keyword: string, p: ListedProduct)
    ensures p in NameMatches(products, keyword) <==> p in products && Contains(Lower(p.name), keyword)
  {
    if products != [] {
      NameMatchesMembers(products[1..], keyword, p);
      assert products == [products[0]] + products[1..];
    }
  }

  /** The product rule applies: a search word, a product keyword, a catalogue, and a product named after the first keyword. */
  ghost predicate ProductRuleFires(m: string, fetched: Option<seq<ListedProduct>>)
  {
    && MentionsAny(m, SearchWords)
    && fetched.Some?
    && exists i :: FirstMentioned(m, ProductKeywords, i)
         && exists p :: p in fetched.value && Contains(Lower(p.name), ProductKeywords[i])
  }

  // ---------------------------------------------------------------------------
  // Replies

  /**
   * What the assistant answers. Every reply but `ProductCards`, `HowToBuy`,
   * `NoDelivery`, `FindingLocations` and `PaymentInfo` carries action buttons:
   * `browse-products` for `CategoryShops`, `price-comparison` for
   * `ComparingPrices`, `shopkeeper-register` for `ShopkeeperSignup` and
   * `quick-actions` for the rest.
   */
  datatype Reply =
    | ProductCards(keyword: string, products: seq<ListedProduct>)
    | CategoryShops(category: string)
    | FindingShops
    | ComparingPrices
    | HowToBuy
    | NoDelivery
    | ShopkeeperSignup
    | FindingLocations
    | PaymentInfo
    | HowItWorks
    | Greeting(name: Option<string>)
    | Fallback

  /** The position of the rule that produced a reply: 0 the product search, 1 shops, ..., 9 greetings, 10 the default. */
  function RuleOf(r: Reply): nat
  {
    match r
    case ProductCards(_, _) => 0
    case CategoryShops(_) => 1
    case FindingShops => 1
    case ComparingPrices => 2
    case HowToBuy => 3
    case NoDelivery => 4
    case ShopkeeperSignup => 5
    case FindingLocations => 6
    case PaymentInfo => 7
    case HowItWorks => 8
    case Greeting(_) => 9
    case Fallback => 10
  }

  /** The trigger words of the keyword rules 1 to 9. */
  function TopicWords(k: nat): seq<string>
  {
    if k == 1 then ShopWords
    else if k == 2 then PriceWords
    else if k == 3 then BuyWords
    else if k == 4 then DeliveryWords
    else if k == 5 then RegisterWords
    else if k == 6 then LocationWords
    else if k == 7 then PaymentWords
    else if k == 8 then HelpWords
    else GreetingWords
  }

  /** Rule `k` applies to the lowercased message `m`; the default rule always does. */
  ghost predicate Fires(k: nat, m: string, fetched: Option<seq<ListedProduct>>)
  {
    if k == 0 then ProductRuleFires(m, fetched)
    else if k <= 9 then MentionsAny(m, TopicWords(k))
    else true
  }

  /** The product rule's reply, or `None` when it falls through to the next rule. */
  function SearchProducts(m: string, fetched: Option<seq<ListedProduct>>): (r: Option<Reply>)
    ensures r.Some? <==> ProductRuleFires(m, fetched)
    ensures r.Some? ==> r.value.ProductCards? && 1 <= |r.value.products| <= 3
  {
    if FirstFound(SearchWords, m).None? || fetched.None? then None
    else
      match FirstFound(ProductKeywords, m)
      case None => None
      case Some(i) =>
        var keyword := ProductKeywords[i];
        var found := Take(NameMatches(fetched.value, keyword), 3);
        if found == [] then
          assert forall p :: p in fetched.value ==> !Contains(Lower(p.name), keyword) by {
            forall p | p in fetched.value { NameMatchesMembers(fetched.value, keyword, p); }
          }
          None
        else
          NameMatchesMembers(fetched.value, keyword, found[0]);
          Some(ProductCards(keyword, found))
  }

  /**
   * `getBotResponse`: the reply of the first rule, in the page's order, that
   * applies to the lowercased message.
   */
  function GetBotResponse(message: string, user: Option<string>, fetched: Option<seq<ListedProduct>>): (r: Reply)
    ensures Fires(RuleOf(r), Lower(message), fetched)
  {
    var m := Lower(message);
    var search := SearchProducts(m, fetched);
    if search.Some? then search.value
    else if FirstFound(ShopWords, m).Some? then
      match FirstFound(Categories, m)
      case Some(i) => CategoryShops(Categories[i])
      case None => FindingShops
    else if FirstFound(PriceWords, m).Some? then ComparingPrices
    else if FirstFound(BuyWords, m).Some? then HowToBuy
    else if FirstFound(DeliveryWords, m).Some? then NoDelivery
    else if FirstFound(RegisterWords, m).Some? then ShopkeeperSignup
    else if FirstFound(LocationWords, m).Some? then FindingLocations
    else if FirstFound(PaymentWords, m).Some? then PaymentInfo
    else if FirstFound(HelpWords, m).Some? then HowItWorks
    else if FirstFound(GreetingWords, m).Some? then Greeting(user)
    else Fallback
  }

  /** No rule before the one that answered applies to the lowercased message. */
  lemma {:induction false} NoEarlierRuleFires(message: string, user: Option<string>, fetched: Option<seq<ListedProduct>>)
    ensures forall k :: 0 <= k < RuleOf(GetBotResponse(message, user, fetched)) ==> !Fires(k, Lower(message), fetched)
  {
    var m := Lower(message);
    var n := RuleOf(GetBotResponse(message, user, fetched));
    forall k | 0 <= k < n ensures !Fires(k, m, fetched) {
      if k == 0 {
        assert SearchProducts(m, fetched).None?;
      } else {
        assert FirstFound(TopicWords(k), m).None?;
      }
    }
  }

  /**
   * What the replies carry: the product cards are the first (at most three)
   * catalogue products named after the first keyword the message names; a shop
   * reply names a category exactly when the message does, and then the first
   * in list order; the greeting addresses the signed-in user by name.
   */
  lemma {:induction false} GetBotResponseContents(message: string, user: Option<string>, fetched: Option<seq<ListedProduct>>)
    ensures var m := Lower(message);
      var r := GetBotResponse(message, user, fetched);
      && (r.ProductCards? ==>
            && fetched.Some?
            && (exists i :: FirstMentioned(m, ProductKeywords, i) && r.keyword == ProductKeywords[i])
            && 1 <= |r.products| <= 3
            && r.products == NameMatches(fetched.value, r.keyword)[..|r.products|]
            && (|r.products| < 3 ==> r.products == NameMatches(fetched.value, r.keyword))
            && forall p :: p in r.products ==> p in fetched.value && Contains(Lower(p.name), r.keyword))
      && (RuleOf(r) == 1 ==>
            && (r.CategoryShops? <==> MentionsAny(m, Categories))
            && (r.CategoryShops? ==> exists i :: FirstMentioned(m, Categories, i) && r.category == Categories[i]))
      && (r.Greeting? ==> r.name == user)
  {
    var m := Lower(message);
    var r := GetBotResponse(message, user, fetched);
    if r.ProductCards? {
      var i := FirstFound(ProductKeywords, m).value;
      var all := NameMatches(fetched.value, r.keyword);
      assert r.products == Take(all, 3);
      forall p | p in r.products ensures p in fetched.value && Contains(Lower(p.name), r.keyword) {
        NameMatchesMembers(fetched.value, r.keyword, p);
      }
    }
  }

  /** The assistant ignores letter case: a message and its lowercase get the same reply. */
  lemma {:induction false} CaseInsensitive(message: string, user: Option<string>, fetched: Option<seq<ListedProduct>>)
    ensures GetBotResponse(Lower(message), user, fetched) == GetBotResponse(message, user, fetched)
  {
    LowerIdempotent(message);
  }

  /** `sub` occurring in `s` means every tail of `sub` does too. */
  lemma {:induction false} ContainsTail(s: string, sub: string, k: nat)
    requires k <= |sub| && Contains(s, sub)
    ensures Contains(s, sub[k..])
  {
    ContainsIffOccurs(s, sub);
    var i :| OccursAt(s, sub, i);
    assert s[i + k..i + k + |sub[k..]|] == sub[k..];
    assert OccursAt(s, sub[k..], i + k);
    ContainsIffOccurs(s, sub[k..]);
  }

  /**
   * "show" includes "how": a message with "show" that the product search does
   * not answer is at the latest answered by the help rule, never greeted or
   * given the default reply.
   */
  lemma {:induction false} ShowReachesHelpAtTheLatest(message: string, user: Option<string>, fetched: Option<seq<ListedProduct>>)
    requires Contains(Lower(message), "show")
    ensures RuleOf(GetBotResponse(message, user, fetched)) <= 8
  {
    var m := Lower(message);
    ContainsTail(m, "show", 1);
    assert "show"[1..] == "how" == HelpWords[1];
    assert Fires(8, m, fetched);
  }

  /**
   * "shopkeeper" includes "shop": a message naming it is answered by the
   * product search or the shop rule, so that word of the registration rule
   * never selects the sign-up reply.
   */
  lemma {:induction false} ShopkeeperGoesToShops(message: string, user: Option<string>, fetched: Option<seq<ListedProduct>>)
    requires Contains(Lower(message), "shopkeeper")
    ensures RuleOf(GetBotResponse(message, user, fetched)) <= 1
    ensures GetBotResponse(message, user, fetched) != ShopkeeperSignup
  {
    var m := Lower(message);
    ContainsIffOccurs(m, "shopkeeper");
    var i :| OccursAt(m, "shopkeeper", i);
    assert m[i..i + 4] == m[i..i + 10][..4] == "shopkeeper"[..4] == "shop";
    assert OccursAt(m, "shop", i);
    ContainsIffOccurs(m, "shop");
    assert Contains(m, ShopWords[0]);
    assert Fires(1, m, fetched);
  }

  // ---------------------------------------------------------------------------
  // Sending

  datatype ChatMessage = FromUser(text: string) | FromBot(reply: Reply)

  /** The conversation shown and the text in the input box. */
  datatype Chat = Chat(messages: seq<ChatMessage>, input: string)

  /**
   * `handleSendMessage`: a blank input (one that trims to nothing) is ignored;
   * otherwise the input, as typed, is appended, the box is cleared, and the
   * assistant's answer to that same text follows it.
   */
  function SendMessage(chat: Chat, user: Option<string>, fetched: Option<seq<ListedProduct>>): (c: Chat)
    ensures IsBlank(chat.input) ==> c == chat
    ensures !IsBlank(chat.input) ==>
      && c.input == ""
      && |c.messages| == |chat.messages| + 2
      && c.messages[..|chat.messages|] == chat.messages
      && c.messages[|chat.messages|] == FromUser(chat.input)
      && c.messages[|chat.messages| + 1] == FromBot(GetBotResponse(chat.input, user, fetched))
  {
    TrimEmptyIffBlank(chat.input);
    if Trim(chat.input) == "" then chat
    else Chat(chat.messages + [FromUser(chat.input), FromBot(GetBotResponse(chat.input, user, fetched))], "")
  }
}
