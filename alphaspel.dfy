/**
 * The Alphaspel scraper of `magic_card_scraper` (`alphaspel_scraper.rs`),
 * after the HTML is read: how one product box becomes a `VendorCard` or is
 * refused, how many pages a set has, which pages are fetched, and how the
 * cards of every set are grouped by name. Pages are given by oracles from a
 * link to what the page holds (`None` when fetching or reading it fails).
 */
module Alphaspel {
  import opened Wrappers
  import opened Text
  import opened Lists
  import opened Cards
  import DlRows
  import CardNames
  import SetNames
  import Money

  /** What one product box holds; a part is missing when the box lacks its element. */
  datatype Product = Product(
    stock: Option<string>,
    imageSources: seq<string>,
    productName: Option<string>,
    priceText: Option<string>)

  /** Why a product box is not a card. */
  datatype CardError =
    | NoStockInformation
    | SoldOut
    | UnreadableStock
    | NoProductName
    | NotEnglish
    | IsToken
    | UnknownSet
    | NoPrice
    | NoNumericPrice
    | BadName(nameError: CardNames.NameError)
    | BadSet(setError: SetNames.SetError)

  const SoldOutText: string := "Slutsåld"
  const InShopText: string := "i butiken"
  const PromoPatterns: seq<string> := ["(Promo)", "(promo)", "(Prerelease)", "(prerelease)"]
  const NameErrorText: string := "Error retrieving the name"

  // ---------------------------------------------------------------- one product

  /** The stock text: "Slutsåld" (sold out) refuses the card; otherwise "i butiken" is dropped and the rest read as an `i8`. */
  function ReadStock(text: string): (r: Result<int, CardError>)
    ensures r == Err(SoldOut) <==> Trim(text) == SoldOutText
    ensures r.Ok? <==> Trim(text) != SoldOutText && ParseI8(Trim(Replace(Trim(text), InShopText, ""))).Some?
    ensures r.Ok? ==> I8_MIN <= r.value <= I8_MAX
  {
    var inStock := Trim(text);
    if inStock == SoldOutText then Err(SoldOut)
    else
      match ParseI8(Trim(Replace(inStock, InShopText, "")))
      case Some(n) => Ok(n)
      case None => Err(UnreadableStock)
  }

  /** "<n> i butiken" reads as n in stock. */
  lemma StockInShop(n: nat)
    requires n <= I8_MAX
    ensures ReadStock(NatToString(n) + " i butiken") == Ok(n)
  {
    var d := NatToString(n);
    var s := d + " i butiken";
    assert IsDigit(d[0]) && IsDigit(d[|d| - 1]);
    assert Trim(s) == s by {
      assert s[0] == d[0] && s[|s| - 1] == 'n';
      TrimOfTrimmed(s);
    }
    assert s != SoldOutText by {
      assert s[0] == d[0];
    }
    var body := d + " ";
    assert Replace(s, InShopText, "") == body by {
      assert s == body + InShopText;
      assert forall i :: 0 <= i < |d| ==> IsDigit(d[i]);
      assert 'i' !in body;
      ReplaceSuffix(body, InShopText);
    }
    assert Trim(body) == d by {
      TrimTrailingSpace(d, ' ');
    }
    ParseNatToString(n, true, I8_MIN, I8_MAX);
  }

  /** The product name as read: line breaks dropped, then its words joined by single spaces. */
  function ProductNameText(raw: string): string
  {
    Join(SplitWhitespace(RemoveChar(raw, '\n')), " ")
  }

  /** Promotional and prerelease printings, whatever the case. */
  predicate IsPromo(name: string)
  {
    DlRows.MatchesAny(name, PromoPatterns)
  }

  /** Italian, German and Russian printings, whatever the case. */
  predicate IsNotEnglish(name: string)
  {
    Contains(ToLower(name), "(italiensk)") || Contains(ToLower(name), "(tysk)") || Contains(ToLower(name), "(rysk)")
  }

  /** Tokens: "Token" anywhere in the name, with that exact case. */
  predicate IsTokenName(name: string)
  {
    Contains(name, "Token")
  }

  /** Whether a known set's name occurs in the product name, case aside. */
  predicate NamesSet(name: string, known: string)
  {
    Contains(ToLower(name), ToLower(known))
  }

  /** The first known set whose name occurs in the product name, case aside. */
  function FindSet(name: string, sets: seq<string>): (r: Option<string>)
    ensures r.None? <==> forall i :: 0 <= i < |sets| ==> !NamesSet(name, sets[i])
    ensures r.Some? ==> exists i :: 0 <= i < |sets| && sets[i] == r.value && NamesSet(name, sets[i])
                          && forall j :: 0 <= j < i ==> !NamesSet(name, sets[j])
  {
    match FindFirst(sets, (s: string) => NamesSet(name, s))
    case None => None
    case Some(i) => Some(sets[i])
  }

  /**
   * The card's name: what follows the first occurrence of the set's name,
   * with that exact case, colons removed; a set that only matched with
   * another case leaves the placeholder "Error retrieving the name".
   */
  function NameAfterSet(name: string, known: string): (r: string)
    ensures ':' !in r
    ensures Find(name, known).Some? ==> r == RemoveChar(name[Find(name, known).value + |known|..], ':')
    ensures Find(name, known).None? ==> r == RemoveChar(NameErrorText, ':')
  {
    match Find(name, known)
    case Some(i) => RemoveChar(name[i + |known|..], ':')
    case None => RemoveChar(NameErrorText, ':')
  }

  /** A product name that starts with the set's name is named by the rest, colons removed. */
  lemma NameFollowsSet(known: string, rest: string)
    ensures NameAfterSet(known + rest, known) == RemoveChar(rest, ':')
  {
    assert (known + rest)[..|known|] == known;
    assert Find(known + rest, known) == Some(0);
    assert (known + rest)[|known|..] == rest;
  }

  /** A set that occurs only in another case names the card "Error retrieving the name". */
  lemma CaseMismatchNamesPlaceholder(name: string, known: string)
    requires Find(name, known).None?
    ensures NameAfterSet(name, known) == NameErrorText
  {
    assert ':' !in NameErrorText;
    KeepAll(NameErrorText, d => d != ':');
  }

  /** The price: the first run of digits in the price text, in kronor. */
  function FirstNumber(text: string): (r: Option<real>)
    ensures r.None? <==> forall i :: 0 <= i < |text| ==> !IsDigit(text[i])
    ensures r.Some? <==> FirstDigitRun(text).Some?
    ensures r.Some? ==> r.value >= 0.0 && r.value == DigitsValue(FirstDigitRun(text).value) as real
  {
    FirstDigitRunNoneIffNoDigit(text);
    match FirstDigitRun(text)
    case Some(run) => Some(DigitsValue(run) as real)
    case None => None
  }

  /** The price read is the value of the digits from the first digit of the text up to the next non-digit. */
  lemma FirstNumberAtFirstDigit(text: string, k: nat)
    requires k < |text| && IsDigit(text[k])
    requires forall j :: 0 <= j < k ==> !IsDigit(text[j])
    ensures var run := DigitPrefix(text[k..]);
            run != [] && (k + |run| < |text| ==> !IsDigit(text[k + |run|]))
            && FirstNumber(text) == Some(DigitsValue(run) as real)
  {
    FirstDigitRunAtFirstDigit(text, k);
  }

  /** Foil: "(Foil)", "(Etched Foil)" or "(Foil Etched)" in the card's name, with that exact case. */
  predicate IsFoilName(rawName: string)
  {
    Contains(rawName, "(Foil)") || Contains(rawName, "(Etched Foil)") || Contains(rawName, "(Foil Etched)")
  }

  /** The image: the shop's address followed by the image sources, line breaks dropped and trimmed. */
  function ImageUrl(base: string, sources: seq<string>): string
  {
    base + Trim(RemoveChar(ConcatMap(sources, (s: string) => s), '\n'))
  }

  /**
   * `get_card_from_html`: the product box's checks in the order the code
   * makes them, the first failing one giving the error; a box that passes
   * them all is an Alphaspel card with no trade-in price, at most 3 wanted
   * and no collector number.
   */
  function GetCard(base: string, p: Product, sets: seq<string>): Result<VendorCard, CardError>
  {
    match p.stock
    case None => Err(NoStockInformation)
    case Some(stockText) =>
      match ReadStock(stockText)
      case Err(e) => Err(e)
      case Ok(stock) =>
        match p.productName
        case None => Err(NoProductName)
        case Some(rawProduct) => NamedCard(base, p, stock, ProductNameText(rawProduct), sets)
  }

  /** The checks on the product name: language, token, then the set it names. */
  function NamedCard(base: string, p: Product, stock: int, name: string, sets: seq<string>): Result<VendorCard, CardError>
  {
    if IsNotEnglish(name) then Err(NotEnglish)
    else if IsTokenName(name) then Err(IsToken)
    else
      match FindSet(name, sets)
      case None => Err(UnknownSet)
      case Some(known) => PricedCard(base, p, stock, name, known)
  }

  /** The price, then the card's name and set as the card records them. */
  function PricedCard(base: string, p: Product, stock: int, name: string, known: string): Result<VendorCard, CardError>
  {
    match p.priceText
    case None => Err(NoPrice)
    case Some(priceText) =>
      match FirstNumber(priceText)
      case None => Err(NoNumericPrice)
      case Some(amount) =>
        var rawName := NameAfterSet(name, known);
        match CardNames.New(rawName)
        case Err(e) => Err(BadName(e))
        case Ok(cardName) =>
          match SetNames.New(known)
          case Err(e) => Err(BadSet(e))
          case Ok(setName) =>
            Ok(VendorCard(
              cardName, Alphaspel, IsFoilName(rawName), ImageUrl(base, p.imageSources),
              Contains(name, "(alternative art)"), IsPromo(name), false, setName,
              Money.Price(amount, Money.SEK), 0, stock, 3, None))
  }

  /** A sold-out box is refused before anything else is read. */
  lemma SoldOutNeverCard(base: string, p: Product, sets: seq<string>)
    requires p.stock.Some? && Trim(p.stock.value) == SoldOutText
    ensures GetCard(base, p, sets) == Err(SoldOut)
  {
  }

  /** The name checks are reached exactly when the box has a readable stock and a product name. */
  lemma GetCardReachesName(base: string, p: Product, sets: seq<string>)
    requires p.stock.Some? && ReadStock(p.stock.value).Ok? && p.productName.Some?
    ensures GetCard(base, p, sets)
            == NamedCard(base, p, ReadStock(p.stock.value).value, ProductNameText(p.productName.value), sets)
  {
  }

  /** A foreign-language or token product is never a card, whatever else the box holds. */
  lemma ForeignOrTokenNeverCard(base: string, p: Product, sets: seq<string>)
    requires p.productName.Some?
    requires IsNotEnglish(ProductNameText(p.productName.value)) || IsTokenName(ProductNameText(p.productName.value))
    ensures GetCard(base, p, sets).Err?
  {
    if p.stock.Some? && ReadStock(p.stock.value).Ok? {
      GetCardReachesName(base, p, sets);
    }
  }

  /** A product that names none of the known sets is never a card. */
  lemma UnknownSetNeverCard(base: string, p: Product, sets: seq<string>)
    requires p.productName.Some?
    requires forall i :: 0 <= i < |sets| ==> !NamesSet(ProductNameText(p.productName.value), sets[i])
    ensures GetCard(base, p, sets).Err?
  {
    if p.stock.Some? && ReadStock(p.stock.value).Ok? {
      GetCardReachesName(base, p, sets);
      var name := ProductNameText(p.productName.value);
      assert FindSet(name, sets).None?;
      assert NamedCard(base, p, ReadStock(p.stock.value).value, name, sets).Err?;
    }
  }

  /** The card built once the set is known: each field is the corresponding reading of the box. */
  lemma PricedCardFields(base: string, p: Product, stock: int, name: string, known: string)
    requires PricedCard(base, p, stock, name, known).Ok?
    ensures p.priceText.Some?
    ensures var c := PricedCard(base, p, stock, name, known).value;
            && Ok(c.name) == CardNames.New(NameAfterSet(name, known))
            && Ok(c.setName) == SetNames.New(known)
            && c.vendor == Alphaspel
            && c.foil == IsFoilName(NameAfterSet(name, known))
            && c.extendedArt == Contains(name, "(alternative art)")
            && c.prerelease == IsPromo(name)
            && !c.showcase
            && c.currentStock == stock
            && c.maxStock == 3 && c.tradeInPrice == 0 && c.collectorNumber.None?
            && FirstNumber(p.priceText.value) == Some(c.price.amount) && c.price.currency == Money.SEK
            && c.imageUrl == ImageUrl(base, p.imageSources)
  {
    var amount := FirstNumber(p.priceText.value).value;
    var rawName := NameAfterSet(name, known);
    var cardName := CardNames.New(rawName).value;
    var setName := SetNames.New(known).value;
    assert PricedCard(base, p, stock, name, known) == Ok(VendorCard(
      cardName, Alphaspel, IsFoilName(rawName), ImageUrl(base, p.imageSources),
      Contains(name, "(alternative art)"), IsPromo(name), false, setName,
      Money.Price(amount, Money.SEK), 0, stock, 3, None));
  }

  /** The card of an accepted box: each field is the corresponding reading of the box. */
  lemma GetCardFields(base: string, p: Product, sets: seq<string>)
    requires GetCard(base, p, sets).Ok?
    ensures p.stock.Some? && p.productName.Some? && p.priceText.Some?
    ensures var c := GetCard(base, p, sets).value;
            var name := ProductNameText(p.productName.value);
            && !IsNotEnglish(name) && !IsTokenName(name)
            && FindSet(name, sets).Some?
            && Ok(c.name) == CardNames.New(NameAfterSet(name, FindSet(name, sets).value))
            && Ok(c.setName) == SetNames.New(FindSet(name, sets).value)
            && c.vendor == Alphaspel
            && c.foil == IsFoilName(NameAfterSet(name, FindSet(name, sets).value))
            && c.extendedArt == Contains(name, "(alternative art)")
            && c.prerelease == IsPromo(name)
            && !c.showcase
            && ReadStock(p.stock.value) == Ok(c.currentStock)
            && c.maxStock == 3 && c.tradeInPrice == 0 && c.collectorNumber.None?
            && FirstNumber(p.priceText.value) == Some(c.price.amount) && c.price.currency == Money.SEK
            && c.imageUrl == ImageUrl(base, p.imageSources)
  {
    assert p.stock.Some? && ReadStock(p.stock.value).Ok? && p.productName.Some?;
    var stock := ReadStock(p.stock.value).value;
    var name := ProductNameText(p.productName.value);
    GetCardReachesName(base, p, sets);
    var known := FindSet(name, sets).value;
    assert GetCard(base, p, sets) == PricedCard(base, p, stock, name, known);
    PricedCardFields(base, p, stock, name, known);
  }

  // ---------------------------------------------------------------- pages

  /** The number a pagination entry shows: its trimmed text read as a `u32`. */
  function PageNumber(entry: string): (r: Option<int>)
    ensures r.Some? ==> 0 <= r.value <= U32_MAX
  {
    ParseU32(Trim(entry))
  }

  /** The largest number among the entries that `num` reads, and at least `start`. */
  function LargestPage(entries: seq<string>, num: string -> Option<int>, start: nat): (r: nat)
    ensures r >= start
    decreases |entries|
  {
    if entries == [] then start
    else
      var m := LargestPage(entries[..|entries| - 1], num, start);
      match num(entries[|entries| - 1])
      case Some(n) => if n > m then n else m
      case None => m
  }

  /** The largest number is at least every number read, and is `start` or one of them. */
  lemma {:induction false} LargestPageIsMax(entries: seq<string>, num: string -> Option<int>, start: nat)
    ensures forall i :: 0 <= i < |entries| && num(entries[i]).Some? ==> num(entries[i]).value <= LargestPage(entries, num, start)
    ensures LargestPage(entries, num, start) == start
            || exists i :: 0 <= i < |entries| && num(entries[i]) == Some(LargestPage(entries, num, start))
    decreases |entries|
  {
    if entries != [] {
      var init, last := entries[..|entries| - 1], |entries| - 1;
      LargestPageIsMax(init, num, start);
      assert forall i :: 0 <= i < |init| ==> init[i] == entries[i];
      if LargestPage(entries, num, start) != start && num(entries[last]) != Some(LargestPage(entries, num, start)) {
        var i :| 0 <= i < |init| && num(init[i]) == Some(LargestPage(init, num, start));
        assert num(entries[i]) == Some(LargestPage(entries, num, start));
      }
    }
  }

  /** The largest page number in a pagination, and at least `start`; it fits a `u32` when `start` does. */
  function PageCount(entries: seq<string>, start: nat): (r: nat)
    ensures r >= start
    ensures start <= U32_MAX ==> r <= U32_MAX
  {
    LargestPageIsMax(entries, PageNumber, start);
    LargestPage(entries, PageNumber, start)
  }

  /** The count is the largest page number listed, or `start` when none is larger. */
  lemma PageCountIsMax(entries: seq<string>, start: nat)
    ensures forall i :: 0 <= i < |entries| && PageNumber(entries[i]).Some? ==> PageNumber(entries[i]).value <= PageCount(entries, start)
    ensures PageCount(entries, start) == start
            || exists i :: 0 <= i < |entries| && PageNumber(entries[i]) == Some(PageCount(entries, start))
  {
    LargestPageIsMax(entries, PageNumber, start);
  }

  /** The page-count loop: the count starts at `start` and is raised by every larger page number. */
  method MaxPage(entries: seq<string>, start: nat) returns (maxPage: nat)
    ensures maxPage == PageCount(entries, start)
  {
    maxPage := start;
    for i := 0 to |entries|
      invariant maxPage == LargestPage(entries[..i], PageNumber, start)
    {
      assert entries[..i + 1][..i] == entries[..i];
      match PageNumber(entries[i])
      case Some(num) =>
        if num > maxPage {
          maxPage := num;
        }
      case None =>
    }
    assert entries[..|entries|] == entries;
  }

  /** The count of a set: its first page's pagination, or 1 when that page cannot be fetched or read. */
  function SetPageCount(pagination: Option<seq<string>>): (r: nat)
    ensures 1 <= r <= U32_MAX
    ensures pagination.None? ==> r == 1
  {
    match pagination
    case None => 1
    case Some(entries) => PageCount(entries, 1)
  }

  /** `max_page_count as i32`: a count above `i32::MAX` wraps to a negative number. */
  function AsI32(n: nat): (r: int)
    requires n <= U32_MAX
    ensures n <= I32_MAX ==> r == n
    ensures n > I32_MAX ==> r < 0
  {
    if n <= I32_MAX then n else n - 0x1_0000_0000
  }

  /** The pages fetched for a set: 1 to the count, in order. */
  function Pages(count: nat): (r: seq<nat>)
    requires count <= U32_MAX
    ensures count <= I32_MAX ==> |r| == count && forall i :: 0 <= i < |r| ==> r[i] == i + 1
    ensures count > I32_MAX ==> r == []
  {
    var last := AsI32(count);
    if last < 1 then [] else seq(last, i => i + 1)
  }

  /** The address of one page of a set, sorted by stock. */
  function PageLink(base: string, href: string, page: nat): string
  {
    base + href + "?order_by=stock_a&ordering=desc&page=" + NatToString(page)
  }

  /** Two pages of one set have different addresses. */
  lemma PageLinksDistinct(base: string, href: string, p: nat, q: nat)
    requires p != q
    ensures PageLink(base, href, p) != PageLink(base, href, q)
  {
    var pre := base + href + "?order_by=stock_a&ordering=desc&page=";
    assert PageLink(base, href, p)[|pre|..] == NatToString(p);
    assert PageLink(base, href, q)[|pre|..] == NatToString(q);
  }

  /** The cards of one box: its card, or none when it is refused. */
  function ProductCards(base: string, sets: seq<string>, p: Product): (r: seq<VendorCard>)
    ensures |r| <= 1
    ensures GetCard(base, p, sets).Err? ==> r == []
  {
    match GetCard(base, p, sets)
    case Ok(c) => [c]
    case Err(_) => []
  }

  /** The cards of one fetched page, in page order; a page that cannot be fetched has none. */
  function PageCards(base: string, sets: seq<string>, page: Option<seq<Product>>): seq<VendorCard>
  {
    match page
    case None => []
    case Some(products) => ConcatMap(products, (p: Product) => ProductCards(base, sets, p))
  }

  /** The cards of a set: those of its pages 1 to the count, in page order. */
  function SetCards(base: string, sets: seq<string>, href: string, count: nat,
                    fetch: string -> Option<seq<Product>>): seq<VendorCard>
    requires count <= U32_MAX
  {
    ConcatMap(Pages(count), (page: nat) => PageCards(base, sets, fetch(PageLink(base, href, page))))
  }

  /** The box loop of one page: each accepted box's card is pushed, a refused box is passed over. */
  method ReadPage(base: string, sets: seq<string>, products: seq<Product>) returns (cards: seq<VendorCard>)
    ensures cards == PageCards(base, sets, Some(products))
  {
    var f := (p: Product) => ProductCards(base, sets, p);
    cards := [];
    for i := 0 to |products|
      invariant cards == ConcatMap(products[..i], f)
    {
      ConcatMapPrefix(products, f, i);
      match GetCard(base, products[i], sets)
      case Ok(card) =>
        cards := cards + [card];
      case Err(_) =>
    }
    assert products[..|products|] == products;
  }

  /** The page loop of one set: pages 1 to the count are fetched in order and their cards appended. */
  method ScrapeSet(base: string, sets: seq<string>, href: string, count: nat,
                   fetch: string -> Option<seq<Product>>) returns (cards: seq<VendorCard>)
    requires count <= U32_MAX
    ensures cards == SetCards(base, sets, href, count, fetch)
  {
    var pages := Pages(count);
    var f := (page: nat) => PageCards(base, sets, fetch(PageLink(base, href, page)));
    cards := [];
    for i := 0 to |pages|
      invariant cards == ConcatMap(pages[..i], f)
    {
      ConcatMapPrefix(pages, f, i);
      match fetch(PageLink(base, href, pages[i]))
      case Some(products) =>
        var pageCards := ReadPage(base, sets, products);
        cards := cards + pageCards;
      case None =>
    }
    assert pages[..|pages|] == pages;
  }

  // ---------------------------------------------------------------- all sets

  /** A set page of the shop: its address and the set's name. */
  datatype SetPage = SetPage(href: string, name: string)

  function SetNamesOf(setPages: seq<SetPage>): (r: seq<string>)
    ensures |r| == |setPages| && forall i :: 0 <= i < |setPages| ==> r[i] == setPages[i].name
  {
    seq(|setPages|, i requires 0 <= i < |setPages| => setPages[i].name)
  }

  /** The count of each set, read from its first page. */
  function CountOf(base: string, pagination: string -> Option<seq<string>>, sp: SetPage): (r: nat)
    ensures 1 <= r <= U32_MAX
  {
    SetPageCount(pagination(PageLink(base, sp.href, 1)))
  }

  /** The cards of every set, set after set; each box is matched against the names of all the sets. */
  function AllCards(base: string, setPages: seq<SetPage>, pagination: string -> Option<seq<string>>,
                    fetch: string -> Option<seq<Product>>): seq<VendorCard>
  {
    var sets := SetNamesOf(setPages);
    ConcatMap(setPages, (sp: SetPage) => SetCards(base, sets, sp.href, CountOf(base, pagination, sp), fetch))
  }

  /**
   * `scrape_cards` after the set pages are listed: the count of every set,
   * then the cards of every set, then each card pushed onto the bucket of
   * its name.
   */
  method ScrapeCards(base: string, setPages: seq<SetPage>, pagination: string -> Option<seq<string>>,
                     fetch: string -> Option<seq<Product>>) returns (grouped: map<string, seq<VendorCard>>)
    ensures grouped == Grouped(AllCards(base, setPages, pagination, fetch), NameKey)
    ensures forall k :: k in grouped ==> grouped[k] == KeyFilter(AllCards(base, setPages, pagination, fetch), NameKey, k)
  {
    var sets := SetNamesOf(setPages);
    var f := (sp: SetPage) => SetCards(base, sets, sp.href, CountOf(base, pagination, sp), fetch);
    var cards := [];
    for i := 0 to |setPages|
      invariant cards == ConcatMap(setPages[..i], f)
    {
      ConcatMapPrefix(setPages, f, i);
      var count := MaxPageOf(pagination(PageLink(base, setPages[i].href, 1)));
      var setCards := ScrapeSet(base, sets, setPages[i].href, count, fetch);
      cards := cards + setCards;
    }
    assert setPages[..|setPages|] == setPages;
    grouped := GroupBy(cards, NameKey);
  }

  /** The count of one set as the code finds it: 1 when the first page fails, else the pagination loop. */
  method MaxPageOf(pagination: Option<seq<string>>) returns (count: nat)
    ensures count == SetPageCount(pagination)
  {
    match pagination
    case None => count := 1;
    case Some(entries) => count := MaxPage(entries, 1);
  }
}
