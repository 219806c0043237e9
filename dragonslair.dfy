/**
 * The Dragonslair scraper of `dl_scraper` (`dragonslair_scraper.rs`): one
 * listing per converted mana cost (cmc), each split over numbered pages. The
 * page count of a cmc is read from a probe of page 0, the page URLs of all
 * cmcs are fetched and parsed, and the cards are grouped by name. Requests and
 * HTML extraction are parameters: `pagination` gives the texts of the
 * pagination links of a page (or `None` when it cannot be fetched or read),
 * and `fetch` the cards parsed from a page (or the error).
 */
module Dragonslair {
  import opened Wrappers
  import opened Text
  import opened Lists
  import opened Cards

  /** The cmc listings used when none are given; there is no listing for 14. */
  const DefaultCmcs: seq<nat> := [0, 1, 2, 3, 4, 5, 6, 7, 8, 9, 10, 11, 12, 13, 15, 16]

  /** `new`: the given cmc listings, or the default ones. */
  function CmcsAvailable(given: Option<seq<nat>>): seq<nat>
  {
    match given
    case Some(cmcs) => cmcs
    case None => DefaultCmcs
  }

  /** Without a list of its own, the scraper visits every cmc from 0 to 16 except 14, once each and in ascending order. */
  lemma DefaultCmcsSkipFourteen()
    ensures var d := CmcsAvailable(None);
            && 14 !in d
            && (forall c: nat :: c <= 16 && c != 14 ==> c in d)
            && (forall i, j :: 0 <= i < j < |d| ==> d[i] < d[j])
  {
  }

  // ---------------------------------------------------------------- page count

  /**
   * `get_page_count` after the request: with three or more pagination links
   * the count is the third link from the end read as a `u32` (the two after
   * it are the "next" and "last" arrows); with fewer links there is one page.
   * A page that cannot be fetched or read has no count.
   */
  function GetPageCount(links: Option<seq<string>>): Option<nat>
  {
    match links
    case None => None
    case Some(ls) =>
      if |ls| >= 3 then
        match ParseU32(ls[|ls| - 3])
        case None => None
        case Some(n) => Some(n as nat)
      else Some(1)
  }

  /** Fewer than three pagination links mean one page. */
  lemma FewLinksMeanOnePage(ls: seq<string>)
    requires |ls| < 3
    ensures GetPageCount(Some(ls)) == Some(1)
  {
  }

  /** Numbered page links followed by the two arrows give the number of the last page. */
  lemma LastNumberedLinkIsTheCount(pages: seq<string>, n: nat, next: string, last: string)
    requires n <= U32_MAX
    ensures GetPageCount(Some(pages + [NatToString(n), next, last])) == Some(n)
  {
    var ls := pages + [NatToString(n), next, last];
    assert ls[|ls| - 3] == NatToString(n);
    ParseNatToString(n, false, 0, U32_MAX);
  }

  /** A third-from-last link without any digit (an arrow, say) gives no count. */
  lemma NonNumericLinkGivesNoCount(pages: seq<string>, t: string, next: string, last: string)
    requires forall i :: 0 <= i < |t| ==> !IsDigit(t[i])
    ensures GetPageCount(Some(pages + [t, next, last])) == None
  {
    var ls := pages + [t, next, last];
    assert ls[|ls| - 3] == t;
    if t != [] && t[0] == '+' && t[1..] != [] {
      assert !IsDigit(t[1..][0]) by { assert t[1..][0] == t[1]; }
    }
  }

  /** A page that cannot be fetched has no count. */
  lemma FailedProbeHasNoCount()
    ensures GetPageCount(None) == None
  {
  }

  // ---------------------------------------------------------------- page URLs

  const ListingPath: string := "/product/magic/card-singles/store:kungsholmstorg/cmc-"

  /** The URL of page `page` of the listing for `cmc`. */
  function PageUrl(base: string, cmc: nat, page: nat): string
  {
    base + ListingPath + NatToString(cmc) + "/" + NatToString(page)
  }

  /** `generate_card_urls`: the URLs of pages 1 to `pageCount`, in ascending order. */
  function GenerateCardUrls(base: string, pageCount: nat, cmc: nat): (r: seq<string>)
    ensures |r| == pageCount
    ensures forall i :: 0 <= i < pageCount ==> r[i] == PageUrl(base, cmc, i + 1)
    decreases pageCount
  {
    if pageCount == 0 then [] else GenerateCardUrls(base, pageCount - 1, cmc) + [PageUrl(base, cmc, pageCount)]
  }

  /** Two digit strings each followed by `/` split a text the same way only if they are the same. */
  lemma DigitsBeforeSlash(a: string, x: string, b: string, y: string)
    requires AllDigits(a) && AllDigits(b)
    requires a + "/" + x == b + "/" + y
    ensures a == b && x == y
  {
    var s := a + "/" + x;
    assert '/' !in a && '/' !in b by {
      assert forall i :: 0 <= i < |a| ==> IsDigit(a[i]);
      assert forall i :: 0 <= i < |b| ==> IsDigit(b[i]);
    }
    FindFirstChar(a, '/', x);
    FindFirstChar(b, '/', y);
    assert a == s[..|a|] == b;
    assert x == s[|a| + 1..] == y;
  }

  /** Decimal text is different for different numbers. */
  lemma NatToStringInjective(a: nat, b: nat)
    requires NatToString(a) == NatToString(b)
    ensures a == b
  {
    assert DigitsValue(NatToString(a)) == a && DigitsValue(NatToString(b)) == b;
  }

  /** A page URL names its cmc and its page: different listings or pages never share a URL. */
  lemma PageUrlDetermines(base: string, c1: nat, p1: nat, c2: nat, p2: nat)
    requires PageUrl(base, c1, p1) == PageUrl(base, c2, p2)
    ensures c1 == c2 && p1 == p2
  {
    var pre := base + ListingPath;
    var t1 := NatToString(c1) + "/" + NatToString(p1);
    var t2 := NatToString(c2) + "/" + NatToString(p2);
    assert PageUrl(base, c1, p1) == pre + t1;
    assert PageUrl(base, c2, p2) == pre + t2;
    assert t1 == (pre + t1)[|pre|..] == (pre + t2)[|pre|..] == t2;
    DigitsBeforeSlash(NatToString(c1), NatToString(p1), NatToString(c2), NatToString(p2));
    NatToStringInjective(c1, c2);
    NatToStringInjective(p1, p2);
  }

  /** The generated URLs are all different, and none of them is the probe of page 0. */
  lemma GeneratedUrlsDistinct(base: string, pageCount: nat, cmc: nat)
    ensures Distinct(GenerateCardUrls(base, pageCount, cmc))
    ensures PageUrl(base, cmc, 0) !in GenerateCardUrls(base, pageCount, cmc)
  {
    var r := GenerateCardUrls(base, pageCount, cmc);
    forall i, j | 0 <= i < j < |r|
      ensures r[i] != r[j]
    {
      if r[i] == r[j] {
        PageUrlDetermines(base, cmc, i + 1, cmc, j + 1);
      }
    }
    if PageUrl(base, cmc, 0) in r {
      var i :| 0 <= i < |r| && r[i] == PageUrl(base, cmc, 0);
      PageUrlDetermines(base, cmc, i + 1, cmc, 0);
    }
  }

  // ---------------------------------------------------------------- URLs of all listings

  /** The URLs one cmc contributes: its pages, or none when the probe of page 0 gives no count. */
  function UrlsOf(base: string, cmc: nat, pagination: string -> Option<seq<string>>): seq<string>
  {
    match GetPageCount(pagination(PageUrl(base, cmc, 0)))
    case None => []
    case Some(n) => GenerateCardUrls(base, n, cmc)
  }

  /** `get_card_urls`: the URLs of every cmc, the cmcs in the order given. */
  function GetCardUrls(base: string, cmcs: seq<nat>, pagination: string -> Option<seq<string>>): seq<string>
  {
    ConcatMap(cmcs, (cmc: nat) => UrlsOf(base, cmc, pagination))
  }

  /** The URLs for two runs of cmcs are those of the first run followed by those of the second. */
  lemma CardUrlsInCmcOrder(base: string, a: seq<nat>, b: seq<nat>, pagination: string -> Option<seq<string>>)
    ensures GetCardUrls(base, a + b, pagination) == GetCardUrls(base, a, pagination) + GetCardUrls(base, b, pagination)
  {
    ConcatMapAppend(a, b, (cmc: nat) => UrlsOf(base, cmc, pagination));
  }

  /** A cmc whose probe gives no count adds no URLs, and the other cmcs' URLs are unchanged. */
  lemma FailedProbeContributesNothing(base: string, a: seq<nat>, cmc: nat, b: seq<nat>, pagination: string -> Option<seq<string>>)
    requires GetPageCount(pagination(PageUrl(base, cmc, 0))).None?
    ensures GetCardUrls(base, a + [cmc] + b, pagination) == GetCardUrls(base, a + b, pagination)
  {
    var f := (c: nat) => UrlsOf(base, c, pagination);
    assert ConcatMap([cmc], f) == [] by {
      assert [cmc][..0] == [];
    }
    assert ConcatMap(a + [cmc], f) == ConcatMap(a, f) by {
      ConcatMapAppend(a, [cmc], f);
    }
    ConcatMapAppend(a + [cmc], b, f);
    ConcatMapAppend(a, b, f);
  }

  /** A cmc whose probe gives a count adds exactly the URLs of its pages 1 to that count. */
  lemma CountedCmcAddsItsPages(base: string, cmc: nat, n: nat, pagination: string -> Option<seq<string>>)
    requires GetPageCount(pagination(PageUrl(base, cmc, 0))) == Some(n)
    ensures GetCardUrls(base, [cmc], pagination) == GenerateCardUrls(base, n, cmc)
  {
    var f := (c: nat) => UrlsOf(base, c, pagination);
    assert [cmc][..0] == [];
    assert ConcatMap([cmc], f) == ConcatMap([cmc][..0], f) + f(cmc);
  }

  /** No probe URL is ever among the URLs fetched for cards: every one of them is a page numbered 1 or more. */
  lemma ProbesNeverFetched(base: string, cmcs: seq<nat>, pagination: string -> Option<seq<string>>, c: nat)
    ensures PageUrl(base, c, 0) !in GetCardUrls(base, cmcs, pagination)
  {
    var f := (cmc: nat) => UrlsOf(base, cmc, pagination);
    var probe := PageUrl(base, c, 0);
    if probe in ConcatMap(cmcs, f) {
      ConcatMapMember(cmcs, f, probe);
      var i :| 0 <= i < |cmcs| && probe in f(cmcs[i]);
      var count := GetPageCount(pagination(PageUrl(base, cmcs[i], 0)));
      var us := GenerateCardUrls(base, count.value, cmcs[i]);
      var j :| 0 <= j < |us| && us[j] == probe;
      PageUrlDetermines(base, cmcs[i], j + 1, c, 0);
    }
  }

  // ---------------------------------------------------------------- cards

  /** The cards of one page: those parsed, or none when the fetch failed. */
  function CardsOfPage(url: string, fetch: string -> Result<seq<VendorCard>, string>): seq<VendorCard>
  {
    match fetch(url)
    case Ok(cards) => cards
    case Err(_) => []
  }

  /** `fetch_cards`: the cards of every page, in URL order. */
  function FetchCards(urls: seq<string>, fetch: string -> Result<seq<VendorCard>, string>): seq<VendorCard>
  {
    ConcatMap(urls, (url: string) => CardsOfPage(url, fetch))
  }

  /** A failed page adds no cards and leaves the cards of every other page as they are. */
  lemma FailedFetchIsolated(a: seq<string>, url: string, b: seq<string>, fetch: string -> Result<seq<VendorCard>, string>)
    requires fetch(url).Err?
    ensures FetchCards(a + [url] + b, fetch) == FetchCards(a, fetch) + FetchCards(b, fetch)
  {
    var f := (u: string) => CardsOfPage(u, fetch);
    assert ConcatMap([url], f) == [] by {
      assert [url][..0] == [];
    }
    assert ConcatMap(a + [url], f) == ConcatMap(a, f) by {
      ConcatMapAppend(a, [url], f);
    }
    ConcatMapAppend(a + [url], b, f);
  }

  /** A page that parses adds its cards, in order, at its place. */
  lemma FetchedPageInPlace(a: seq<string>, url: string, b: seq<string>, fetch: string -> Result<seq<VendorCard>, string>)
    requires fetch(url).Ok?
    ensures FetchCards(a + [url] + b, fetch) == FetchCards(a, fetch) + fetch(url).value + FetchCards(b, fetch)
  {
    var f := (u: string) => CardsOfPage(u, fetch);
    assert ConcatMap([url], f) == fetch(url).value by {
      assert [url][..0] == [];
    }
    assert ConcatMap(a + [url], f) == ConcatMap(a, f) + fetch(url).value by {
      ConcatMapAppend(a, [url], f);
    }
    ConcatMapAppend(a + [url], b, f);
  }

  // ---------------------------------------------------------------- grouping

  /**
   * `group_cards`: every card is pushed, in input order, onto the bucket of
   * its name; a bucket exists exactly for the names that occur.
   */
  method GroupCards(cards: seq<VendorCard>) returns (m: map<string, seq<VendorCard>>)
    ensures m == Grouped(cards, NameKey)
    ensures forall k :: k in m <==> exists i :: 0 <= i < |cards| && cards[i].name.cleaned == k
    ensures forall k :: k in m ==> m[k] == KeyFilter(cards, NameKey, k)
  {
    m := GroupBy(cards, NameKey);
  }

  /** The buckets together hold every card exactly once, so their total is the number of cards. */
  lemma GroupedCardsTotal(cards: seq<VendorCard>, names: seq<string>)
    requires Distinct(names)
    requires forall k :: k in Grouped(cards, NameKey) <==> k in names
    ensures |Buckets(cards, NameKey, names)| == |cards|
    ensures multiset(Buckets(cards, NameKey, names)) == multiset(cards)
  {
    GroupedTotal(cards, NameKey, names);
  }

  /** `get_available_cards`: the cards of every page of every listing, grouped by name. */
  method GetAvailableCards(base: string, cmcs: seq<nat>, pagination: string -> Option<seq<string>>,
                           fetch: string -> Result<seq<VendorCard>, string>)
    returns (m: map<string, seq<VendorCard>>)
    ensures m == Grouped(FetchCards(GetCardUrls(base, cmcs, pagination), fetch), NameKey)
  {
    var urls := GetCardUrls(base, cmcs, pagination);
    var cards := FetchCards(urls, fetch);
    m := GroupCards(cards);
  }
}
