/**
 * `Comparer` of the newest crate: vendor cards, grouped by name, are split by
 * foil state, each one is matched against the reference records of its name
 * (collector number first, then set), priced from the matching record or a
 * live lookup, and the truncated SEK difference is recorded. Maps keyed by
 * `CardName` are modelled as maps keyed by its `cleaned` text, which is what
 * the name hashes by. The live price fetcher is the parameter `live`; the
 * `external_price_check` setting is the parameter `externalCheck`.
 */
module Comparer {
  import opened Wrappers
  import opened Lists
  import Money
  import CardNames
  import SetNames
  import CollectorNumbers
  import opened Cards

  type VendorMap = map<string, seq<VendorCard>>
  type ReferenceMap = map<string, seq<ScryfallCard>>

  /** The live lookup by name and set, standing in for `MtgPriceFetcher::get_live_card_price`. */
  type LiveLookup = (CardNames.CardName, SetNames.SetName) -> Result<Money.Price, string>

  /** Every card sits in the bucket of its own name, as the scrapers build these maps. */
  predicate Keyed(m: VendorMap)
  {
    forall k :: k in m ==> forall i :: 0 <= i < |m[k]| ==> m[k][i].name.cleaned == k
  }

  // ---------------------------------------------------------------- foil split

  /** The cards of `s` whose foil flag is `foil`, in order (one side of `partition`). */
  function Part(s: seq<VendorCard>, foil: bool): (r: seq<VendorCard>)
    ensures |r| <= |s|
    ensures forall i :: 0 <= i < |r| ==> r[i].foil == foil && r[i] in s
    decreases |s|
  {
    if s == [] then []
    else (if s[0].foil == foil then [s[0]] else []) + Part(s[1..], foil)
  }

  /** The two sides of the partition together are a permutation of the list. */
  lemma {:induction false} PartPermutation(s: seq<VendorCard>)
    ensures multiset(Part(s, true)) + multiset(Part(s, false)) == multiset(s)
    decreases |s|
  {
    if s != [] {
      PartPermutation(s[1..]);
      assert s == [s[0]] + s[1..];
    }
  }

  /** A card lands on the foil side exactly when it is foil. */
  lemma {:induction false} PartMembership(s: seq<VendorCard>, c: VendorCard)
    ensures c in Part(s, true) <==> c in s && c.foil
    ensures c in Part(s, false) <==> c in s && !c.foil
    decreases |s|
  {
    if s != [] {
      PartMembership(s[1..], c);
    }
  }

  /**
   * `separete_foil_and_non_foil_cards`: each bucket is partitioned by the foil
   * flag; a side that comes out empty gets no entry.
   */
  method SeparateFoilAndNonFoil(vendorCards: VendorMap) returns (foil: VendorMap, nonFoil: VendorMap)
    ensures forall k :: k in foil <==> k in vendorCards && Part(vendorCards[k], true) != []
    ensures forall k :: k in foil ==> foil[k] == Part(vendorCards[k], true)
    ensures forall k :: k in nonFoil <==> k in vendorCards && Part(vendorCards[k], false) != []
    ensures forall k :: k in nonFoil ==> nonFoil[k] == Part(vendorCards[k], false)
  {
    foil, nonFoil := map[], map[];
    var rest := vendorCards.Keys;
    while rest != {}
      invariant rest <= vendorCards.Keys
      invariant forall k :: k in foil <==> k in vendorCards && k !in rest && Part(vendorCards[k], true) != []
      invariant forall k :: k in foil ==> foil[k] == Part(vendorCards[k], true)
      invariant forall k :: k in nonFoil <==> k in vendorCards && k !in rest && Part(vendorCards[k], false) != []
      invariant forall k :: k in nonFoil ==> nonFoil[k] == Part(vendorCards[k], false)
      decreases rest
    {
      var k :| k in rest;
      var f, n := Part(vendorCards[k], true), Part(vendorCards[k], false);
      if f != [] {
        foil := foil[k := f];
      }
      if n != [] {
        nonFoil := nonFoil[k := n];
      }
      rest := rest - {k};
    }
  }

  /** Splitting a name's cards keeps them all: foil side plus non-foil side is the whole bucket. */
  lemma SplitKeepsEveryCard(vendorCards: VendorMap, foil: VendorMap, nonFoil: VendorMap, k: string)
    requires forall k :: k in foil <==> k in vendorCards && Part(vendorCards[k], true) != []
    requires forall k :: k in foil ==> foil[k] == Part(vendorCards[k], true)
    requires forall k :: k in nonFoil <==> k in vendorCards && Part(vendorCards[k], false) != []
    requires forall k :: k in nonFoil ==> nonFoil[k] == Part(vendorCards[k], false)
    requires k in vendorCards
    ensures multiset(if k in foil then foil[k] else []) + multiset(if k in nonFoil then nonFoil[k] else [])
            == multiset(vendorCards[k])
  {
    PartPermutation(vendorCards[k]);
  }

  // ---------------------------------------------------------------- matching

  /** `Option<CollectorNumber>` equality: both absent, or both present and equal. */
  predicate SameNumber(a: Option<CollectorNumbers.CollectorNumber>, b: Option<CollectorNumbers.CollectorNumber>)
  {
    match (a, b)
    case (None, None) => true
    case (Some(x), Some(y)) => CollectorNumbers.Eq(x, y)
    case _ => false
  }

  predicate NumberMatches(v: VendorCard, c: ScryfallCard)
  {
    SameNumber(c.collectorNumber, v.collectorNumber)
  }

  predicate SetMatches(v: VendorCard, c: ScryfallCard)
  {
    SetNames.Eq(c.setName, v.setName)
  }

  /**
   * The reference record a vendor card is compared with: the first one with the
   * same collector number if any, otherwise the first one of the same set.
   */
  function MatchIndex(v: VendorCard, refs: seq<ScryfallCard>): (r: Option<nat>)
    ensures r.Some? ==> r.value < |refs|
  {
    match FindFirst(refs, c => NumberMatches(v, c))
    case Some(i) => Some(i)
    case None => FindFirst(refs, c => SetMatches(v, c))
  }

  /**
   * The record matched is the first with an equal collector number when there
   * is one; otherwise the first of the same set, and none when no set matches either.
   */
  lemma MatchIndexIsFirst(v: VendorCard, refs: seq<ScryfallCard>)
    ensures var r := MatchIndex(v, refs);
            && ((exists j :: 0 <= j < |refs| && NumberMatches(v, refs[j])) ==>
                  r.Some? && NumberMatches(v, refs[r.value])
                  && forall j :: 0 <= j < r.value ==> !NumberMatches(v, refs[j]))
            && ((forall j :: 0 <= j < |refs| ==> !NumberMatches(v, refs[j])) ==>
                  (r.Some? <==> exists j :: 0 <= j < |refs| && SetMatches(v, refs[j]))
                  && (r.Some? ==> SetMatches(v, refs[r.value]) && forall j :: 0 <= j < r.value ==> !SetMatches(v, refs[j])))
  {
  }

  /** Two absent collector numbers count as equal, so such a vendor card takes the first unnumbered record whatever its set. */
  lemma AbsentNumbersIgnoreSet(v: VendorCard, refs: seq<ScryfallCard>)
    requires v.collectorNumber.None? && |refs| > 0 && refs[0].collectorNumber.None?
    ensures MatchIndex(v, refs) == Some(0)
  {
    MatchIndexIsFirst(v, refs);
    assert NumberMatches(v, refs[0]);
  }

  // ---------------------------------------------------------------- price and delta

  /** `fetch_live_price`: 0 EUR when the live check is switched off, 0 SEK when the lookup fails. */
  function FetchLivePrice(v: VendorCard, externalCheck: bool, live: LiveLookup): (r: Money.Price)
    ensures !externalCheck ==> r == Money.Price(0.0, Money.EUR)
    ensures externalCheck && live(v.name, v.setName).Ok? ==> r == live(v.name, v.setName).value
    ensures externalCheck && live(v.name, v.setName).Err? ==> r == Money.Price(0.0, Money.SEK)
  {
    if !externalCheck then Money.Price(0.0, Money.EUR)
    else match live(v.name, v.setName)
      case Ok(p) => p
      case Err(_) => Money.Price(0.0, Money.SEK)
  }

  /** Whenever no live price is obtained, the fallback is worth nothing in either currency. */
  lemma FallbackIsZero(v: VendorCard, externalCheck: bool, live: LiveLookup)
    requires !externalCheck || live(v.name, v.setName).Err?
    ensures Money.ConvertTo(FetchLivePrice(v, externalCheck, live), Money.SEK) == 0.0
    ensures Money.ToEur(FetchLivePrice(v, externalCheck, live)) == 0.0
  {
  }

  /** The market price used: `eur_foil` for a foil card, `eur` otherwise, falling back to the live price only when that field is absent. */
  function McmPrice(v: VendorCard, ref: ScryfallCard, externalCheck: bool, live: LiveLookup): (r: Money.Price)
    ensures v.foil && ref.prices.eurFoil.Some? ==> r == ref.prices.eurFoil.value
    ensures !v.foil && ref.prices.eur.Some? ==> r == ref.prices.eur.value
    ensures (if v.foil then ref.prices.eurFoil else ref.prices.eur).None? ==> r == FetchLivePrice(v, externalCheck, live)
  {
    var field := if v.foil then ref.prices.eurFoil else ref.prices.eur;
    match field
    case Some(p) => p
    case None => FetchLivePrice(v, externalCheck, live)
  }

  /** `x as i32` for an in-range value: the integer part, truncated toward zero. */
  function TruncToZero(x: real): (n: int)
    ensures 0.0 <= x ==> 0 <= n && n as real <= x < n as real + 1.0
    ensures x < 0.0 ==> n <= 0 && n as real - 1.0 < x <= n as real
  {
    if x >= 0.0 then x.Floor else -((-x).Floor)
  }

  /** The recorded difference: vendor SEK value minus market SEK value, truncated. */
  function Delta(vendorPrice: Money.Price, mcm: Money.Price): (d: int)
    ensures var diff := Money.ConvertTo(vendorPrice, Money.SEK) - Money.ConvertTo(mcm, Money.SEK);
            -1.0 < diff - d as real < 1.0 && (d > 0 ==> diff >= 1.0) && (d < 0 ==> diff <= -1.0)
  {
    TruncToZero(Money.ConvertTo(vendorPrice, Money.SEK) - Money.ConvertTo(mcm, Money.SEK))
  }

  /**
   * A positive difference means the vendor asks more than the market, and a
   * vendor at least one krona cheaper gives a negative one.
   */
  lemma DeltaSign(vendorPrice: Money.Price, mcm: Money.Price)
    ensures Delta(vendorPrice, mcm) > 0 ==> Money.ConvertTo(vendorPrice, Money.SEK) > Money.ConvertTo(mcm, Money.SEK)
    ensures Money.ConvertTo(vendorPrice, Money.SEK) + 1.0 <= Money.ConvertTo(mcm, Money.SEK) ==> Delta(vendorPrice, mcm) < 0
    ensures Money.ConvertTo(vendorPrice, Money.SEK) <= Money.ConvertTo(mcm, Money.SEK) ==> Delta(vendorPrice, mcm) <= 0
  {
  }

  /** `compare_price_of_specific_vendor_card`. */
  function CompareOne(v: VendorCard, refs: seq<ScryfallCard>, externalCheck: bool, live: LiveLookup): (r: Option<ComparedCard>)
    ensures r.None? <==> MatchIndex(v, refs).None?
    ensures r.Some? ==> r.value.vendorCard == v && r.value.scryfallCard == refs[MatchIndex(v, refs).value]
    ensures r.Some? ==> r.value.priceDifference == Delta(v.price, McmPrice(v, r.value.scryfallCard, externalCheck, live))
  {
    match MatchIndex(v, refs)
    case None => None
    case Some(i) => Some(ComparedCard(v, refs[i], Delta(v.price, McmPrice(v, refs[i], externalCheck, live))))
  }

  /** The results of one vendor card: its comparison, or none. */
  function CardResults(v: VendorCard, refs: seq<ScryfallCard>, externalCheck: bool, live: LiveLookup): (r: seq<ComparedCard>)
    ensures |r| <= 1
  {
    match CompareOne(v, refs, externalCheck, live)
    case Some(c) => [c]
    case None => []
  }

  /** `compare_vendorcards_to_mcm_cards`: the `filter_map` of `CompareOne` over the vendor cards, in order. */
  function CompareList(vs: seq<VendorCard>, refs: seq<ScryfallCard>, externalCheck: bool, live: LiveLookup): (r: seq<ComparedCard>)
    ensures refs == [] ==> r == []
    decreases |vs|
  {
    if vs == [] || refs == [] then []
    else CardResults(vs[0], refs, externalCheck, live) + CompareList(vs[1..], refs, externalCheck, live)
  }

  /** At most one result per vendor card. */
  lemma {:induction false} CompareListBound(vs: seq<VendorCard>, refs: seq<ScryfallCard>, externalCheck: bool, live: LiveLookup)
    ensures |CompareList(vs, refs, externalCheck, live)| <= |vs|
    decreases |vs|
  {
    if vs != [] && refs != [] {
      CompareListBound(vs[1..], refs, externalCheck, live);
    }
  }

  /** Every result is the comparison of a card of the list. */
  lemma {:induction false} CompareListMember(vs: seq<VendorCard>, refs: seq<ScryfallCard>, externalCheck: bool, live: LiveLookup, c: ComparedCard)
    requires c in CompareList(vs, refs, externalCheck, live)
    ensures c.vendorCard in vs && CompareOne(c.vendorCard, refs, externalCheck, live) == Some(c)
    decreases |vs|
  {
    var head := CardResults(vs[0], refs, externalCheck, live);
    var rest := CompareList(vs[1..], refs, externalCheck, live);
    assert CompareList(vs, refs, externalCheck, live) == head + rest;
    if c in head {
      assert c == head[0];
    } else {
      CompareListMember(vs[1..], refs, externalCheck, live, c);
      assert c.vendorCard in vs[1..];
    }
  }

  /** A vendor card that finds a record has a result for that card. */
  lemma CompareOneMatched(v: VendorCard, refs: seq<ScryfallCard>, externalCheck: bool, live: LiveLookup)
    requires MatchIndex(v, refs).Some?
    ensures refs != [] && CardResults(v, refs, externalCheck, live) == [CompareOne(v, refs, externalCheck, live).value]
    ensures CompareOne(v, refs, externalCheck, live).value.vendorCard == v
  {
  }

  /** When every vendor card finds a record, there is exactly one result per card, in the same order. */
  lemma {:induction false} CompareListAllMatched(vs: seq<VendorCard>, refs: seq<ScryfallCard>, externalCheck: bool, live: LiveLookup)
    requires forall i :: 0 <= i < |vs| ==> MatchIndex(vs[i], refs).Some?
    ensures |CompareList(vs, refs, externalCheck, live)| == |vs|
    ensures forall i :: 0 <= i < |vs| ==> CompareList(vs, refs, externalCheck, live)[i].vendorCard == vs[i]
    decreases |vs|
  {
    if vs != [] {
      var rest := CompareList(vs[1..], refs, externalCheck, live);
      CompareListAllMatched(vs[1..], refs, externalCheck, live);
      CompareOneMatched(vs[0], refs, externalCheck, live);
      var c := CompareOne(vs[0], refs, externalCheck, live).value;
      var r := CompareList(vs, refs, externalCheck, live);
      assert r == [c] + rest;
      forall i | 1 <= i < |vs|
        ensures r[i].vendorCard == vs[i]
      {
        assert r[i] == rest[i - 1];
        assert vs[1..][i - 1] == vs[i];
      }
    }
  }

  function Bucket<V>(m: map<string, seq<V>>, k: string): seq<V>
  {
    if k in m then m[k] else []
  }

  /** One name's comparison results: its vendor cards against its reference records. */
  function NameResults(m: VendorMap, mcm: ReferenceMap, externalCheck: bool, live: LiveLookup): string -> seq<ComparedCard>
  {
    k => CompareList(Bucket(m, k), Bucket(mcm, k), externalCheck, live)
  }

  /** The concatenation, in the key order `order`, of each name's comparison results. */
  function CompareAll(order: seq<string>, m: VendorMap, mcm: ReferenceMap, externalCheck: bool, live: LiveLookup): seq<ComparedCard>
  {
    ConcatMap(order, NameResults(m, mcm, externalCheck, live))
  }

  /**
   * `compare`: every name of the map, in the map's own (unspecified) order,
   * is compared against the reference records of that name, or against none
   * when the name is missing; the results are concatenated.
   */
  method Compare(m: VendorMap, mcm: ReferenceMap, externalCheck: bool, live: LiveLookup)
    returns (r: seq<ComparedCard>, ghost order: seq<string>)
    ensures Distinct(order) && forall k :: k in order <==> k in m
    ensures r == CompareAll(order, m, mcm, externalCheck, live)
  {
    r, order := [], [];
    var rest := m.Keys;
    while rest != {}
      invariant rest <= m.Keys
      invariant Distinct(order) && forall k :: k in order <==> k in m && k !in rest
      invariant r == CompareAll(order, m, mcm, externalCheck, live)
      decreases rest
    {
      var k :| k in rest;
      ghost var beforeOrder := order;
      var refs := if k in mcm then mcm[k] else [];
      r := r + CompareList(m[k], refs, externalCheck, live);
      DistinctSnoc(order, k);
      order := order + [k];
      assert order[..|order| - 1] == beforeOrder && order[|order| - 1] == k;
      rest := rest - {k};
    }
  }

  /** The grouping key of a result: the name of its vendor card. */
  function ResultKey(c: ComparedCard): string
  {
    c.vendorCard.name.cleaned
  }

  /** Every result of one name's bucket carries that name's key. */
  lemma ResultsKeyed(m: VendorMap, k: string, mcm: ReferenceMap, externalCheck: bool, live: LiveLookup)
    requires Keyed(m)
    ensures var tail := CompareList(Bucket(m, k), Bucket(mcm, k), externalCheck, live);
            forall i :: 0 <= i < |tail| ==> ResultKey(tail[i]) == k
  {
    var b := Bucket(m, k);
    var tail := CompareList(b, Bucket(mcm, k), externalCheck, live);
    forall i | 0 <= i < |tail|
      ensures ResultKey(tail[i]) == k
    {
      assert tail[i] in tail;
      CompareListMember(b, Bucket(mcm, k), externalCheck, live, tail[i]);
      var j :| 0 <= j < |b| && b[j] == tail[i].vendorCard;
    }
  }

  /** Picking one name out of the concatenated results gives back exactly that name's results. */
  lemma KeyFilterCompareAll(order: seq<string>, m: VendorMap, mcm: ReferenceMap, externalCheck: bool, live: LiveLookup, k: string)
    requires Keyed(m) && Distinct(order)
    ensures KeyFilter(CompareAll(order, m, mcm, externalCheck, live), ResultKey, k)
            == if k in order then CompareList(Bucket(m, k), Bucket(mcm, k), externalCheck, live) else []
  {
    var f := NameResults(m, mcm, externalCheck, live);
    forall j, x | x in f(j)
      ensures ResultKey(x) == j
    {
      CompareListMember(Bucket(m, j), Bucket(mcm, j), externalCheck, live, x);
      var b := Bucket(m, j);
      var i :| 0 <= i < |b| && b[i] == x.vendorCard;
    }
    KeyFilterConcatMap(order, f, ResultKey, k);
  }

  /**
   * `compare_vendor_cards`: non-foil results, then foil results, regrouped by
   * the vendor card's name. For a map built by name, each name's entry holds
   * the comparisons of its non-foil cards in input order followed by those of
   * its foil cards in input order, whatever order the map is walked in; a
   * name gets an entry exactly when it produced at least one result.
   */
  method CompareVendorCards(vendorCards: VendorMap, mcm: ReferenceMap, externalCheck: bool, live: LiveLookup)
    returns (grouped: map<string, seq<ComparedCard>>)
    ensures Keyed(vendorCards) ==> forall k ::
              k in grouped <==> k in vendorCards && PerName(vendorCards[k], Bucket(mcm, k), externalCheck, live) != []
    ensures Keyed(vendorCards) ==> forall k :: k in grouped ==>
              grouped[k] == PerName(vendorCards[k], Bucket(mcm, k), externalCheck, live)
  {
    var foil, nonFoil := SeparateFoilAndNonFoil(vendorCards);
    var nonFoilResults, order1 := Compare(nonFoil, mcm, externalCheck, live);
    var foilResults, order2 := Compare(foil, mcm, externalCheck, live);
    var all := nonFoilResults + foilResults;
    grouped := GroupBy(all, ResultKey);
    if Keyed(vendorCards) {
      GroupedPerName(vendorCards, foil, nonFoil, order1, order2, mcm, externalCheck, live);
    }
  }

  /** Grouping the non-foil results followed by the foil results by name gives each name its `PerName`, and only when that is non-empty. */
  lemma GroupedPerName(vendorCards: VendorMap, foil: VendorMap, nonFoil: VendorMap, order1: seq<string>, order2: seq<string>,
                       mcm: ReferenceMap, externalCheck: bool, live: LiveLookup)
    requires Keyed(vendorCards)
    requires forall k :: k in foil <==> k in vendorCards && Part(vendorCards[k], true) != []
    requires forall k :: k in foil ==> foil[k] == Part(vendorCards[k], true)
    requires forall k :: k in nonFoil <==> k in vendorCards && Part(vendorCards[k], false) != []
    requires forall k :: k in nonFoil ==> nonFoil[k] == Part(vendorCards[k], false)
    requires Distinct(order1) && forall k :: k in order1 <==> k in nonFoil
    requires Distinct(order2) && forall k :: k in order2 <==> k in foil
    ensures var g := Grouped(CompareAll(order1, nonFoil, mcm, externalCheck, live) + CompareAll(order2, foil, mcm, externalCheck, live), ResultKey);
            && (forall k :: k in g <==> k in vendorCards && PerName(vendorCards[k], Bucket(mcm, k), externalCheck, live) != [])
            && (forall k :: k in g ==> g[k] == PerName(vendorCards[k], Bucket(mcm, k), externalCheck, live))
  {
    var all := CompareAll(order1, nonFoil, mcm, externalCheck, live) + CompareAll(order2, foil, mcm, externalCheck, live);
    GroupedBuckets(all, ResultKey);
    forall k
      ensures KeyFilter(all, ResultKey, k)
              == if k in vendorCards then PerName(vendorCards[k], Bucket(mcm, k), externalCheck, live) else []
      ensures k in Grouped(all, ResultKey) <==> KeyFilter(all, ResultKey, k) != []
    {
      ResultsOfName(vendorCards, foil, nonFoil, order1, order2, mcm, externalCheck, live, k);
      GroupedKeyFilter(all, ResultKey, k);
    }
  }

  /** One name's share of the non-foil results followed by the foil results is that name's `PerName`. */
  lemma ResultsOfName(vendorCards: VendorMap, foil: VendorMap, nonFoil: VendorMap, order1: seq<string>, order2: seq<string>,
                      mcm: ReferenceMap, externalCheck: bool, live: LiveLookup, k: string)
    requires Keyed(vendorCards)
    requires forall k :: k in foil <==> k in vendorCards && Part(vendorCards[k], true) != []
    requires forall k :: k in foil ==> foil[k] == Part(vendorCards[k], true)
    requires forall k :: k in nonFoil <==> k in vendorCards && Part(vendorCards[k], false) != []
    requires forall k :: k in nonFoil ==> nonFoil[k] == Part(vendorCards[k], false)
    requires Distinct(order1) && forall k :: k in order1 <==> k in nonFoil
    requires Distinct(order2) && forall k :: k in order2 <==> k in foil
    ensures KeyFilter(CompareAll(order1, nonFoil, mcm, externalCheck, live) + CompareAll(order2, foil, mcm, externalCheck, live), ResultKey, k)
            == if k in vendorCards then PerName(vendorCards[k], Bucket(mcm, k), externalCheck, live) else []
  {
    SideKeyed(vendorCards, nonFoil, false);
    SideKeyed(vendorCards, foil, true);
    KeyFilterConcat(CompareAll(order1, nonFoil, mcm, externalCheck, live), CompareAll(order2, foil, mcm, externalCheck, live), ResultKey, k);
    KeyFilterCompareAll(order1, nonFoil, mcm, externalCheck, live, k);
    KeyFilterCompareAll(order2, foil, mcm, externalCheck, live, k);
  }

  /** One side of the split of a map built by name is again built by name. */
  lemma SideKeyed(vendorCards: VendorMap, side: VendorMap, foil: bool)
    requires Keyed(vendorCards)
    requires forall k :: k in side ==> k in vendorCards && side[k] == Part(vendorCards[k], foil)
    ensures Keyed(side)
  {
    forall k, i | k in side && 0 <= i < |side[k]|
      ensures side[k][i].name.cleaned == k
    {
      var b := vendorCards[k];
      assert side[k][i] in b;
      var j :| 0 <= j < |b| && b[j] == side[k][i];
    }
  }

  /** What one name contributes: its non-foil comparisons, then its foil ones. */
  function PerName(cards: seq<VendorCard>, refs: seq<ScryfallCard>, externalCheck: bool, live: LiveLookup): seq<ComparedCard>
  {
    CompareList(Part(cards, false), refs, externalCheck, live) + CompareList(Part(cards, true), refs, externalCheck, live)
  }

  /** A name without reference records yields nothing, and a name never yields more results than it has cards. */
  lemma PerNameBounds(cards: seq<VendorCard>, refs: seq<ScryfallCard>, externalCheck: bool, live: LiveLookup)
    ensures refs == [] ==> PerName(cards, refs, externalCheck, live) == []
    ensures |PerName(cards, refs, externalCheck, live)| <= |cards|
  {
    PartPermutation(cards);
    CompareListBound(Part(cards, false), refs, externalCheck, live);
    CompareListBound(Part(cards, true), refs, externalCheck, live);
    assert |multiset(Part(cards, true))| + |multiset(Part(cards, false))| == |multiset(cards)|;
  }
}
