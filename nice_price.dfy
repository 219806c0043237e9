/**
 * `filter_nice_price_cards` of `magic_card_scraper`: from the comparison
 * results of every name, keep the cards whose vendor price is low enough
 * against the market, with a rule tiered by the vendor price in SEK. The map
 * is walked in its own (unspecified) order, given here as `order`.
 */
module NicePrice {
  import opened Lists
  import Money
  import opened Cards

  /** The comparison results per name, keyed by the name's `cleaned` text. */
  type ComparedMap = map<string, seq<ComparedCard>>

  /** The vendor price in SEK, as the filter compares it. */
  function VendorSek(c: ComparedCard): real
  {
    Money.ConvertTo(c.vendorCard.price, Money.SEK)
  }

  /**
   * The keep rule: up to 10 SEK the difference must be at most 0, up to 30 SEK
   * at most 5, and above that at most `limit`.
   */
  predicate IsNicePrice(c: ComparedCard, limit: int)
  {
    var sek, diff := VendorSek(c), c.priceDifference;
    if sek <= 10.0 then diff <= 0
    else if sek <= 30.0 then diff <= 5
    else sek > 30.0 && diff <= limit
  }

  /** The tiers are disjoint and cover every price: exactly one of the three bounds applies. */
  lemma TiersPartition(c: ComparedCard, limit: int)
    ensures var sek, diff := VendorSek(c), c.priceDifference;
            IsNicePrice(c, limit) <==> || (sek <= 10.0 && diff <= 0)
                                       || (10.0 < sek <= 30.0 && diff <= 5)
                                       || (30.0 < sek && diff <= limit)
    ensures var sek := VendorSek(c);
            (if sek <= 10.0 then 1 else 0) + (if 10.0 < sek <= 30.0 then 1 else 0) + (if 30.0 < sek then 1 else 0) == 1
  {
  }

  /** The limit only matters above 30 SEK. */
  lemma LimitOnlyAboveThirty(c: ComparedCard, limit1: int, limit2: int)
    requires VendorSek(c) <= 30.0
    ensures IsNicePrice(c, limit1) == IsNicePrice(c, limit2)
  {
  }

  /** `.values().flatten()`: every name's results, one name after another. */
  function Flatten(m: ComparedMap, order: seq<string>): (r: seq<ComparedCard>)
    requires forall i :: 0 <= i < |order| ==> order[i] in m
    ensures forall i :: 0 <= i < |order| ==> multiset(m[order[i]]) <= multiset(r)
    decreases |order|
  {
    if order == [] then []
    else
      var init := order[..|order| - 1];
      var r := Flatten(m, init) + m[order[|order| - 1]];
      assert forall i :: 0 <= i < |init| ==> init[i] == order[i];
      r
  }

  /** The cards of `s` that keep the rule, in order. */
  function Nice(s: seq<ComparedCard>, limit: int): (r: seq<ComparedCard>)
    ensures |r| <= |s|
    ensures forall c :: c in r <==> c in s && IsNicePrice(c, limit)
    decreases |s|
  {
    if s == [] then []
    else
      var init := s[..|s| - 1];
      var last := s[|s| - 1];
      assert s == init + [last];
      Nice(init, limit) + (if IsNicePrice(last, limit) then [last] else [])
  }

  /** `filter_nice_price_cards`. */
  function FilterNicePriceCards(m: ComparedMap, order: seq<string>, limit: int): (r: seq<ComparedCard>)
    requires Distinct(order) && forall k :: k in order <==> k in m
    ensures forall c :: c in r ==> IsNicePrice(c, limit) && exists k :: k in m && c in m[k]
    ensures forall k, c :: k in m && c in m[k] && IsNicePrice(c, limit) ==> c in r
  {
    var all := Flatten(m, order);
    forall k, c | k in m && c in m[k]
      ensures c in all
    {
      var i :| 0 <= i < |order| && order[i] == k;
      assert c in multiset(m[order[i]]);
    }
    forall c | c in all
      ensures exists k :: k in m && c in m[k]
    {
      FlattenMember(m, order, c);
    }
    Nice(all, limit)
  }

  lemma {:induction false} FlattenMember(m: ComparedMap, order: seq<string>, c: ComparedCard)
    requires forall i :: 0 <= i < |order| ==> order[i] in m
    requires c in Flatten(m, order)
    ensures exists i :: 0 <= i < |order| && c in m[order[i]]
    decreases |order|
  {
    var init, last := order[..|order| - 1], order[|order| - 1];
    if c in m[last] {
    } else {
      FlattenMember(m, init, c);
    }
  }

  /** Filtering never duplicates a card: the kept cards are a sub-multiset of the input. */
  lemma {:induction false} NiceSubMultiset(s: seq<ComparedCard>, limit: int)
    ensures multiset(Nice(s, limit)) <= multiset(s)
    decreases |s|
  {
    if s != [] {
      var init, last := s[..|s| - 1], s[|s| - 1];
      assert s == init + [last];
      NiceSubMultiset(init, limit);
    }
  }

  /** The output is a sub-multiset of all the results flattened: each input card appears at most once. */
  lemma NoCardTwice(m: ComparedMap, order: seq<string>, limit: int)
    requires Distinct(order) && forall k :: k in order <==> k in m
    ensures multiset(FilterNicePriceCards(m, order, limit)) <= multiset(Flatten(m, order))
  {
    NiceSubMultiset(Flatten(m, order), limit);
  }

  /** A card kept under one limit is kept under any higher limit. */
  lemma NiceMonotone(c: ComparedCard, limit1: int, limit2: int)
    requires limit1 <= limit2 && IsNicePrice(c, limit1)
    ensures IsNicePrice(c, limit2)
  {
  }

  /** Raising the limit only adds cards: the lower limit's output is a sub-multiset of the higher one's. */
  lemma {:induction false} RaisingLimitKeeps(s: seq<ComparedCard>, limit1: int, limit2: int)
    requires limit1 <= limit2
    ensures multiset(Nice(s, limit1)) <= multiset(Nice(s, limit2))
    decreases |s|
  {
    if s != [] {
      var init, last := s[..|s| - 1], s[|s| - 1];
      RaisingLimitKeeps(init, limit1, limit2);
      if IsNicePrice(last, limit1) {
        NiceMonotone(last, limit1, limit2);
      }
    }
  }
}
