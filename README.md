# Magic card price comparison — a Dafny model

This project models the decision logic of a set of Rust programs that scrape
Magic: The Gathering card listings from Swedish shops (Dragonslair and
Alphaspel), read Scryfall's bulk price data and a Delver Lens collection
export, and then answer two questions:

- which shop cards are cheaper or dearer than the market (Cardmarket) price;
- which of a collector's own cards a shop would take in trade.

The repository holds the newest program (`magic_card_scraper/`) and three
earlier ones (`mtg-rust/`, `mtg_rust/`, `dl_scraper/`). The earlier programs
behave differently in places, so each gets its own small model.

What is modelled, file by file:

- **Identity values.**
  - `CardNames` models `CardName` and `LegacyCards` models the older one.
  - `SetNames` and `CollectorNumbers` model their source types.
  - `Cleaning` models the two `clean_string`/`clean_word` helpers.
  - Each constructor is a function returning a `Result`, with lemmas for:
    - idempotence;
    - the algebra of the custom equalities (reflexive, symmetric, not transitive);
    - the serialise/deserialise round trip.
- **Money.**
  - `Money` covers currencies, fixed exchange rates, conversion, comparison through EUR and two-decimal display.
  - `LegacyMoney` covers the older rate table.
  - Amounts are `real`.
- **Comparison.**
  - `Comparer` is the newest comparer. Its foil split and grouping loops are methods proved against list functions.
  - `LegacyCompare` is the older cheapest-price comparer.
  - `NicePrice` is the tiered "nice price" filter.
- **Trades.**
  - `TradeMatcher`, `LegacyTrade` and `EarlyTrade` are the three versions of matching personal cards against shop stock.
  - `DelverConverter`, `DelverText` and `LegacyDelverRows` convert the Delver Lens rows.
  - `TradePage` is the value-trade rule and the row order of the trade page.
- **Live prices.**
  - `StockCache` is the cached price fetcher, a class whose `cache` map field is updated in place.
  - `NameCache` is the older name-keyed cache, also a class.
  - `StockApi` and `PriceChecker` are the uncached fetcher and the shaping of the remote answers.
- **Scrapers, after extraction.**
  - `Dragonslair`, `DlRows`, `DlCardParser` and `DlLegacyParser` model the Dragonslair page counts, URLs and row parsing.
  - `Alphaspel` and `LegacyAlphaspel` model the Alphaspel product boxes and pagination.
  - `Scryfall` and `LegacyScryfall` model the Scryfall record filters and conversion.
  - The scrapers work on the strings that the HTML selectors and JSON indexing extract. Those strings are the models' inputs.
- **Shared modules.**
  - `Wrappers` holds `Option` and `Result`.
  - `Text` holds Rust's string operations over ASCII: trim, split, replace, find, integer parsing and printing.
  - `Lists` holds the generic list helpers: map, concat-map, first match, group-by-key with its per-key filter, and a fallible filter-map.
  - `Cards` holds the record types.

The following cross-cutting decisions apply throughout:

- **Network calls.** Remote calls are function parameters. This covers card search, prints, page fetches, the exchange rate and the live price.
- **Panics.**
  - An `unwrap` on a row's fields or on a number read from them becomes a `requires` or an error case.
  - An `unwrap` on a network answer or on the shape of a JSON answer is lost with the network abstraction. Examples are `reqwest::get(..).unwrap()` in the old Alphaspel parser and the field look-ups of the price checker. The oracle parameters are total, so those panics cannot happen in the model.
- **Maps keyed by the newest `CardName`.** A `HashMap` keyed by it is keyed here by the name's `cleaned` text, because that is all the name's hash and order look at.
- **Maps keyed by the older `CardName`.** Its equality and hash are derived, so its maps are keyed by the whole value.
- **Map iteration order.** Where a loop walks a `HashMap`, the order is a duplicate-free listing of the keys. The order is a parameter, and results are stated per key.

Where the code and its comments or documentation disagree, the model follows
the code:

- **Newest `CardName`, names without "(".** A name without "(" keeps its surrounding whitespace in `almost_raw`; only a name cut at "(" is trimmed (`magic_card_scraper/src/cards/cardname.rs:39-42`).
- **Newest comparer, external check off.** The live fallback with the external check off prices the card at 0 EUR instead of skipping it (`magic_card_scraper/src/comparer.rs:202-219`).
- **Sign of the newest comparer's difference.** The difference is vendor minus market, so a positive value means the vendor is dearer. This is the opposite of the comment on the field (`magic_card_scraper/src/cards/compared_card.rs:9`).
- **Older comparer, check flag.** The external-check flag acts inverted: set, it refuses instead of looking the price up (`mtg-rust/src/utils/compare_prices.rs:160-168`).
- **Older Scryfall filter.** The three filters are joined with `||`, so the filter lets every record through (`mtg-rust/src/scryfall/scryfall_mcm_cards.rs:85`).
- **The "Æ" replacement.** It runs after lower-casing and never matches (`mtg-rust/src/utils/string_manipulators.rs`).
- **Nice-price tiers.** The tiers are 10 and 30 SEK, not the 15 SEK the comment above the filter names (`magic_card_scraper/src/html_generator.rs:11-32`).

## Model

| member | source | states |
|---|---|---|
| Cleaning.CleanString | magic_card_scraper/src/utilities/string_manipulators.rs:9-16 | the result is trimmed, holds only alphanumerics and whitespace, and keeps every alphanumeric character of the input, in order and in its case |
| Cleaning.CleanWord | mtg-rust/src/utils/string_manipulators.rs:10-18 | the result is trimmed, holds only lower-case alphanumerics and plain spaces, and its alphanumerics are those of the lower-cased input, in order |
| Cleaning.CleanStringIdempotent | magic_card_scraper/src/utilities/string_manipulators.rs:9-16 | cleaning a cleaned string changes nothing |
| Cleaning.CleanStringKeepsCase | magic_card_scraper/src/utilities/string_manipulators.rs:12 | every alphanumeric character of the input survives unchanged |
| Cleaning.CleanWordIdempotent | mtg-rust/src/utils/string_manipulators.rs:10-18 | `clean_word` of a cleaned word changes nothing |
| Cleaning.CleanWordDropsTabsAndPunctuation | mtg-rust/src/utils/string_manipulators.rs:13 | tabs, newlines and punctuation never survive; what remains is spaces, lower-case letters and digits |
| CardNames.RemoveParenthesisSuffix | magic_card_scraper/src/cards/cardname.rs:39-42 | without a `(` the text is returned untouched; with one, the result has no `(`, is trimmed and is shorter than the input |
| CardNames.FirstOccurrence | magic_card_scraper/src/cards/cardname.rs:40 | a `(` at position j means `find` reports one at or before j |
| CardNames.New | magic_card_scraper/src/cards/cardname.rs:17-36 | keeps `raw`, sets `almost_raw`, `cleaned` and the double-faced flag as `new` derives them; succeeds exactly when neither the cut text nor its cleaned form is empty and the cleaned form is no basic land; the error names the reason |
| CardNames.NewWellFormed | magic_card_scraper/src/cards/cardname.rs:17-36 | every name `new` builds satisfies the field invariant, and its key is already clean |
| CardNames.BasicLandsRejected | magic_card_scraper/src/cards/cardname.rs:26-56 | a name whose cleaned text is one of the five basic lands is rejected with the basic-land error, whatever follows in brackets |
| CardNames.EqReflexive | magic_card_scraper/src/cards/cardname.rs:59-66 | every name equals itself |
| CardNames.EqSymmetric | magic_card_scraper/src/cards/cardname.rs:59-66 | equality is symmetric |
| CardNames.EqSingleFaced | magic_card_scraper/src/cards/cardname.rs:60-65 | between two single-faced names equality is exactly equality of the cleaned keys |
| CardNames.EqNotTransitive | magic_card_scraper/src/cards/cardname.rs:60-65 | for any two one-word faces with different keys, the name `new` builds from "F // G" is double-faced and equals the names built from each face, while those two differ: equality is not transitive |
| CardNames.FaceBuilt | magic_card_scraper/src/cards/cardname.rs:17-36 | a one-word name that is no basic land is kept whole, keyed by its lower-cased text and single-faced |
| CardNames.DoubleFacedBuilt | magic_card_scraper/src/cards/cardname.rs:17-36 | "F // G" is kept whole, double-faced, and keyed by both faces lower-cased with two spaces between, the slashes dropped |
| CardNames.CompareStringsEqual | magic_card_scraper/src/cards/cardname.rs:77-79 | string comparison answers Equal exactly for equal strings |
| CardNames.CompareStringsAntisymmetric | magic_card_scraper/src/cards/cardname.rs:77-79 | swapping the operands flips the ordering |
| CardNames.Compare | magic_card_scraper/src/cards/cardname.rs:70-80 | the ordering is Equal exactly when the cleaned keys agree, and swapping the names flips it |
| CardNames.SameCleanedAgrees | magic_card_scraper/src/cards/cardname.rs:59-85 | names with the same key are equal, order as Equal and hash alike |
| CardNames.EqButDifferentHash | magic_card_scraper/src/cards/cardname.rs:59-85 | for any two one-word faces, the names `new` builds from "F // G" and from F are equal yet hash and order differently |
| CardNames.Deserialize | magic_card_scraper/src/cards/cardname.rs:96-104 | the value read back keeps the text as `raw` and is well formed |
| CardNames.SerdeRoundTrip | magic_card_scraper/src/cards/cardname.rs:87-104 | serializing a name built by `new` and reading it back gives the same value |
| SetNames.StripQuotes | magic_card_scraper/src/cards/setname.rs:11 | no single or double quote is left, and every other character stays |
| SetNames.CleanSetNameShape | magic_card_scraper/src/cards/setname.rs:21-28 | the key is trimmed, holds only lower-case letters, digits and whitespace, and keeps every letter and digit of the input, lower-cased |
| SetNames.New | magic_card_scraper/src/cards/setname.rs:10-19 | succeeds exactly when neither the quote-free text nor its cleaned key is empty; `raw` is the quote-free text and `cleaned` its key |
| SetNames.RejectsPunctuationOnly | magic_card_scraper/src/cards/setname.rs:14-16 | input of only quotes, punctuation and whitespace is rejected |
| SetNames.RebuildFromRaw | magic_card_scraper/src/cards/setname.rs:10-19 | building again from `raw` reproduces the same set name |
| SetNames.EqIgnoresCase | magic_card_scraper/src/cards/setname.rs:31-35 | inputs that differ only in letter case build equal set names |
| SetNames.DerivedEqCompareRaw | mtg-rust/src/cards/card.rs:3-19 | under the derived equality of `mtg-rust` distinct quote-free inputs never build equal values |
| SetNames.CleanSetNameOfLower | magic_card_scraper/src/cards/setname.rs:21-28 | lower-casing before cleaning changes nothing, as the key is lower-cased last |
| CollectorNumbers.New | magic_card_scraper/src/cards/collector_number.rs:11-26 | accepted exactly when the trimmed token has one of the accepted shapes; raw value is the trimmed token, cleaned value its lower-case form |
| CollectorNumbers.DashShapeSubsumed | magic_card_scraper/src/cards/collector_number.rs:28-46 | every dash-separated token also has the underscore-and-dash shape |
| CollectorNumbers.DigitRunsOutsideTwoToEight | magic_card_scraper/src/cards/collector_number.rs:37-39 | a single digit, or nine or more digits, is rejected |
| CollectorNumbers.EqIgnoresCase | magic_card_scraper/src/cards/collector_number.rs:49-53 | two accepted numbers are equal exactly when their trimmed tokens agree ignoring case |
| CollectorNumbers.RebuildFromRaw | magic_card_scraper/src/cards/collector_number.rs:11-26 | building again from the raw value reproduces the same number |
| Money.ExchangeRate | dl_scraper/src/cards/currency.rs:13-18 | both rates are positive |
| Money.CurrencyFromStr | dl_scraper/src/cards/currency.rs:29-38 | accepts exactly the two names "EUR" and "SEK", and what it accepts displays as the same text |
| Money.CurrencyNameRoundTrip | dl_scraper/src/cards/currency.rs:21-38 | parsing the displayed name of a currency gives that currency back |
| Money.RatesNotReciprocal | dl_scraper/src/cards/currency.rs:13-18 | the product of the two rates is above 1, so they are not each other's inverse |
| Money.ToEur | magic_card_scraper/src/cards/price.rs:32-37 | an EUR amount is its own EUR value; a SEK amount is multiplied by the SEK rate |
| Money.ConvertTo | magic_card_scraper/src/cards/price.rs:40-50 | the same currency gives the amount back; otherwise the amount goes through EUR at the table's rates |
| Money.ConversionExamples | magic_card_scraper/src/cards/price.rs:134-143 | the four conversions the unit test expects hold exactly |
| Money.ConvertMonotone | magic_card_scraper/src/cards/price.rs:40-50 | conversion is monotone in the amount and keeps non-negative amounts non-negative |
| Money.RoundTripNotIdentity | magic_card_scraper/src/cards/price.rs:40-50 | converting a non-zero EUR amount to SEK and back does not give it back |
| Money.Trichotomy | magic_card_scraper/src/cards/price.rs:54-65 | exactly one of below, equal and above holds between two prices, and below is above with the operands swapped |
| Money.ComparisonExamples | magic_card_scraper/src/cards/price.rs:123-132 | 5 EUR is below 60 SEK and not above it, 60 SEK equals 60 SEK, and 1 SEK equals its EUR value |
| Money.RoundHalfEven | magic_card_scraper/src/cards/price.rs:115 | the rounded integer is within half a unit of the value and not negative for a non-negative value |
| Money.FormatFixed2RoundTrip | magic_card_scraper/src/cards/price.rs:115 | the two-decimal text always parses back, to within half a hundredth of the value |
| Money.SekShown | magic_card_scraper/src/cards/price.rs:111-114 | the amount shown is the price converted to SEK |
| Money.DisplayShowsSek | magic_card_scraper/src/cards/price.rs:109-117 | the display ends in " SEK" and its number reads back as the SEK value to within half a hundredth |
| LegacyMoney.ToEurRate | mtg-rust/src/delver_lense/price.rs:12-17 | EUR has rate 1.0 and SEK rate 0.1 |
| LegacyMoney.ToEur | mtg-rust/src/delver_lense/price.rs:33-35 | an EUR amount is its own EUR value; ten times the EUR value of a SEK amount is the amount |
| LegacyMoney.TenSekIsOneEur | mtg-rust/src/delver_lense/price.rs:39-58 | ten kronor equal one euro, and x SEK is below x EUR exactly for positive x |
| LegacyMoney.ComparisonExamples | mtg-rust/src/delver_lense/price.rs:89-98 | 5 EUR is below 60 SEK and not above it, and 60 SEK equals 60 SEK |
| LegacyMoney.TablesDisagree | mtg-rust/src/delver_lense/price.rs:12-17 | 60 SEK is 6 EUR under this table but 5.43952746 EUR under the newer one |
| LegacyMoney.DisplayShowsNative | mtg-rust/src/delver_lense/price.rs:61-65 | the display ends in the price's own currency and its number reads back as the native amount to within half a hundredth |
| LegacyCards.RemoveNameDisclaimers | mtg-rust/src/cards/card.rs:56-73 | the loop over the eight disclaimers leaves the text every `replace` in list order leaves, trimmed |
| LegacyCards.OtherParentheticalsStay | mtg-rust/src/cards/card.rs:56-73 | a name holding none of the eight disclaimers is only trimmed, so any other bracketed note stays |
| LegacyCards.New | mtg-rust/src/cards/card.rs:38-54 | succeeds exactly when the disclaimer-free text and its cleaned form are non-empty and the cleaned form is no basic land; keeps the input unchanged as `almost_raw` |
| LegacyCards.DerivedEqSeesRaw | mtg-rust/src/cards/card.rs:31-35 | with derived equality two different inputs never build equal names, even when their keys agree |
| LegacyCards.KeyIsClean | mtg-rust/src/cards/card.rs:75-87 | the key of an accepted name is a trimmed fixed point of `clean_name` and no basic land |
| DelverText.PriceRoundTrip | magic_card_scraper/src/tradable_cards/delver_lense_converter.rs:55-62 | every price the export writes ("<units>,<two digits>" and the euro suffix) reads back as exactly its value |
| DelverText.PlainNumberUnchanged | mtg-rust/src/tradable_cars/delver_lense_card.rs:210-213 | text without the suffix and without a comma is parsed as it stands |
| DelverText.ConvertRarity | magic_card_scraper/src/tradable_cards/delver_lense_converter.rs:44-50 | "U", "R" and "M" give exactly uncommon, rare and mythic; every other text gives common |
| DelverConverter.ConvertStringPriceToPrice | magic_card_scraper/src/tradable_cards/delver_lense_converter.rs:55-62 | succeeds exactly when the cleaned text parses, and then gives that amount in EUR |
| DelverConverter.ConvertRow | magic_card_scraper/src/tradable_cards/delver_lense_converter.rs:35-51 | a row whose unwraps succeed gives the card with the built name and set, foil exactly when the foil field is non-empty, the parsed EUR price, an 8-bit count and the rarity of its letter |
| DelverConverter.ConvertDelverLenseCardToPersonalCard | magic_card_scraper/src/tradable_cards/delver_lense_converter.rs:29-53 | one card per row, the card at each position converted from the row at that position |
| DelverConverter.ExportedPriceConverts | magic_card_scraper/src/tradable_cards/delver_lense_converter.rs:35-51 | a row whose price the export wrote converts, and its card's price is that value in EUR |
| LegacyDelverRows.ConvertRow | mtg-rust/src/tradable_cars/delver_lense_card.rs:192-206 | a row whose unwraps succeed gives the older card: built name keeping the input as `almost_raw`, foil exactly when the field is non-empty, the parsed price, the 8-bit count and the rarity of its letter |
| LegacyDelverRows.ConvertRawCardToPersonalCard | mtg-rust/src/tradable_cars/delver_lense_card.rs:189-208 | one card per row |
| LegacyDelverRows.RowConverted | mtg-rust/src/tradable_cars/delver_lense_card.rs:189-208 | the card at each position is the conversion of the row at that position |
| EarlyTrade.TradeOf | mtg-rust/src/delver_lense/delver_lense_card.rs:62-82 | a personal card gives at most one tradeable card, exactly when some shop card qualifies (same name, foil and set, stock below the maximum); it then asks for the first such card's free room, which is positive, trades the personal count, and tags both prices SEK |
| EarlyTrade.OnePerQualifyingCard | mtg-rust/src/delver_lense/delver_lense_card.rs:56-85 | exactly one tradeable card per personal card that finds a qualifying shop card, so never more than the personal cards |
| EarlyTrade.TradableOrderKept | mtg-rust/src/delver_lense/delver_lense_card.rs:60-84 | the cards for a concatenation of personal lists are the concatenated cards: personal order is kept |
| EarlyTrade.FullEarlierDoesNotHide | mtg-rust/src/delver_lense/delver_lense_card.rs:63-68 | a full shop card ahead of a qualifying one does not hide it: the personal card trades with the later card |
| EarlyTrade.ConvertFoil | mtg-rust/src/delver_lense/delver_lense_card.rs:111-115 | foil exactly for the text "Foil" |
| EarlyTrade.ConvertRow | mtg-rust/src/delver_lense/delver_lense_card.rs:108-118 | a row whose unwraps succeed gives the card with the built name and set, foil only for "Foil", the parsed price and the 8-bit count |
| EarlyTrade.LowerCaseFoilIsNotFoil | mtg-rust/src/delver_lense/delver_lense_card.rs:111-115 | any foil text other than "Foil", such as "foil", gives a non-foil card |
| EarlyTrade.ConvertRawCardToPersonalCard | mtg-rust/src/delver_lense/delver_lense_card.rs:105-120 | one card per row |
| EarlyTrade.RowConverted | mtg-rust/src/delver_lense/delver_lense_card.rs:105-120 | the card at each position is the conversion of the row at that position |
| LegacyTrade.FindMatchIsFirst | mtg-rust/src/tradable_cars/delver_lense_card.rs:129-137 | the match is absent exactly when no card of the name's bucket is the same card, and otherwise it is the first such card |
| LegacyTrade.DecideOutcome | mtg-rust/src/tradable_cars/delver_lense_card.rs:139-164 | unmatched exactly without a match, stock-full exactly when the match has no room; a trade asks for the free room (positive), trades the personal count, tags the offer SEK and the market price EUR |
| LegacyTrade.LeftoversUnmatched | mtg-rust/src/tradable_cars/delver_lense_card.rs:160-163 | the leftovers are exactly the personal cards without a match |
| LegacyTrade.OutputsBounded | mtg-rust/src/tradable_cars/delver_lense_card.rs:120-169 | tradeable and leftover cards together are at most the personal cards |
| LegacyTrade.WholeNameIsTheKey | mtg-rust/src/tradable_cars/delver_lense_card.rs:129-130 | a shop card whose name has the same key but different raw text is not found: the map is keyed by the whole derived-equality name |
| LegacyTrade.GetTradableAndLeftoverCards | mtg-rust/src/tradable_cars/delver_lense_card.rs:120-169 | the loop returns exactly the tradeable cards and the leftovers the per-card rule gives, in personal order |
| TradeMatcher.FindMatchIsFirst | magic_card_scraper/src/tradable_cards/tradable_card_comparer.rs:89-97 | no match exactly when no card of the name's bucket has equal name, foil and set; otherwise the match is the first such card |
| TradeMatcher.DecideOutcome | magic_card_scraper/src/tradable_cards/tradable_card_comparer.rs:99-128 | unmatched exactly without a match, dropped as full exactly when the match has no room; a trade asks for the free room (positive), trades the personal count, keeps the personal price as market price, prices the offer in SEK and names the shop |
| TradeMatcher.Tradeable | magic_card_scraper/src/tradable_cards/tradable_card_comparer.rs:86-130 | never more tradeable cards than personal cards |
| TradeMatcher.Leftovers | magic_card_scraper/src/tradable_cards/tradable_card_comparer.rs:124-127 | never more leftovers than personal cards |
| TradeMatcher.TradeableFromPersonal | magic_card_scraper/src/tradable_cards/tradable_card_comparer.rs:86-130 | every tradeable card is the outcome of one of the personal cards |
| TradeMatcher.LeftoversUnmatched | magic_card_scraper/src/tradable_cards/tradable_card_comparer.rs:124-127 | a card is a leftover exactly when it is a personal card without a match |
| TradeMatcher.EveryCardAccounted | magic_card_scraper/src/tradable_cards/tradable_card_comparer.rs:99-128 | tradeable, leftover and full-dropped cards add up to the personal cards: each lands in exactly one place |
| TradeMatcher.TradeableOrderKept | magic_card_scraper/src/tradable_cards/tradable_card_comparer.rs:86-130 | the tradeable cards of a concatenation are the concatenated outputs: personal order is kept |
| TradeMatcher.LeftoversOrderKept | magic_card_scraper/src/tradable_cards/tradable_card_comparer.rs:124-127 | the leftovers of a concatenation are the concatenated leftovers |
| TradeMatcher.FirstMatchDecides | magic_card_scraper/src/tradable_cards/tradable_card_comparer.rs:93-101 | a full match ahead of a free one hides it: the card is dropped rather than traded |
| TradeMatcher.OutputsPrefix | magic_card_scraper/src/tradable_cards/tradable_card_comparer.rs:86-132 | reading one more personal card extends both outputs by that card's part only |
| TradeMatcher.GetTradableAndLeftoverCards | magic_card_scraper/src/tradable_cards/tradable_card_comparer.rs:79-133 | the loop returns exactly the tradeable cards and leftovers of the per-card rule, in personal order |
| TradeMatcher.GetTradableCards | magic_card_scraper/src/tradable_cards/tradable_card_comparer.rs:22-77 | the first pass's trades followed by the trades of the leftovers against the fetched cards grouped by name; never more trades than personal cards |
| TradePage.PercentualDifference | magic_card_scraper/src/tradable_cards/html_generator.rs:99-103 | never negative; positive exactly when the market price is positive and the offer exceeds it, and then it is the excess as a percentage of the market price |
| TradePage.CardRow | magic_card_scraper/src/tradable_cards/html_generator.rs:86-125 | both prices converted to SEK, a non-negative percentage, a value trade exactly at 50 percent or more, " (Foil)" exactly for foils, the almost-raw name, the raw set and both counts |
| TradePage.ValueTradeIffOneAndAHalf | magic_card_scraper/src/tradable_cards/html_generator.rs:99-104 | a row is a value trade exactly when the SEK offer is at least one and a half times a positive SEK market price |
| TradePage.ThresholdInSek | magic_card_scraper/src/tradable_cards/html_generator.rs:99-104 | with the percentage tied to the prices, reaching 50 percent is the same as reaching 1.5 times the market price |
| TradePage.RowIgnoresCurrencyOfRecord | magic_card_scraper/src/tradable_cards/html_generator.rs:91-93 | an offer recorded in EUR and the same worth recorded in SEK give the same row |
| TradePage.RowsConcat | magic_card_scraper/src/tradable_cards/html_generator.rs:130-132 | the rows of two runs of cards are the first run's rows followed by the second's |
| TradePage.GeneratePageContent | magic_card_scraper/src/tradable_cards/html_generator.rs:127-136 | the page is the header, one row per card in card order, then the footer |
| TradePage.OneCardPage | magic_card_scraper/src/tradable_cards/html_generator.rs:127-136 | a one-card page is the header, that card's row and the footer |
| NicePrice.TiersPartition | magic_card_scraper/src/html_generator.rs:23-31 | a card is kept exactly when its SEK vendor price is at most 10 with difference at most 0, in (10, 30] with difference at most 5, or above 30 with difference at most the limit; exactly one tier applies |
| NicePrice.LimitOnlyAboveThirty | magic_card_scraper/src/html_generator.rs:25-30 | the limit changes nothing for vendor prices up to 30 SEK |
| NicePrice.Flatten | magic_card_scraper/src/html_generator.rs:19-21 | every name's results appear in the flattened list |
| NicePrice.Nice | magic_card_scraper/src/html_generator.rs:22-32 | the kept cards are exactly the input cards that meet the rule, and never more than the input |
| NicePrice.FilterNicePriceCards | magic_card_scraper/src/html_generator.rs:15-34 | a card is in the output exactly when it is one of some name's results and meets the rule |
| NicePrice.FlattenMember | magic_card_scraper/src/html_generator.rs:19-21 | every flattened card belongs to some name's results |
| NicePrice.NiceSubMultiset | magic_card_scraper/src/html_generator.rs:22-33 | filtering never duplicates a card: the output is a sub-multiset of the input |
| NicePrice.NoCardTwice | magic_card_scraper/src/html_generator.rs:15-34 | each result appears in the output at most as often as in the map |
| NicePrice.NiceMonotone | magic_card_scraper/src/html_generator.rs:30 | a card kept under one limit is kept under any higher limit |
| NicePrice.RaisingLimitKeeps | magic_card_scraper/src/html_generator.rs:15-34 | raising the limit only adds cards |
| Comparer.Part | magic_card_scraper/src/comparer.rs:40-41 | one side of the partition: only cards of that foil state, each taken from the list, never more than the list |
| Comparer.PartPermutation | magic_card_scraper/src/comparer.rs:40-41 | the two sides together are a permutation of the bucket |
| Comparer.PartMembership | magic_card_scraper/src/comparer.rs:40-41 | a card is on the foil side exactly when it is a foil card of the bucket, and on the other side exactly when it is a non-foil one |
| Comparer.SeparateFoilAndNonFoil | magic_card_scraper/src/comparer.rs:29-52 | a name gets a foil (non-foil) entry exactly when its bucket has a foil (non-foil) card, and that entry is the bucket's foil (non-foil) side in order |
| Comparer.SplitKeepsEveryCard | magic_card_scraper/src/comparer.rs:39-49 | the foil and non-foil entries of a name together hold exactly the name's cards |
| Comparer.MatchIndex | magic_card_scraper/src/comparer.rs:155-170 | the matched position, when there is one, is a record of the list |
| Comparer.MatchIndexIsFirst | magic_card_scraper/src/comparer.rs:155-170 | the first record with an equal collector number when there is one; otherwise the first record of an equal set, absent exactly when there is none |
| Comparer.AbsentNumbersIgnoreSet | magic_card_scraper/src/comparer.rs:157 | two absent collector numbers are equal, so an unnumbered vendor card takes the first unnumbered record whatever its set |
| Comparer.FetchLivePrice | magic_card_scraper/src/comparer.rs:197-220 | 0 EUR when the live check is off, the live price when the lookup succeeds, 0 SEK when it fails |
| Comparer.FallbackIsZero | magic_card_scraper/src/comparer.rs:202-219 | whenever no live price is obtained the fallback is worth nothing in SEK and in EUR |
| Comparer.McmPrice | magic_card_scraper/src/comparer.rs:172-184 | the record's foil price for a foil card and its normal price otherwise, with the live price only when that field is absent |
| Comparer.TruncToZero | magic_card_scraper/src/comparer.rs:190-192 | the integer part truncated toward zero, within one of the value and never beyond it |
| Comparer.Delta | magic_card_scraper/src/comparer.rs:190-192 | the recorded difference is within one of vendor SEK minus market SEK and has that difference's sign |
| Comparer.DeltaSign | magic_card_scraper/src/comparer.rs:187-193 | a positive difference means the vendor asks more than the market; a vendor at least one krona cheaper gives a negative one; a vendor no dearer gives at most zero |
| Comparer.CompareOne | magic_card_scraper/src/comparer.rs:148-194 | no result exactly when no record matches; otherwise the vendor card, the matched record and the difference against the chosen market price |
| Comparer.CompareList | magic_card_scraper/src/comparer.rs:113-145 | no results without reference records |
| Comparer.CompareListBound | magic_card_scraper/src/comparer.rs:127-144 | never more results than vendor cards |
| Comparer.CompareListMember | magic_card_scraper/src/comparer.rs:127-144 | every result is the comparison of one of the vendor cards, with that card as its vendor card |
| Comparer.CompareOneMatched | magic_card_scraper/src/comparer.rs:127-144 | a vendor card that finds a record contributes exactly its comparison, which names that card |
| Comparer.CompareListAllMatched | magic_card_scraper/src/comparer.rs:127-144 | when every vendor card finds a record there is exactly one result per card, in card order |
| Comparer.Compare | magic_card_scraper/src/comparer.rs:82-110 | every name of the map visited once, each compared against its own records or none when missing, results concatenated in visit order |
| Comparer.ResultsKeyed | magic_card_scraper/src/comparer.rs:87-103 | every result of a name's bucket carries that name |
| Comparer.KeyFilterCompareAll | magic_card_scraper/src/comparer.rs:87-109 | picking one name out of the concatenated results gives exactly that name's results, or none for a name not visited |
| Comparer.ResultsOfName | magic_card_scraper/src/comparer.rs:54-80 | one name's share of the non-foil results followed by the foil results is that name's non-foil comparisons then its foil ones |
| Comparer.GroupedPerName | magic_card_scraper/src/comparer.rs:64-79 | regrouping the concatenated results by name gives each name exactly its own comparisons, and an entry only when there is one |
| Comparer.CompareVendorCards | magic_card_scraper/src/comparer.rs:54-80 | for a map built by name, a name has an entry exactly when it produced a result, holding its non-foil comparisons in input order followed by its foil ones, whatever the map's walking order |
| Comparer.SideKeyed | magic_card_scraper/src/comparer.rs:39-49 | each side of the split of a map built by name is again built by name |
| Comparer.PerNameBounds | magic_card_scraper/src/comparer.rs:89-95 | a name without reference records yields nothing, and no name yields more results than it has cards |
| LegacyCompare.RateOrFallback | mtg-rust/src/utils/compare_prices.rs:300 | the fetched rate when there is one, otherwise 11.5 |
| LegacyCompare.MinByIndex | mtg-rust/src/utils/compare_prices.rs:55-65 | a position no other record is strictly below (priced before unpriced, then lower price), and the first such: every earlier record is strictly above it |
| LegacyCompare.Fields | mtg-rust/src/utils/compare_prices.rs:56-59 | the price field of every record, position by position |
| LegacyCompare.CheapestReference | mtg-rust/src/utils/compare_prices.rs:48-115 | a price exactly when some record has the field, and then the lowest such price; an empty list is the no-card error |
| LegacyCompare.CheapestVendorIndex | mtg-rust/src/utils/compare_prices.rs:124-127 | the first vendor card with the lowest price |
| LegacyCompare.CheapestLive | mtg-rust/src/utils/compare_prices.rs:184-188 | the lowest price of the live list, taken from the list |
| LegacyCompare.Ceil | mtg-rust/src/utils/compare_prices.rs:198 | the least integer not below the value |
| LegacyCompare.McmEur | mtg-rust/src/utils/compare_prices.rs:150-190 | the cheapest reference price when there is one; otherwise an error when the check flag is set, and with it unset the cheapest live price, present exactly when the lookup succeeds |
| LegacyCompare.ComparePrice | mtg-rust/src/utils/compare_prices.rs:117-203 | no vendor cards or a cheapest card without reference records are errors; a result holds the market SEK price rounded up from EUR times the rate, the difference market minus cheapest vendor price, the cheapest card's name and vendor, the side's foil flag and all the side's cards |
| LegacyCompare.ExternalCheckInverted | mtg-rust/src/utils/compare_prices.rs:160-168 | with the flag set and no reference price the result is an error whatever the live lookup would give: the flag refuses the lookup its name promises |
| LegacyCompare.DifferenceSign | mtg-rust/src/utils/compare_prices.rs:18-19 | the recorded difference is the largest of market price minus any of the side's vendor prices: positive means the cheapest vendor card is below the market |
| LegacyCompare.PerName | mtg-rust/src/utils/compare_prices.rs:305-359 | at most two results per name |
| LegacyCompare.PerNameSides | mtg-rust/src/utils/compare_prices.rs:305-359 | each result of a name carries its whole non-empty foil or non-foil side, and with two results the foil one comes first |
| LegacyCompare.ComparedSide | mtg-rust/src/utils/compare_prices.rs:194-201 | a successful comparison has the side's foil flag and carries exactly the side it was given |
| LegacyCompare.AtMostTwoPerName | mtg-rust/src/utils/compare_prices.rs:302-360 | never more than two results per name visited |
| LegacyCompare.CompareName | mtg-rust/src/utils/compare_prices.rs:305-359 | the foil result, then the non-foil result, each only when its side is non-empty and its comparison succeeds |
| LegacyCompare.ComparePrices | mtg-rust/src/utils/compare_prices.rs:289-371 | every name visited once in some order, each adding its results under the fetched or fallback rate; never more than two results per name |
| LegacyCompare.DistinctKeysCount | mtg-rust/src/utils/compare_prices.rs:302 | a duplicate-free listing of the map's names has exactly as many entries as the map |
| StockApi.FirstKept | mtg-rust/src/utils/price_checker.rs:58-69 | on a successful answer, the first hit whose name does not mention "Token"; nothing exactly on a failed status or when every hit is a token |
| StockApi.ChooseSlug | mtg-rust/src/utils/price_checker.rs:46-73 | a slug exactly when the status succeeded and some hit is not a token, and then the slug of the first such hit |
| StockApi.TokenSkipped | mtg-rust/src/utils/price_checker.rs:62-68 | a token hit ahead of a real card is passed over and the real card's slug is chosen |
| StockApi.JsonText | mtg-rust/src/utils/price_checker.rs:92 | a present string comes out wrapped in double quotes, an absent one as `null` |
| PriceChecker.OrDefault | mtg-rust/src/utils/price_checker.rs:93 | the value when present, the default otherwise |
| PriceChecker.RawList | mtg-rust/src/utils/price_checker.rs:85-108 | one entry per printing in order (quoted set text, price or 1000), then the main card (quoted set text, average or 100) |
| PriceChecker.GetLiveCardPrices | mtg-rust/src/utils/price_checker.rs:35-43 | a list exactly when the search gives a slug and the prints call succeeds with a success status, and then the prints list, never empty; no slug is the not-found message; a failed prints status gives its body as the error |
| PriceChecker.SetNamesKeepQuotes | mtg-rust/src/utils/price_checker.rs:102 | a printing's set name keeps its JSON quotes: `Beta` is listed as `"Beta"` |
| StockCache.PrintsList | dl_scraper/src/mtg_stock_price_checker.rs:177-196 | one entry per printing, in order, with the set built from the quoted JSON text and the price in EUR, 0 when missing |
| StockCache.QuotesInvisible | dl_scraper/src/mtg_stock_price_checker.rs:182 | the JSON quotes make no difference to the set: the set built from `"Beta"` is the one built from `Beta` |
| StockCache.FetchList | dl_scraper/src/mtg_stock_price_checker.rs:106-203 | a list only after a slug was found and the prints call succeeded with a success status, and then that answer's printings; no slug is "Card not found on MTGStocks" |
| StockCache.FindSet | dl_scraper/src/mtg_stock_price_checker.rs:45-64 | a price exactly when some entry's set is equal, and then the first such entry's price |
| StockCache.LiveStep | dl_scraper/src/mtg_stock_price_checker.rs:32-74 | a cache hit answers from the cache and changes nothing; a failed fetch returns its error and leaves the cache alone; a fetched list replaces the name's entry and the answer is its entry for the set or "Card not found in the set"; any answer is what the new cache holds |
| StockCache.RepeatIsCached | dl_scraper/src/mtg_stock_price_checker.rs:40-58 | asking again after a successful answer gives the same answer and changes nothing, whatever the remote would now say |
| StockCache.SameKeySharesEntry | dl_scraper/src/mtg_stock_price_checker.rs:42-68 | a name with the same key finds the freshly cached entry without fetching |
| StockCache.PriceFetcher.constructor | dl_scraper/src/mtg_stock_price_checker.rs:24-30 | a new fetcher starts with an empty cache |
| StockCache.PriceFetcher.GetLiveCardPrice | dl_scraper/src/mtg_stock_price_checker.rs:32-74 | the answer and the new cache are those of the one-call rule on the old cache |
| StockCache.SharedCacheAcrossClones | dl_scraper/src/mtg_stock_price_checker.rs:15-21 | a clone shares the cache: after a successful answer through one handle the other handle gets the same answer |
| NameCache.CleanList | mtg_rust/src/utils/mtg_stock_price_checker.rs:115-157 | the uncached checker's list entry by entry, with each set name passed through `clean_string` and the prices unchanged |
| NameCache.CleanStringDropsQuotes | mtg_rust/src/utils/mtg_stock_price_checker.rs:137-147 | cleaning the quoted JSON text of a set gives the cleaned set name itself |
| NameCache.PriceDefaults | mtg_rust/src/utils/mtg_stock_price_checker.rs:138-148 | a printing without a price lists 1000.0, and the main card without an average lists 100.0 |
| NameCache.FetchPrices | mtg_rust/src/utils/mtg_stock_price_checker.rs:68-69 | a list only after a slug was found and the prints call succeeded with a success status, and then that answer's cleaned list, never empty; no slug is "Card not found on MTGStocks" |
| NameCache.NameStep | mtg_rust/src/utils/mtg_stock_price_checker.rs:51-79 | a cached name answers from the cache unchanged; otherwise a fetched list is stored under the name and returned, and a failure leaves the cache alone; cached lists stay non-empty |
| NameCache.OtherNamesUntouched | mtg_rust/src/utils/mtg_stock_price_checker.rs:59-75 | the cache is keyed by the exact string: a call never adds, removes or changes another spelling's entry |
| NameCache.RepeatIsCached | mtg_rust/src/utils/mtg_stock_price_checker.rs:59-67 | after a successful call the same name is answered from the cache with the same list, whatever the remote would now say |
| NameCache.NameCachedFetcher.constructor | mtg_rust/src/utils/mtg_stock_price_checker.rs:44-49 | a new fetcher starts with an empty cache |
| NameCache.NameCachedFetcher.GetLiveCardPrices | mtg_rust/src/utils/mtg_stock_price_checker.rs:51-79 | the answer and the new cache are those of the one-call rule on the old cache, and cached lists stay non-empty |
| Dragonslair.DefaultCmcsSkipFourteen | dl_scraper/src/dragonslair_scraper.rs:33-40 | without a list of its own the scraper visits every cmc from 0 to 16 except 14, once each, ascending |
| Dragonslair.FewLinksMeanOnePage | dl_scraper/src/dragonslair_scraper.rs:51-56 | fewer than three pagination links mean one page |
| Dragonslair.LastNumberedLinkIsTheCount | dl_scraper/src/dragonslair_scraper.rs:51-53 | numbered links followed by the two arrows give the number of the last page |
| Dragonslair.NonNumericLinkGivesNoCount | dl_scraper/src/dragonslair_scraper.rs:52-53 | a third-from-last link without digits gives no count |
| Dragonslair.FailedProbeHasNoCount | dl_scraper/src/dragonslair_scraper.rs:44-45 | a page that cannot be fetched or read gives no count |
| Dragonslair.GenerateCardUrls | dl_scraper/src/dragonslair_scraper.rs:59-68 | exactly the URLs of pages 1 to the count, in ascending order |
| Dragonslair.PageUrlDetermines | dl_scraper/src/dragonslair_scraper.rs:62-65 | a page URL determines its cmc and page number |
| Dragonslair.GeneratedUrlsDistinct | dl_scraper/src/dragonslair_scraper.rs:59-68 | the generated URLs are all different, and none is the probe of page 0 |
| Dragonslair.CardUrlsInCmcOrder | dl_scraper/src/dragonslair_scraper.rs:73-94 | the URLs of two runs of cmcs are the first run's URLs followed by the second's: cmc order is kept |
| Dragonslair.FailedProbeContributesNothing | dl_scraper/src/dragonslair_scraper.rs:80-86 | a cmc whose probe gives no count adds no URLs and leaves the others unchanged |
| Dragonslair.CountedCmcAddsItsPages | dl_scraper/src/dragonslair_scraper.rs:80-81 | a cmc whose probe gives a count adds exactly its pages 1 to that count |
| Dragonslair.ProbesNeverFetched | dl_scraper/src/dragonslair_scraper.rs:70-101 | no probe URL is among the URLs fetched for cards |
| Dragonslair.FailedFetchIsolated | dl_scraper/src/dragonslair_scraper.rs:125-130 | a page that fails adds no cards and leaves every other page's cards as they are |
| Dragonslair.FetchedPageInPlace | dl_scraper/src/dragonslair_scraper.rs:122-140 | a page that parses adds its cards, in order, at its place among the pages |
| Dragonslair.GroupCards | dl_scraper/src/dragonslair_scraper.rs:111-120 | a bucket exists exactly for the names that occur, and each holds that name's cards in input order |
| Dragonslair.GroupedCardsTotal | dl_scraper/src/dragonslair_scraper.rs:111-120 | the buckets together hold every card exactly once |
| Dragonslair.GetAvailableCards | dl_scraper/src/dragonslair_scraper.rs:103-109 | the cards of every page of every listing, grouped by name |
| DlRows.RightCell | magic_card_scraper/src/cards/card_parser.rs:249-251 | the n-th right-aligned cell exactly when the row has more than n of them |
| DlRows.CleanText | magic_card_scraper/src/cards/card_parser.rs:109-118 | a name as read is trimmed |
| DlRows.PlainTextUnchanged | magic_card_scraper/src/cards/card_parser.rs:109-118 | a trimmed name on one line is read as it is |
| DlRows.FoilInAnyCase | magic_card_scraper/src/cards/card_parser.rs:22-26 | the foil marker is found in any letter case, anywhere in the name |
| DlRows.ChooseSet | magic_card_scraper/src/cards/card_parser.rs:194-196 | the image title unless it is "UNKNOWN", then the set link's text |
| DlRows.ParsedI8s | magic_card_scraper/src/cards/card_parser.rs:254-260 | only words that parse as `i8` are kept, so every number lies in the `i8` range |
| DlRows.ReadStock | magic_card_scraper/src/cards/card_parser.rs:249-277 | stock and maximum are the first and last numbers of the cell, both in the `i8` range |
| DlRows.NoStockNumbers | magic_card_scraper/src/cards/card_parser.rs:263-277 | a row without the cell, or with no number in it, has 0 in stock and 0 wanted |
| DlRows.TypicalStockCell | magic_card_scraper/src/cards/card_parser.rs:249-277 | a cell "a / b st" reads as a in stock out of b |
| DlCardParser.ParsePrice | magic_card_scraper/src/cards/card_parser.rs:46-57 | "-" is exactly the no-price error; otherwise a price exactly when the text without the sold-out, full and "kr" notes parses as an `i32`, and then that number |
| DlCardParser.PriceInKronor | magic_card_scraper/src/cards/card_parser.rs:46-57 | "n kr" reads as n |
| DlCardParser.SoldOutPriceInKronor | magic_card_scraper/src/cards/card_parser.rs:50-51 | "Slut, n kr" still reads as n |
| DlCardParser.CellPrice | magic_card_scraper/src/cards/card_parser.rs:70-80 | an error exactly for "-", the price when it parses, 0 when it cannot be read |
| DlCardParser.GetPrice | magic_card_scraper/src/cards/card_parser.rs:59-81 | the in-store cell decides when present, even unreadable; else the not-in-store cell; no cell costs 0 |
| DlCardParser.BuyinValue | magic_card_scraper/src/cards/card_parser.rs:83-89 | a value exactly when the attribute is there and parses as an `i32`, and then that number |
| DlCardParser.RowNameAsWritten | magic_card_scraper/src/cards/card_parser.rs:106-135 | the name as the code evaluates it: a panic exactly when the row has no `td.wrap` cell, whether or not it has the link |
| DlCardParser.RowName | magic_card_scraper/src/cards/card_parser.rs:106-118 | the link's cleaned text when the row has the link, else the `td.wrap` cell's; always trimmed |
| DlCardParser.EagerFallbackPanics | magic_card_scraper/src/cards/card_parser.rs:119-134 | a row with the link but without `td.wrap` panics as written although it has a name |
| DlCardParser.NamesAgreeWithWrapCell | magic_card_scraper/src/cards/card_parser.rs:106-135 | whenever the `td.wrap` cell is there the code's name and the corrected name agree |
| DlCardParser.RowSet | magic_card_scraper/src/cards/card_parser.rs:172-196 | the image title with indented line breaks made spaces, unless that is "UNKNOWN"; then the set link's trimmed text treated the same way; neither gives "UNKNOWN" |
| DlCardParser.RowCollectorNumber | magic_card_scraper/src/cards/card_parser.rs:198-217 | a number exactly when the third cell is present, non-empty once trimmed, and a valid collector number |
| DlCardParser.ParseRowSkips | magic_card_scraper/src/cards/card_parser.rs:137-247 | a row is skipped exactly when its name is unwanted or not a card name, or its set, price or buy-in cannot be read |
| DlCardParser.ParseRowCard | magic_card_scraper/src/cards/card_parser.rs:149-279 | a kept row's card has every field from its reading: the built name and set, Dragonslair, foil, prerelease, showcase and extended-art flags from the name's markers, the price in SEK, the buy-in, the stock, the collector number and the image |
| DlCardParser.UnwantedRowSkipped | magic_card_scraper/src/cards/card_parser.rs:137-147 | a damaged, played or token row never becomes a card |
| DlCardParser.RowCards | magic_card_scraper/src/cards/card_parser.rs:105-282 | a row contributes at most one card |
| DlCardParser.ParsedRowsAppend | magic_card_scraper/src/cards/card_parser.rs:105-282 | the cards of two runs of rows are the first run's followed by the second's: page order is kept |
| DlCardParser.CardOfRow | magic_card_scraper/src/cards/card_parser.rs:281 | a card a row contributes is the card that row parses to |
| DlCardParser.ParsedRowsFromRows | magic_card_scraper/src/cards/card_parser.rs:105-282 | every card on the page is the card of one of its rows |
| DlCardParser.ParsedRowsBound | magic_card_scraper/src/cards/card_parser.rs:105-282 | a page has at most one card per row |
| DlCardParser.RowCardsInPlace | magic_card_scraper/src/cards/card_parser.rs:105-282 | the cards of a page split around any one row, that row's card in its place |
| DlCardParser.FetchAndParse | magic_card_scraper/src/cards/card_parser.rs:91-285 | the loop returns exactly each row's card, if any, in page order |
| DlLegacyParser.ParsePrice | mtg-rust/src/dl/card_parser.rs:40-44 | always an `i32`; a missing or unreadable text is 0 |
| DlLegacyParser.PriceInKronor | mtg-rust/src/dl/card_parser.rs:40-44 | "n kr" reads as n |
| DlLegacyParser.DashIsZero | mtg-rust/src/dl/card_parser.rs:40-44 | "-" reads as 0 here, where the newer parser reports that no price is available |
| DlLegacyParser.GetPrice | mtg-rust/src/dl/card_parser.rs:46-59 | the in-store cell when present, else the not-in-store cell, else 0; never fails |
| DlLegacyParser.InStoreCellDecides | mtg-rust/src/dl/card_parser.rs:55-57 | an unreadable in-store price gives 0 and hides the other cell |
| DlLegacyParser.RowName | mtg-rust/src/dl/card_parser.rs:74-87 | the link's cleaned text, or empty without the link |
| DlLegacyParser.RowSet | mtg-rust/src/dl/card_parser.rs:101-117 | the image title unless missing or "UNKNOWN", else the set link's trimmed text, else "UNKNOWN"; line breaks are kept |
| DlLegacyParser.TradeIn | mtg-rust/src/dl/card_parser.rs:121-155 | the third right-aligned cell read as a price, 0 without it |
| DlLegacyParser.ParseRowSkips | mtg-rust/src/dl/card_parser.rs:89-94 | a row is skipped exactly when its name is unwanted |
| DlLegacyParser.ParseRowCard | mtg-rust/src/dl/card_parser.rs:96-158 | a kept row's card has the name, the markers' flags, the one product image, the set, the price, the trade-in and the stock as read |
| DlLegacyParser.RowCards | mtg-rust/src/dl/card_parser.rs:73-161 | a row contributes at most one card |
| DlLegacyParser.EveryWantedRowKept | mtg-rust/src/dl/card_parser.rs:73-161 | a page without unwanted rows yields one card per row, each in its row's place |
| DlLegacyParser.ParsedRowsFromRows | mtg-rust/src/dl/card_parser.rs:73-161 | every card is the card of one of the rows |
| DlLegacyParser.FetchAndParse | mtg-rust/src/dl/card_parser.rs:61-164 | the loop returns exactly each kept row's card, in page order |
| Alphaspel.ReadStock | magic_card_scraper/src/alphaspel_scraper.rs:81-97 | the stock text "Slutsåld" is refused as sold out; otherwise the count is the `i8` left after removing "i butiken", and the box is refused when that is not an `i8` |
| Alphaspel.StockInShop | magic_card_scraper/src/alphaspel_scraper.rs:90-97 | "n i butiken" reads as the stock n for every n up to 127 |
| Alphaspel.FindSet | magic_card_scraper/src/alphaspel_scraper.rs:139-147 | the set is the first known set whose lower-cased name occurs in the lower-cased product name, and none is found exactly when no set occurs |
| Alphaspel.NameAfterSet | magic_card_scraper/src/alphaspel_scraper.rs:149-153 | the raw name is the product name after the first occurrence of the set, without colons; when the set does not occur verbatim the placeholder text is used |
| Alphaspel.NameFollowsSet | magic_card_scraper/src/alphaspel_scraper.rs:149-153 | a product name that starts with the set yields the rest without colons |
| Alphaspel.CaseMismatchNamesPlaceholder | magic_card_scraper/src/alphaspel_scraper.rs:139-153 | a set found only case-insensitively gives the name "Error retrieving the name" |
| Alphaspel.FirstNumber | magic_card_scraper/src/alphaspel_scraper.rs:162-167 | there is no price exactly when the price text has no digit; a price read is never negative |
| Text.FirstDigitRunNoneIffNoDigit | magic_card_scraper/src/alphaspel_scraper.rs:162-164 | the search for `\d+` finds nothing exactly when the text has no digit |
| Text.FirstDigitRunAtFirstDigit | magic_card_scraper/src/alphaspel_scraper.rs:162-164 | the match of `\d+` starts at the text's first digit and runs to the next non-digit |
| Alphaspel.FirstNumberAtFirstDigit | magic_card_scraper/src/alphaspel_scraper.rs:162-167 | the price is the value of the maximal run of digits that starts at the text's first digit |
| Alphaspel.SoldOutNeverCard | magic_card_scraper/src/alphaspel_scraper.rs:90-91 | a sold-out box is refused as sold out whatever else it holds |
| Alphaspel.GetCardReachesName | magic_card_scraper/src/alphaspel_scraper.rs:81-147 | once the stock reads and a product name exists, the outcome is decided by the name checks alone |
| Alphaspel.ForeignOrTokenNeverCard | magic_card_scraper/src/alphaspel_scraper.rs:128-137 | an Italian, German or Russian product, or a token, is never a card |
| Alphaspel.UnknownSetNeverCard | magic_card_scraper/src/alphaspel_scraper.rs:139-147 | a product naming none of the known sets is never a card |
| Alphaspel.PricedCardFields | magic_card_scraper/src/alphaspel_scraper.rs:155-192 | the built card has the name after the set, the set, foil from the name markers, alternative art, promo, the stock, a SEK price from the first number, max stock 3, no trade-in and no collector number |
| Alphaspel.GetCardFields | magic_card_scraper/src/alphaspel_scraper.rs:76-193 | an accepted box is English, not a token, names a known set, and its card's every field is the corresponding reading of the box |
| Alphaspel.PageNumber | magic_card_scraper/src/alphaspel_scraper.rs:217-218 | a pagination entry's number is a `u32` |
| Alphaspel.LargestPage | magic_card_scraper/src/alphaspel_scraper.rs:215-224 | the largest page is never below the starting value |
| Alphaspel.LargestPageIsMax | magic_card_scraper/src/alphaspel_scraper.rs:215-224 | the result is at least every number read and is either the start or one of the numbers read |
| Alphaspel.PageCount | magic_card_scraper/src/alphaspel_scraper.rs:215-225 | the page count is at least the start and stays a `u32` |
| Alphaspel.PageCountIsMax | magic_card_scraper/src/alphaspel_scraper.rs:215-225 | the page count is the largest listed page number, or 1 when none is larger |
| Alphaspel.MaxPage | magic_card_scraper/src/alphaspel_scraper.rs:215-225 | the pagination loop computes the page count |
| Alphaspel.SetPageCount | magic_card_scraper/src/alphaspel_scraper.rs:209-236 | a set whose first page cannot be fetched or read counts 1 page; every count is between 1 and `u32::MAX` |
| Alphaspel.AsI32 | magic_card_scraper/src/alphaspel_scraper.rs:250 | the cast keeps a count up to `i32::MAX` and makes a larger one negative |
| Alphaspel.Pages | magic_card_scraper/src/alphaspel_scraper.rs:250 | the pages fetched are 1 to the count in order, and none at all when the count wraps past `i32::MAX` |
| Alphaspel.PageLinksDistinct | magic_card_scraper/src/alphaspel_scraper.rs:251-254 | two different pages of a set are fetched from different addresses |
| Alphaspel.ProductCards | magic_card_scraper/src/alphaspel_scraper.rs:264-270 | a box yields at most one card, and none when it is refused |
| Alphaspel.ReadPage | magic_card_scraper/src/alphaspel_scraper.rs:259-271 | the box loop returns exactly the accepted boxes' cards in page order |
| Alphaspel.ScrapeSet | magic_card_scraper/src/alphaspel_scraper.rs:246-281 | the page loop returns the cards of pages 1 to the count in order; a page that fails adds nothing |
| Alphaspel.SetNamesOf | magic_card_scraper/src/alphaspel_scraper.rs:197 | the names matched against are the set pages' names, in the same order |
| Alphaspel.CountOf | magic_card_scraper/src/alphaspel_scraper.rs:201-236 | each set's count is read from its first page and is between 1 and `u32::MAX` |
| Alphaspel.ScrapeCards | magic_card_scraper/src/alphaspel_scraper.rs:195-298 | the result has one bucket per name among all sets' cards, each holding exactly that name's cards in scrape order |
| Alphaspel.MaxPageOf | magic_card_scraper/src/alphaspel_scraper.rs:209-236 | the count is 1 on a failed fetch, otherwise the pagination loop's result |
| LegacyAlphaspel.NameAndSet | mtg-rust/src/alphaspel/card_parser.rs:85-96 | a product name is refused exactly when it does not split on `:` into three or five pieces; the name piece holds no colon |
| LegacyAlphaspel.ThreePartName | mtg-rust/src/alphaspel/card_parser.rs:94 | "game:set:name" gives the third piece as the name and the trimmed second as the set |
| LegacyAlphaspel.SplitFive | mtg-rust/src/alphaspel/card_parser.rs:88-93 | five colon-free pieces joined by colons split back into exactly those pieces |
| LegacyAlphaspel.FivePartName | mtg-rust/src/alphaspel/card_parser.rs:88-93 | a five-piece product name gives the fifth piece as the name and the third and fourth rejoined by `:` and trimmed as the set |
| LegacyAlphaspel.WordRun | mtg-rust/src/alphaspel/card_parser.rs:130 | the leading run of `\w` characters is maximal |
| LegacyAlphaspel.GroupEnd | mtg-rust/src/alphaspel/card_parser.rs:119 | a bracketed group ends at a closing bracket |
| LegacyAlphaspel.DropGroups | mtg-rust/src/alphaspel/card_parser.rs:119-121 | removing bracketed groups never lengthens the name |
| LegacyAlphaspel.DropGroupsNone | mtg-rust/src/alphaspel/card_parser.rs:119-121 | a name without an opening bracket is unchanged |
| LegacyAlphaspel.GroupEndOf | mtg-rust/src/alphaspel/card_parser.rs:119 | a group without inner brackets is closed by its own closing bracket |
| LegacyAlphaspel.TrailingGroupDropped | mtg-rust/src/alphaspel/card_parser.rs:119-121 | a trailing "(…)" note after bracket-free text is removed entirely |
| LegacyAlphaspel.SlashMatch | mtg-rust/src/alphaspel/card_parser.rs:130 | after a word, the pattern matches exactly a whitespace, `/`, a whitespace and a word, and ends after that word |
| LegacyAlphaspel.SlashesNone | mtg-rust/src/alphaspel/card_parser.rs:130-132 | a name without a slash is unchanged |
| LegacyAlphaspel.SlashesAtMatch | mtg-rust/src/alphaspel/card_parser.rs:130-132 | where two words meet around a single slash, the slash becomes " // " and the rest of the text is scanned on |
| LegacyAlphaspel.SlashesAtEnd | mtg-rust/src/alphaspel/card_parser.rs:130-132 | the same when the second word ends the name |
| LegacyAlphaspel.SplitCardName | mtg-rust/src/alphaspel/card_parser.rs:130-132 | a split card written "A / B" becomes "A // B" |
| LegacyAlphaspel.RemoveVersionsNone | mtg-rust/src/alphaspel/card_parser.rs:122-129 | a name without a full stop carries no version mark to remove |
| LegacyAlphaspel.PlainNameTrimmed | mtg-rust/src/alphaspel/card_parser.rs:118-132 | a name without brackets, slashes or full stops is only trimmed |
| LegacyAlphaspel.StripPrefix | mtg-rust/src/alphaspel/card_parser.rs:142 | a prefix is removed when the name starts with it, and otherwise the name is kept |
| LegacyAlphaspel.StripListedPrefixes | mtg-rust/src/alphaspel/card_parser.rs:134-143 | the prefix loop strips each listed prefix once, in list order |
| LegacyAlphaspel.PrefixesIncomparable | mtg-rust/src/alphaspel/card_parser.rs:134-140 | no listed prefix begins another, so a name carries at most one of them |
| LegacyAlphaspel.StripNone | mtg-rust/src/alphaspel/card_parser.rs:141-143 | a name that starts with none of the prefixes is unchanged |
| LegacyAlphaspel.ListedPrefixStripped | mtg-rust/src/alphaspel/card_parser.rs:134-143 | a name that starts with a listed prefix loses exactly that prefix |
| LegacyAlphaspel.ReadPrice | mtg-rust/src/alphaspel/card_parser.rs:102-112 | no price text is refused, and a price text is refused as having no price exactly when it has no digit |
| LegacyAlphaspel.ReadPriceAtFirstDigit | mtg-rust/src/alphaspel/card_parser.rs:102-112 | the price is the maximal run of digits that starts at the text's first digit, as an `i32`; a run too large for `i32` is refused |
| LegacyAlphaspel.GetCardReachesName | mtg-rust/src/alphaspel/card_parser.rs:35-85 | once the stock reads and a product name exists, the outcome is decided by the name checks |
| LegacyAlphaspel.SoldOutNeverCard | mtg-rust/src/alphaspel/card_parser.rs:44-45 | a sold-out box is refused as sold out |
| LegacyAlphaspel.ForeignOrTokenNeverCard | mtg-rust/src/alphaspel/card_parser.rs:78-100 | a foreign-language product, or one whose name piece mentions "Token", is never a card |
| LegacyAlphaspel.UnexpectedFormatNeverCard | mtg-rust/src/alphaspel/card_parser.rs:85-96 | a product name that does not split into three or five pieces is never a card |
| LegacyAlphaspel.BuiltCardFields | mtg-rust/src/alphaspel/card_parser.rs:114-160 | the built card has the tidied and prefix-stripped name, the set, foil from the untidied name piece, alternative art, promo, the price, the stock, max stock 3 and no trade-in |
| LegacyAlphaspel.AcceptedBoxIsNamed | mtg-rust/src/alphaspel/card_parser.rs:35-85 | an accepted box had a readable stock and a product name, and its card is the one the name checks give |
| LegacyAlphaspel.NamedCardPieces | mtg-rust/src/alphaspel/card_parser.rs:78-161 | a name that passes is English, splits into three or five pieces, is no token, comes with a readable price, and gives the built card |
| LegacyAlphaspel.GetCardFields | mtg-rust/src/alphaspel/card_parser.rs:34-161 | an accepted box is English with a three- or five-piece name that is not a token, and its card's fields are the readings of the box |
| LegacyAlphaspel.SetPageCount | mtg-rust/src/alphaspel/card_parser.rs:207-216 | the page count starts from 0 and stays a `u32` |
| LegacyAlphaspel.NoNumberedPageFetchesNothing | mtg-rust/src/alphaspel/card_parser.rs:207-230 | a set whose first page lists no page number has no page fetched at all |
| LegacyAlphaspel.ProductCards | mtg-rust/src/alphaspel/card_parser.rs:246-250 | a box yields at most one card, and none when it is refused |
| LegacyAlphaspel.ReadProducts | mtg-rust/src/alphaspel/card_parser.rs:242-250 | the box loop returns exactly the accepted boxes' cards in page order |
| LegacyAlphaspel.ScrapeSet | mtg-rust/src/alphaspel/card_parser.rs:226-253 | the page loop returns the cards of pages 1 to the count in order |
| LegacyAlphaspel.CountOf | mtg-rust/src/alphaspel/card_parser.rs:197-217 | each set's count is read from its first page and stays a `u32` |
| LegacyAlphaspel.DownloadAlphaCards | mtg-rust/src/alphaspel/card_parser.rs:183-262 | the result has one bucket per `almost_raw` name among all sets' cards, each holding exactly that name's cards in scrape order |
| Scryfall.KeptExactly | magic_card_scraper/src/scryfall_scraper.rs:102-128 | a card object is kept exactly when its layout is neither "token" nor "art_series" and its type line does not start with "Basic Land" |
| Scryfall.PriceOf | magic_card_scraper/src/scryfall_scraper.rs:132-151 | a price is EUR; text is read as a decimal and is no price when it does not parse; a JSON number is taken as it is; anything else is no price |
| Scryfall.TextPriceRead | magic_card_scraper/src/scryfall_scraper.rs:132-135 | the text "0.19" is the price 0.19 EUR |
| Scryfall.ZeroPadded | magic_card_scraper/src/scryfall_scraper.rs:167-171 | the number is at least three characters long, ends with the original number, and only `0`s are put in front |
| Scryfall.PadNumber | magic_card_scraper/src/scryfall_scraper.rs:167-171 | the padding loop computes the zero-padded number |
| Scryfall.LeadingZeroValue | magic_card_scraper/src/scryfall_scraper.rs:169-171 | a leading zero keeps a digit string's value |
| Scryfall.PaddingKeepsValue | magic_card_scraper/src/scryfall_scraper.rs:167-171 | padding a digit string keeps it a digit string with the same value |
| Scryfall.PadOneDigit | magic_card_scraper/src/scryfall_scraper.rs:167-171 | "7" is padded to "007" |
| Scryfall.ShortNumberAccepted | magic_card_scraper/src/scryfall_scraper.rs:166-179 | the set code "znr" and number "7" give the valid collector number "znr-007" |
| Scryfall.FilteredRecordSkipped | magic_card_scraper/src/scryfall_scraper.rs:125-128 | tokens, art-series cards and basic lands never become cards and never end the conversion |
| Scryfall.RefusedNameSkipped | magic_card_scraper/src/scryfall_scraper.rs:158-164 | a kept record whose cleaned name is refused is skipped without error |
| Scryfall.ConvertRecordFields | magic_card_scraper/src/scryfall_scraper.rs:124-190 | a record fails exactly when it is kept, its name is accepted and its set name is refused; a converted card has the cleaned name and set, the two prices, the image, and a collector number exactly when "<set>-<padded number>" is valid |
| Scryfall.RecordCards | magic_card_scraper/src/scryfall_scraper.rs:124-190 | a record adds at most one card |
| Scryfall.ConvertAllOk | magic_card_scraper/src/scryfall_scraper.rs:120-192 | the conversion succeeds exactly when no record fails, and its cards are the records' cards in input order |
| Scryfall.ConvertAllCards | magic_card_scraper/src/scryfall_scraper.rs:120-192 | a conversion that gets through holds each kept record's card, in input order |
| Scryfall.ConvertAllErr | magic_card_scraper/src/scryfall_scraper.rs:181 | a failed conversion carries the error of the first failing record, every earlier record having succeeded |
| Scryfall.ConvertedAtMostOnePerRecord | magic_card_scraper/src/scryfall_scraper.rs:124-190 | there are never more cards than records |
| Scryfall.ConvertRawToDomainCards | magic_card_scraper/src/scryfall_scraper.rs:116-203 | an error is the first refused set name; otherwise there is one bucket per name among the cards, each holding exactly that name's cards in file order |
| LegacyScryfall.AcceptsEverything | mtg-rust/src/scryfall/scryfall_mcm_cards.rs:85 | the three filters joined with `\|\|` let every record through, tokens and basic lands included |
| LegacyScryfall.McmNameIsLetters | mtg-rust/src/scryfall/scryfall_mcm_cards.rs:81-88 | the name key is exactly the name's lower-cased ASCII letters in order; `clean_word` changes nothing after the letter filter |
| LegacyScryfall.McmSetDropsQuotes | mtg-rust/src/scryfall/scryfall_mcm_cards.rs:89 | the quotes `to_string` puts around a set name are dropped by `clean_word` |
| LegacyScryfall.MissingSetIsNull | mtg-rust/src/scryfall/scryfall_mcm_cards.rs:89 | a record without a set name gets the set "null" |
| LegacyScryfall.NumberOnly | mtg-rust/src/scryfall/scryfall_mcm_cards.rs:92-95 | only a JSON number is a price, and it is taken as it is |
| LegacyScryfall.ToMcmCard | mtg-rust/src/scryfall/scryfall_mcm_cards.rs:86-106 | a card has the letters-only name, the cleaned set text, and a price exactly where the record gives a JSON number |
| LegacyScryfall.TextPricesDropped | mtg-rust/src/scryfall/scryfall_mcm_cards.rs:92-95 | prices given as text are lost |
| LegacyScryfall.GroupedNames | mtg-rust/src/scryfall/scryfall_mcm_cards.rs:113-120 | a bucket exists exactly for the letters-only names of the records |
| LegacyScryfall.DownloadScryfallCards | mtg-rust/src/scryfall/scryfall_mcm_cards.rs:83-120 | every record becomes a card in order, and each bucket holds exactly its name's cards in order |
| LegacyCompare.Side | mtg-rust/src/utils/compare_prices.rs:305-307 | each side holds only cards of the name's list that have its foil flag |

## Left out

- **HTTP, HTML and regular expressions.**
  - `reqwest` calls, `scraper` selectors and `regex` matching are not modelled.
  - Each page, JSON answer or extracted cell is a parameter or a field of an input record.
  - Each regular expression is written out as the character or substring test it performs.
- **Concurrency.**
  - `buffered(n)`, `join_all`, the semaphore and the tokio `Mutex` around the cache are left out. Every loop is modelled sequentially.
  - The cached fetcher's unlocked check-then-insert window across network calls is not modelled.
- **Files and databases.**
  - Reading and writing files is not modelled: CSV, JSON, the Scryfall raw file and its cache lookup by date, and the JSON dumps of the grouped maps.
  - The conversions take the parsed records and return the maps they would write.
  - The SQLite database is not part of this model.
- **Clock.** Timestamps, `date_time_as_string` and the elapsed-time logging are not modelled.
- **Logging.** Log calls are not modelled.
- **Configuration.** The global `CONFIG` is replaced by parameters: the external-price-check flag and the nice-price limit.
- **Orchestration.**
  - The three `main.rs` files, the HTML page text and the JavaScript filters are not part of this model.
  - The colour type of the personal cards is not part of this model.
- **Floating point.** `f64` is modelled as `real`, so IEEE rounding and NaN are not captured. The `partial_cmp(..).unwrap()` panics on NaN cannot happen in the model.
- **Unicode.**
  - Case mapping, `is_alphanumeric` and `char::is_alphabetic` are modelled on ASCII only.
  - `len()` counts characters, not UTF-8 bytes.
  - `is_whitespace` uses the full list of Unicode white space characters.
- **Number parsing.**
  - `str::parse::<f64>` is modelled for plain decimals (digits with an optional sign and fraction).
  - Exponents, "inf" and "NaN" are not modelled.
- **JSON text.** `Value::to_string` is modelled for strings, numbers, booleans and null. Escaping inside strings is not modelled.
- **Fetcher construction.** The Scryfall scraper's client, base address and directory are not modelled.
- Comparer.TruncToZero: `as i32` is modelled as truncation toward zero on an unbounded integer. The saturation at the `i32` bounds is not modelled, because the prices in play are far inside them.
- Comparer.Delta: the difference is unbounded. It does not saturate at the `i32` bounds, for the same reason.
- LegacyCompare.Ceil: `ceil() as i32` is modelled as the ceiling on an unbounded integer, without saturation.
- LegacyCompare.ComparePrice: the SEK difference is unbounded, for the same reason.
- EarlyTrade.TradeOf: the shop's free room `max_stock - current_stock` is computed on unbounded integers. In the source it is `i8` arithmetic, which panics in a debug build and wraps in a release build when the difference leaves the `i8` range. That takes a negative stock such as "-100", which the stock reading accepts. The model gives the true, positive difference there.
- LegacyTrade.DecideOutcome: the free room is unbounded in the same way. The `i8` overflow of the source is not modelled.
- TradeMatcher.DecideOutcome: the free room is unbounded in the same way. The `i8` overflow of the source is not modelled.
- DlCardParser.FetchAndParse: the loop uses the corrected name reading (see Findings). A row with the image link but no `td.wrap` cell is read, where the code as written panics.

## Findings

| source | as written | input that shows it | evidently intended | confidence | as-written member | corrected member |
|---|---|---|---|---|---|---|
| magic_card_scraper/src/cards/card_parser.rs:106-135 | the name is read with `unwrap_or(<td.wrap cell>.unwrap())`. The fallback argument is evaluated before `unwrap_or` runs, so the `td.wrap` cell is unwrapped even when the image link supplies the name | a row that has the `a.fancybox` image link but no `td.wrap` cell: the code panics | use the link's text and consult the `td.wrap` cell only when there is no link (`unwrap_or_else`) | not executed | DlCardParser.RowNameAsWritten, DlCardParser.EagerFallbackPanics | DlCardParser.RowName, DlCardParser.NamesAgreeWithWrapCell |
