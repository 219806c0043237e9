/**
 * The earlier Dragonslair row parser of `mtg-rust` (`dl/card_parser.rs`).
 * It reads the same product rows as the newer one but keeps the name and
 * the set as plain text, never fails on a price (an unreadable or "-" price
 * is 0), takes the trade-in price from the third right-aligned cell, and
 * gives every card the same image.
 */
module DlLegacyParser {
  import opened Wrappers
  import opened Text
  import opened DlRows
  import opened Lists
  import DlCardParser

  /** The one image every card of this parser points at. */
  const ProductImage: string := "https://astraeus.dragonslair.se/images/4026/product"

  /** The card record of this parser: name and set are plain text, prices whole kronor. */
  datatype Card = Card(
    name: string,
    foil: bool,
    imageUrl: string,
    extendedArt: bool,
    prerelease: bool,
    showcase: bool,
    setName: string,
    price: int,
    tradeInPrice: int,
    currentStock: int,
    maxStock: int)

  // ---------------------------------------------------------------- prices

  /** `parse_price`: " kr" removed, trimmed, read as an `i32`; a missing or unreadable text is 0. */
  function ParsePrice(s: Option<string>): (r: int)
    ensures I32_MIN <= r <= I32_MAX
    ensures s.None? ==> r == 0
    ensures s.Some? && ParseI32(Trim(Replace(s.value, " kr", ""))).None? ==> r == 0
  {
    match s
    case None => 0
    case Some(t) =>
      match ParseI32(Trim(Replace(t, " kr", "")))
      case Some(n) => n
      case None => 0
  }

  /** A price written "<n> kr" reads as n. */
  lemma PriceInKronor(n: nat)
    requires n <= I32_MAX
    ensures ParsePrice(Some(NatToString(n) + " kr")) == n
  {
    var d := NatToString(n);
    assert Replace(d + " kr", " kr", "") == d by {
      assert forall i :: 0 <= i < |d| ==> IsDigit(d[i]);
      ReplaceSuffix(d, " kr");
    }
    assert Trim(d) == d by {
      assert IsDigit(d[0]) && IsDigit(d[|d| - 1]);
      TrimOfTrimmed(d);
    }
    ParseNatToString(n, true, I32_MIN, I32_MAX);
  }

  /** The shop's "-" for a card without a price reads as 0 here, where the newer parser reports that no price is available. */
  lemma DashIsZero()
    ensures ParsePrice(Some("-")) == 0
    ensures DlCardParser.ParsePrice("-") == Err(DlCardParser.NoPriceAvailable)
  {
    assert Replace("-", " kr", "") == "-" by {
      ReplaceMissing("-", " kr", "");
    }
    assert Trim("-") == "-" by {
      TrimOfTrimmed("-");
    }
    assert ParseI32("-").None?;
  }

  /** `get_price`: the in-store cell, else the not-in-store cell, else 0; it cannot fail. */
  function GetPrice(inStore: Option<string>, notInStore: Option<string>): (r: int)
    ensures I32_MIN <= r <= I32_MAX
    ensures inStore.Some? ==> r == ParsePrice(inStore)
    ensures inStore.None? ==> r == ParsePrice(notInStore)
  {
    if inStore.Some? then ParsePrice(inStore) else ParsePrice(notInStore)
  }

  /** An in-store price hides the other cell entirely, even when it cannot be read. */
  lemma InStoreCellDecides(inStore: string, notInStore: Option<string>)
    requires ParseI32(Trim(Replace(inStore, " kr", ""))).None?
    ensures GetPrice(Some(inStore), notInStore) == 0
  {
  }

  // ---------------------------------------------------------------- row fields

  /** `unwrap_or_default`: the image link's cleaned text, or the empty name for a row without the link. */
  function RowName(row: Row): (r: string)
    ensures IsTrimmed(r)
    ensures row.link.None? ==> r == []
    ensures row.link.Some? ==> r == CleanText(row.link.value.text)
  {
    match row.link
    case Some(l) => CleanText(l.text)
    case None => []
  }

  /** The set: the image title, or, when the row has none, the set link's trimmed text; no line breaks are replaced. */
  function RowSet(row: Row): (r: string)
    ensures row.imageTitle.Some? && row.imageTitle.value != Unknown ==> r == row.imageTitle.value
    ensures ((row.imageTitle.None? || row.imageTitle.value == Unknown) && row.setLinkText.Some?)
              ==> r == Trim(row.setLinkText.value)
    ensures (row.imageTitle.None? || row.imageTitle.value == Unknown) && row.setLinkText.None? ==> r == Unknown
  {
    var title := match row.imageTitle case Some(t) => t case None => Unknown;
    var other := match row.setLinkText case Some(t) => Trim(t) case None => Unknown;
    ChooseSet(title, other)
  }

  /** The trade-in price: the third right-aligned cell read as a price, or 0 without that cell. */
  function TradeIn(row: Row): (r: int)
    ensures I32_MIN <= r <= I32_MAX
    ensures |row.rightCells| <= 2 ==> r == 0
    ensures |row.rightCells| > 2 ==> r == ParsePrice(Some(row.rightCells[2]))
  {
    match RightCell(row, 2)
    case Some(c) => ParsePrice(Some(c))
    case None => 0
  }

  // ---------------------------------------------------------------- rows

  /** The card of one row; only an unwanted name skips the row. */
  function ParseRow(row: Row): Option<Card>
  {
    var name := RowName(row);
    if IsUnwanted(name) then None
    else
      var stock := ReadStock(RightCell(row, 3));
      Some(Card(
        name, IsFoil(name), ProductImage,
        ContainsIgnoreCase(name, ExtendedArtPattern),
        ContainsIgnoreCase(name, PrereleasePattern),
        ContainsIgnoreCase(name, ShowcasePattern),
        RowSet(row), GetPrice(row.inStorePrice, row.notInStorePrice), TradeIn(row),
        stock.current, stock.max))
  }

  /** A row is skipped exactly when its name is unwanted. */
  lemma ParseRowSkips(row: Row)
    ensures ParseRow(row).None? <==> IsUnwanted(RowName(row))
  {
  }

  /** The card of a kept row: each field is the corresponding reading of the row, and the image is always the same. */
  lemma ParseRowCard(row: Row)
    requires !IsUnwanted(RowName(row))
    ensures ParseRow(row).Some?
    ensures var c := ParseRow(row).value;
              var name := RowName(row);
              && c.name == name
              && c.foil == IsFoil(name)
              && c.prerelease == ContainsIgnoreCase(name, PrereleasePattern)
              && c.showcase == ContainsIgnoreCase(name, ShowcasePattern)
              && c.extendedArt == ContainsIgnoreCase(name, ExtendedArtPattern)
              && c.imageUrl == ProductImage
              && c.setName == RowSet(row)
              && c.price == GetPrice(row.inStorePrice, row.notInStorePrice)
              && c.tradeInPrice == TradeIn(row)
              && Stock(c.currentStock, c.maxStock) == ReadStock(RightCell(row, 3))
  {
  }

  /** The cards of one row, as a list of zero or one. */
  function RowCards(row: Row): (r: seq<Card>)
    ensures |r| <= 1
  {
    match ParseRow(row) case Some(c) => [c] case None => []
  }

  /** The cards of a page: each kept row's card, in page order. */
  function ParsedRows(rows: seq<Row>): seq<Card>
  {
    ConcatMap(rows, RowCards)
  }

  lemma OneRow(row: Row)
    ensures ParsedRows([row]) == RowCards(row)
  {
    assert [row][..0] == [];
    assert ConcatMap([row], RowCards) == ConcatMap([row][..0], RowCards) + RowCards(row);
  }

  /** One more row read: the cards so far followed by that row's. */
  lemma ParsedRowsPrefix(rows: seq<Row>, i: nat)
    requires i < |rows|
    ensures ParsedRows(rows[..i + 1]) == ParsedRows(rows[..i]) + RowCards(rows[i])
  {
    assert rows[..i + 1] == rows[..i] + [rows[i]];
    ConcatMapAppend(rows[..i], [rows[i]], RowCards);
    OneRow(rows[i]);
  }

  /** The cards of a row are the card it parses to, if any. */
  lemma RowCardsOfRow(row: Row)
    ensures ParseRow(row).Some? ==> RowCards(row) == [ParseRow(row).value]
    ensures ParseRow(row).None? ==> RowCards(row) == []
  {
  }

  /** The rows that are kept. */
  predicate NoneUnwanted(rows: seq<Row>)
  {
    forall i :: 0 <= i < |rows| ==> !IsUnwanted(RowName(rows[i]))
  }

  /** A page without unwanted rows yields one card per row, each in its row's place. */
  lemma EveryWantedRowKept(rows: seq<Row>)
    requires NoneUnwanted(rows)
    ensures |ParsedRows(rows)| == |rows|
    ensures forall i :: 0 <= i < |rows| ==> Some(ParsedRows(rows)[i]) == ParseRow(rows[i])
  {
    forall i | 0 <= i < |rows|
      ensures |RowCards(rows[i])| == 1 && Some(RowCards(rows[i])[0]) == ParseRow(rows[i])
    {
      RowCardsOfRow(rows[i]);
    }
    ConcatMapSingletons(rows, RowCards);
  }

  /** Every card on the page is the card of one of its rows. */
  lemma ParsedRowsFromRows(rows: seq<Row>, c: Card)
    requires c in ParsedRows(rows)
    ensures exists i :: 0 <= i < |rows| && ParseRow(rows[i]) == Some(c)
  {
    ConcatMapMember(rows, RowCards, c);
    var i :| 0 <= i < |rows| && c in RowCards(rows[i]);
    CardOfRow(rows[i], c);
  }

  /** A card a row contributes is the card that row parses to. */
  lemma CardOfRow(row: Row, c: Card)
    requires c in RowCards(row)
    ensures ParseRow(row) == Some(c)
  {
  }

  /** `fetch_and_parse` after the page is fetched: each row is read and its card pushed unless its name is unwanted. */
  method FetchAndParse(rows: seq<Row>) returns (results: seq<Card>)
    ensures results == ParsedRows(rows)
  {
    results := [];
    for i := 0 to |rows|
      invariant results == ParsedRows(rows[..i])
    {
      var card := ParseRow(rows[i]);
      ParsedRowsPrefix(rows, i);
      RowCardsOfRow(rows[i]);
      if card.Some? {
        results := results + [card.value];
      }
    }
    assert rows[..|rows|] == rows;
  }
}
