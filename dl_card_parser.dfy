/**
 * The Dragonslair row parser of `magic_card_scraper` (`cards/card_parser.rs`):
 * how the price, the buy-in, the set and the collector number of a product
 * row are read, when a row is skipped, and how the rows of a listing page
 * become the page's `VendorCard`s, in page order.
 */
module DlCardParser {
  import opened Wrappers
  import opened Text
  import opened DlRows
  import opened Cards
  import opened Lists
  import CardNames
  import SetNames
  import CollectorNumbers
  import Money

  const ShopHost: string := "https://astraeus.dragonslair.se"
  const CardBackUrl: string := "https://upload.wikimedia.org/wikipedia/en/a/aa/Magic_the_gathering-card_back.jpg"

  /** Why a price text gives no price: the shop shows "-", or the text is not a number. */
  datatype PriceError = NoPriceAvailable | Unparsable

  // ---------------------------------------------------------------- prices

  /** What is left of a price text once the "Slut, " (sold out) and "Fullt, " (full) notes and "kr" are removed. */
  function PriceDigits(s: string): string
  {
    Trim(Replace(Replace(Replace(s, "Slut, ", ""), "Fullt, ", ""), "kr", ""))
  }

  /** `parse_price`: "-" means the shop gives no price; otherwise the `i32` the cleaned text holds. */
  function ParsePrice(s: string): (r: Result<int, PriceError>)
    ensures r == Err(NoPriceAvailable) <==> Trim(s) == "-"
    ensures r.Ok? <==> Trim(s) != "-" && ParseI32(PriceDigits(s)).Some?
    ensures r.Ok? ==> Some(r.value) == ParseI32(PriceDigits(s)) && I32_MIN <= r.value <= I32_MAX
  {
    if Trim(s) == "-" then Err(NoPriceAvailable)
    else
      match ParseI32(PriceDigits(s))
      case Some(n) => Ok(n)
      case None => Err(Unparsable)
  }

  /** A price written "<n> kr" reads as n. */
  lemma PriceInKronor(n: nat)
    requires n <= I32_MAX
    ensures ParsePrice(NatToString(n) + " kr") == Ok(n)
  {
    var d := NatToString(n);
    var s := d + " kr";
    assert Trim(s) == s by {
      assert s[0] == d[0] && IsDigit(d[0]);
      TrimOfTrimmed(s);
    }
    assert s != "-" by {
      assert s[0] == d[0] && IsDigit(d[0]);
    }
    assert PriceDigits(s) == d by {
      KronorRemoved(d);
    }
    ParseNatToString(n, true, I32_MIN, I32_MAX);
  }

  /** A sold-out price written "Slut, <n> kr" still reads as n. */
  lemma SoldOutPriceInKronor(n: nat)
    requires n <= I32_MAX
    ensures ParsePrice("Slut, " + NatToString(n) + " kr") == Ok(n)
  {
    var d := NatToString(n);
    var rest := d + " kr";
    var s := "Slut, " + d + " kr";
    assert s == "Slut, " + rest;
    assert Trim(s) != "-" by {
      assert s[0] == 'S' && s[|s| - 1] == 'r';
      TrimOfTrimmed(s);
    }
    assert 'S' !in rest by {
      DigitsThenKronor(d);
    }
    assert Replace(s, "Slut, ", "") == Replace(rest, "Slut, ", "") by {
      SoldOutRemoved(rest);
      ReplaceMissing(rest, "Slut, ", "");
    }
    assert PriceDigits(s) == d by {
      KronorRemoved(d);
    }
    ParseNatToString(n, true, I32_MIN, I32_MAX);
  }

  /** The "Slut, " note in front of a text without an `S` is all that goes. */
  lemma SoldOutRemoved(rest: string)
    requires 'S' !in rest
    ensures Replace("Slut, " + rest, "Slut, ", "") == rest
  {
    ReplaceAtFront(rest, "Slut, ", "");
    ReplaceMissing(rest, "Slut, ", "");
    assert "" + rest == rest;
  }

  /** The characters of "<digits> kr". */
  lemma DigitsThenKronor(d: string)
    requires AllDigits(d)
    ensures forall c :: c in d + " kr" ==> IsDigit(c) || c == ' ' || c == 'k' || c == 'r'
  {
    assert forall i :: 0 <= i < |d| ==> IsDigit(d[i]);
  }

  lemma KronorRemoved(d: string)
    requires d != [] && AllDigits(d)
    ensures PriceDigits(d + " kr") == d
  {
    var s := d + " kr";
    DigitsThenKronor(d);
    assert Replace(s, "Slut, ", "") == s by {
      ReplaceMissing(s, "Slut, ", "");
    }
    assert Replace(s, "Fullt, ", "") == s by {
      ReplaceMissing(s, "Fullt, ", "");
    }
    var body := d + " ";
    assert s == body + "kr";
    assert Replace(body + "kr", "kr", "") == body by {
      assert forall c :: c in body ==> c in s;
      ReplaceSuffix(body, "kr");
    }
    assert Trim(d + [' ']) == d by {
      assert forall i :: 0 <= i < |d| ==> IsDigit(d[i]);
      assert IsTrimmed(d) by {
        assert IsDigit(d[0]) && IsDigit(d[|d| - 1]);
      }
      TrimTrailingSpace(d, ' ');
    }
    assert body == d + [' '];
  }

  /** What one price cell yields: its price, the "no price" error, or 0 when it cannot be read. */
  function CellPrice(s: string): (r: Result<int, PriceError>)
    ensures r.Err? <==> Trim(s) == "-"
    ensures r.Err? ==> r.error == NoPriceAvailable
    ensures ParsePrice(s).Ok? ==> r == ParsePrice(s)
    ensures ParsePrice(s) == Err(Unparsable) ==> r == Ok(0)
  {
    match ParsePrice(s)
    case Ok(p) => Ok(p)
    case Err(NoPriceAvailable) => Err(NoPriceAvailable)
    case Err(Unparsable) => Ok(0)
  }

  /**
   * `get_price`: the in-store price cell when the row has one, even an
   * unreadable one, else the not-in-store cell; a row with neither costs 0.
   */
  function GetPrice(inStore: Option<string>, notInStore: Option<string>): (r: Result<int, PriceError>)
    ensures inStore.Some? ==> r == CellPrice(inStore.value)
    ensures inStore.None? && notInStore.Some? ==> r == CellPrice(notInStore.value)
    ensures inStore.None? && notInStore.None? ==> r == Ok(0)
  {
    match (if inStore.Some? then inStore else notInStore)
    case None => Ok(0)
    case Some(s) => CellPrice(s)
  }

  /** `get_buyin_value`: the row's `data-buyin` attribute as an `i32`; a missing or unreadable attribute gives nothing. */
  function BuyinValue(attr: Option<string>): (r: Option<int>)
    ensures r.Some? <==> attr.Some? && ParseI32(attr.value).Some?
    ensures r.Some? ==> r == ParseI32(attr.value) && I32_MIN <= r.value <= I32_MAX
  {
    match attr
    case None => None
    case Some(s) => ParseI32(s)
  }

  // ---------------------------------------------------------------- names

  /** A row has a name when it has the image link or the `td.wrap` cell. */
  predicate HasName(row: Row)
  {
    row.link.Some? || row.wrapText.Some?
  }

  /**
   * The name as the code computes it: the fallback passed to `unwrap_or` is
   * evaluated first, and it unwraps the `td.wrap` cell, so a row without that
   * cell panics (here `None`) even when it has the link that names it.
   */
  function RowNameAsWritten(row: Row): (r: Option<string>)
    ensures r.None? <==> row.wrapText.None?
    ensures r.Some? ==> IsTrimmed(r.value)
  {
    match row.wrapText
    case None => None
    case Some(w) =>
      var fallback := CleanText(w);
      Some(match row.link case Some(l) => CleanText(l.text) case None => fallback)
  }

  /** The name as evidently meant: the link's text, or the `td.wrap` cell's when the row has no link. */
  function RowName(row: Row): (r: string)
    requires HasName(row)
    ensures IsTrimmed(r)
    ensures row.link.Some? ==> r == CleanText(row.link.value.text)
  {
    match row.link
    case Some(l) => CleanText(l.text)
    case None => CleanText(row.wrapText.value)
  }

  /** A row with the link but no `td.wrap` cell: named when read lazily, a panic as written. */
  lemma {:induction false} EagerFallbackPanics(text: string, href: Option<string>)
    ensures var row := Row(Some(Link(text, href)), None, None, None, None, None, None, None, []);
      HasName(row) && RowNameAsWritten(row).None? && RowName(row) == CleanText(text)
  {
  }

  /** Whenever the `td.wrap` cell is there the two readings agree, so the corrected name changes nothing else. */
  lemma NamesAgreeWithWrapCell(row: Row)
    requires row.wrapText.Some?
    ensures HasName(row) && RowNameAsWritten(row) == Some(RowName(row))
  {
  }

  // ---------------------------------------------------------------- set, number, image

  function OrUnknown(t: Option<string>): string
  {
    match t case Some(s) => s case None => Unknown
  }

  /**
   * The set: the image title with its indented line breaks made spaces, or,
   * when that is "UNKNOWN", the set link's trimmed text, treated the same way.
   */
  function RowSet(row: Row): (r: string)
    ensures (row.imageTitle.Some? && Replace(row.imageTitle.value, Indent, " ") != Unknown)
              ==> r == Replace(row.imageTitle.value, Indent, " ")
    ensures (row.imageTitle.None? && row.setLinkText.Some?)
              ==> r == Replace(Trim(row.setLinkText.value), Indent, " ")
    ensures row.imageTitle.None? && row.setLinkText.None? ==> r == Unknown
  {
    OneLineUnchanged(Unknown);
    var title := Replace(OrUnknown(row.imageTitle), Indent, " ");
    var other := Replace(OrUnknown(match row.setLinkText case Some(t) => Some(Trim(t)) case None => None), Indent, " ");
    ChooseSet(title, other)
  }

  /** The collector number in the third cell: none when the cell is missing, empty or not a valid number. */
  function RowCollectorNumber(cell: Option<string>): (r: Option<CollectorNumbers.CollectorNumber>)
    ensures r.Some? <==> cell.Some? && Trim(cell.value) != [] && CollectorNumbers.New(Trim(cell.value)).Ok?
    ensures r.Some? ==> CollectorNumbers.New(Trim(cell.value)) == Ok(r.value)
  {
    match cell
    case None => None
    case Some(c) =>
      var text := Trim(c);
      if text == [] then None
      else
        match CollectorNumbers.New(text)
        case Ok(n) => Some(n)
        case Err(_) => None
  }

  /** The image: the shop's host followed by the link's `href`, or a generic card back. */
  function ImageUrl(link: Option<Link>): string
  {
    match link
    case Some(Link(_, Some(href))) => ShopHost + href
    case _ => CardBackUrl
  }

  // ---------------------------------------------------------------- rows

  /**
   * One row of the page: skipped when its name is unwanted or not a card
   * name, or when its set, price or buy-in cannot be read; otherwise the
   * shop's card, priced in SEK, with the stock from the fourth right-aligned
   * cell.
   */
  function ParseRow(row: Row): (r: Option<VendorCard>)
    requires HasName(row)
  {
    var name := RowName(row);
    if IsUnwanted(name) then None
    else
      match CardNames.New(name)
      case Err(_) => None
      case Ok(cardName) =>
        match SetNames.New(RowSet(row))
        case Err(_) => None
        case Ok(setName) =>
          match GetPrice(row.inStorePrice, row.notInStorePrice)
          case Err(_) => None
          case Ok(price) =>
            match BuyinValue(row.buyin)
            case None => None
            case Some(buyin) =>
              var stock := ReadStock(RightCell(row, 3));
              Some(VendorCard(
                cardName, Dragonslair, IsFoil(name), ImageUrl(row.link),
                ContainsIgnoreCase(name, ExtendedArtPattern),
                ContainsIgnoreCase(name, PrereleasePattern),
                ContainsIgnoreCase(name, ShowcasePattern),
                setName, Money.Price(price as real, Money.SEK), buyin,
                stock.current, stock.max, RowCollectorNumber(row.thirdCell)))
  }

  /** A row is skipped exactly when one of its readings fails. */
  lemma ParseRowSkips(row: Row)
    requires HasName(row)
    ensures ParseRow(row).None? <==>
              IsUnwanted(RowName(row)) || CardNames.New(RowName(row)).Err? || SetNames.New(RowSet(row)).Err?
              || GetPrice(row.inStorePrice, row.notInStorePrice).Err? || BuyinValue(row.buyin).None?
  {
    var name := RowName(row);
    if IsUnwanted(name) {
    } else if CardNames.New(name).Err? {
    } else if SetNames.New(RowSet(row)).Err? {
    } else if GetPrice(row.inStorePrice, row.notInStorePrice).Err? {
    } else {
      assert ParseRow(row).None? <==> BuyinValue(row.buyin).None?;
    }
  }

  /** The card of a row that is not skipped: every field is the corresponding reading of the row. */
  lemma ParseRowCard(row: Row)
    requires HasName(row) && ParseRow(row).Some?
    ensures var c := ParseRow(row).value;
              var name := RowName(row);
              && Ok(c.name) == CardNames.New(name)
              && c.vendor == Dragonslair
              && c.foil == IsFoil(name)
              && c.prerelease == ContainsIgnoreCase(name, PrereleasePattern)
              && c.showcase == ContainsIgnoreCase(name, ShowcasePattern)
              && c.extendedArt == ContainsIgnoreCase(name, ExtendedArtPattern)
              && Ok(c.setName) == SetNames.New(RowSet(row))
              && c.price.currency == Money.SEK
              && GetPrice(row.inStorePrice, row.notInStorePrice) == Ok(c.price.amount.Floor)
              && Some(c.tradeInPrice) == BuyinValue(row.buyin)
              && ReadStock(RightCell(row, 3)) == Stock(c.currentStock, c.maxStock)
              && c.collectorNumber == RowCollectorNumber(row.thirdCell)
              && c.imageUrl == ImageUrl(row.link)
  {
  }

  /** A damaged, played or token row never becomes a card, whatever else it holds. */
  lemma UnwantedRowSkipped(row: Row)
    requires HasName(row) && IsUnwanted(RowName(row))
    ensures ParseRow(row).None?
  {
  }

  predicate AllNamed(rows: seq<Row>)
  {
    forall i :: 0 <= i < |rows| ==> HasName(rows[i])
  }

  /** The card a row yields, as a list of zero or one (a row without a name, which the code cannot read, yields none). */
  function RowCards(row: Row): (r: seq<VendorCard>)
    ensures |r| <= 1
  {
    if HasName(row) then OptionCards(ParseRow(row)) else []
  }

  function OptionCards(card: Option<VendorCard>): (r: seq<VendorCard>)
    ensures card.Some? ==> r == [card.value]
    ensures card.None? ==> r == []
  {
    if card.Some? then [card.value] else []
  }

  /** The cards of a page: each row's card, if any, in page order. */
  function ParsedRows(rows: seq<Row>): seq<VendorCard>
  {
    ConcatMap(rows, (row: Row) => RowCards(row))
  }

  /** The cards of two runs of rows are the first run's cards followed by the second's. */
  lemma ParsedRowsAppend(a: seq<Row>, b: seq<Row>)
    ensures ParsedRows(a + b) == ParsedRows(a) + ParsedRows(b)
  {
    ConcatMapAppend(a, b, (row: Row) => RowCards(row));
  }

  /** A card a row contributes is the card that row parses to. */
  lemma CardOfRow(row: Row, c: VendorCard)
    requires c in RowCards(row)
    ensures HasName(row) && ParseRow(row) == Some(c)
  {
  }

  /** Every card on the page is the card of one of its rows. */
  lemma ParsedRowsFromRows(rows: seq<Row>, c: VendorCard)
    requires c in ParsedRows(rows)
    ensures exists i :: 0 <= i < |rows| && HasName(rows[i]) && ParseRow(rows[i]) == Some(c)
  {
    ConcatMapMember(rows, (row: Row) => RowCards(row), c);
    var i :| 0 <= i < |rows| && c in RowCards(rows[i]);
    CardOfRow(rows[i], c);
  }

  /** A page has at most one card per row. */
  lemma {:induction false} ParsedRowsBound(rows: seq<Row>)
    ensures |ParsedRows(rows)| <= |rows|
    decreases |rows|
  {
    if rows != [] {
      var init := rows[..|rows| - 1];
      assert rows == init + [rows[|rows| - 1]];
      ParsedRowsAppend(init, [rows[|rows| - 1]]);
      OneRow(rows[|rows| - 1]);
      ParsedRowsBound(init);
    }
  }

  /** The cards a single row contributes to a page. */
  lemma OneRow(row: Row)
    ensures ParsedRows([row]) == RowCards(row)
  {
    var f := (row: Row) => RowCards(row);
    assert [row][..0] == [];
    assert ConcatMap([row], f) == ConcatMap([row][..0], f) + f(row);
  }

  /** The cards of a row are the card it parses to, if any. */
  lemma RowCardsOfRow(row: Row)
    requires HasName(row)
    ensures ParseRow(row).Some? ==> RowCards(row) == [ParseRow(row).value]
    ensures ParseRow(row).None? ==> RowCards(row) == []
  {
  }

  /** The cards of a page split around any one of its rows. */
  lemma RowCardsInPlace(a: seq<Row>, row: Row, b: seq<Row>)
    ensures ParsedRows(a + [row] + b) == ParsedRows(a) + RowCards(row) + ParsedRows(b)
  {
    OneRow(row);
    ParsedRowsAppend(a, [row]);
    ParsedRowsAppend(a + [row], b);
  }

  /** One more row read: the cards so far followed by that row's. */
  lemma ParsedRowsPrefix(rows: seq<Row>, i: nat)
    requires i < |rows|
    ensures ParsedRows(rows[..i + 1]) == ParsedRows(rows[..i]) + RowCards(rows[i])
  {
    assert rows[..i + 1] == rows[..i] + [rows[i]];
    ParsedRowsAppend(rows[..i], [rows[i]]);
    OneRow(rows[i]);
  }

  /** `fetch_and_parse` after the page is fetched: the rows are read one by one and the cards pushed in order. */
  method FetchAndParse(rows: seq<Row>) returns (cards: seq<VendorCard>)
    requires AllNamed(rows)
    ensures cards == ParsedRows(rows)
  {
    cards := [];
    for i := 0 to |rows|
      invariant cards == ParsedRows(rows[..i])
    {
      var card := ParseRow(rows[i]);
      ParsedRowsPrefix(rows, i);
      RowCardsOfRow(rows[i]);
      if card.Some? {
        cards := cards + [card.value];
      }
    }
    assert rows[..|rows|] == rows;
  }
}
