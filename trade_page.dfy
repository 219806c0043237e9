/**
 * The tradeable-cards page of `magic_card_scraper`
 * (`tradable_cards/html_generator.rs`): the figures each table row shows and
 * the order of the page. Both prices are shown in SEK; the percentage by
 * which the shop's offer exceeds the market price is never negative, and a
 * row is a value trade at 50 percent or more. The page text itself (the
 * header, the footer and the markup of a row) is given as parameters.
 */
module TradePage {
  import Money
  import opened Cards
  import opened Lists

  /** The figures of one row of the table. */
  datatype RowFigures = RowFigures(
    name: string,
    setName: string,
    foilText: string,
    tradeInSek: real,
    mcmSek: real,
    requestedByVendor: int,
    cardsToTrade: int,
    percentualDifference: real,
    isValueTrade: bool)

  /** The value-trade threshold, in percent. */
  const ValueTradePercent: real := 50.0

  /** `percentual_difference`: how far above the market price the offer is, in percent, or 0. */
  function PercentualDifference(tradeInSek: real, mcmSek: real): (r: real)
    ensures r >= 0.0
    ensures r > 0.0 <==> mcmSek > 0.0 && tradeInSek > mcmSek
    ensures r > 0.0 ==> r * mcmSek == (tradeInSek - mcmSek) * 100.0
  {
    if mcmSek > 0.0 && tradeInSek > mcmSek then ((tradeInSek - mcmSek) / mcmSek) * 100.0 else 0.0
  }

  /** `generate_card_row`: the figures the row shows for one tradeable card. */
  function CardRow(card: TradeableCard): (r: RowFigures)
    ensures r.tradeInSek == Money.ConvertTo(card.tradeInPrice, Money.SEK)
    ensures r.mcmSek == Money.ConvertTo(card.mcmPrice, Money.SEK)
    ensures r.percentualDifference >= 0.0
    ensures r.isValueTrade <==> r.percentualDifference >= ValueTradePercent
    ensures r.foilText == (if card.foil then " (Foil)" else "")
    ensures r.name == card.name.almostRaw && r.setName == card.setName.raw
    ensures r.requestedByVendor == card.requestedByVendor && r.cardsToTrade == card.cardsToTrade
  {
    var trade := Money.ConvertTo(card.tradeInPrice, Money.SEK);
    var mcm := Money.ConvertTo(card.mcmPrice, Money.SEK);
    var percent := PercentualDifference(trade, mcm);
    RowFigures(card.name.almostRaw, card.setName.raw, if card.foil then " (Foil)" else "",
               trade, mcm, card.requestedByVendor, card.cardsToTrade, percent, percent >= ValueTradePercent)
  }

  /**
   * A value trade is exactly an offer of at least one and a half times a
   * positive market price, both in SEK.
   */
  lemma ValueTradeIffOneAndAHalf(card: TradeableCard)
    ensures var r := CardRow(card);
            r.isValueTrade <==> r.mcmSek > 0.0 && r.tradeInSek >= 1.5 * r.mcmSek
  {
    var r := CardRow(card);
    var t, m := r.tradeInSek, r.mcmSek;
    if m > 0.0 && t > m {
      ThresholdInSek(r.percentualDifference, t, m);
    }
  }

  /** With the percentage tied to the two prices, reaching 50 percent is reaching one and a half times the market price. */
  lemma ThresholdInSek(p: real, t: real, m: real)
    requires m > 0.0 && p * m == (t - m) * 100.0
    ensures p >= 50.0 <==> t >= 1.5 * m
  {
    ScaleKeepsOrder(50.0, p, m);
    ScaleKeepsOrder(p, 50.0, m);
  }

  lemma ScaleKeepsOrder(a: real, b: real, m: real)
    requires m > 0.0
    ensures a <= b ==> a * m <= b * m
    ensures a < b ==> a * m < b * m
  {
  }

  /** Prices compare in SEK, whatever currency they were recorded in: a card priced in EUR and one priced in SEK with the same worth give the same row. */
  lemma RowIgnoresCurrencyOfRecord(card: TradeableCard, x: real)
    requires card.tradeInPrice == Money.Price(x, Money.EUR)
    ensures CardRow(card) == CardRow(card.(tradeInPrice := Money.Price(x * Money.ExchangeRate(Money.EUR), Money.SEK)))
  {
  }

  /** The rows of the cards, one after another in card order. */
  function Rows(cards: seq<TradeableCard>, render: RowFigures -> string): string
  {
    ConcatMap(cards, (card: TradeableCard) => render(CardRow(card)))
  }

  /** The rows of two runs of cards are the rows of the first run followed by those of the second. */
  lemma RowsConcat(a: seq<TradeableCard>, b: seq<TradeableCard>, render: RowFigures -> string)
    ensures Rows(a + b, render) == Rows(a, render) + Rows(b, render)
  {
    ConcatMapAppend(a, b, (card: TradeableCard) => render(CardRow(card)));
  }

  /**
   * `generate_page_content`: the header, then one row per card in card order,
   * then the footer.
   */
  method GeneratePageContent(cards: seq<TradeableCard>, header: string, footer: string, render: RowFigures -> string)
    returns (content: string)
    ensures content == header + Rows(cards, render) + footer
  {
    content := header;
    for i := 0 to |cards|
      invariant content == header + Rows(cards[..i], render)
    {
      assert cards[..i + 1][..i] == cards[..i] && cards[..i + 1][i] == cards[i];
      content := content + render(CardRow(cards[i]));
    }
    assert cards[..|cards|] == cards;
    content := content + footer;
  }

  /** A page of one card is the header, that card's row and the footer. */
  lemma OneCardPage(card: TradeableCard, header: string, footer: string, render: RowFigures -> string)
    ensures header + Rows([card], render) + footer == header + render(CardRow(card)) + footer
  {
    var row := (c: TradeableCard) => render(CardRow(c));
    assert [card][..0] == [];
    assert ConcatMap([card], row) == ConcatMap([], row) + row(card);
  }
}
