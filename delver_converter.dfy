/**
 * `DelverLenseConverter` of `magic_card_scraper`: the rows of a Delver Lens
 * CSV export become `PersonalCard`s, one per row and in row order. Reading
 * the file is left out; the rows are the input. A name, set, price or
 * quantity that does not convert makes the converter panic, so the rows are
 * required to convert.
 */
module DelverConverter {
  import opened Wrappers
  import opened Lists
  import opened Text
  import Money
  import CardNames
  import SetNames
  import opened Cards
  import opened DelverText

  /** `convert_string_price_to_price`: the parsed amount in EUR, or the parse error. */
  function ConvertStringPriceToPrice(s: string): (r: Result<Money.Price, ()>)
    ensures r.Ok? <==> ConvertPriceToNumber(s).Some?
    ensures r.Ok? ==> r.value.currency == Money.EUR && r.value.amount == ConvertPriceToNumber(s).value
  {
    match ConvertPriceToNumber(s)
    case None => Err(())
    case Some(x) => Ok(Money.Price(x, Money.EUR))
  }

  /** The conditions under which none of the row's `unwrap`s panics. */
  predicate RowConvertible(row: DelverLensRow)
  {
    && CardNames.New(row.name).Ok?
    && SetNames.New(row.edition).Ok?
    && ConvertPriceToNumber(row.price).Some?
    && ParseI8(row.quantity).Some?
  }

  /** The `map` closure of `convert_delver_lense_card_to_personal_card`. */
  function ConvertRow(row: DelverLensRow): (p: PersonalCard)
    requires RowConvertible(row)
    ensures p.foil <==> row.foil != []
    ensures p.price == Money.Price(ConvertPriceToNumber(row.price).value, Money.EUR)
    ensures p.count == ParseI8(row.quantity).value && I8_MIN <= p.count <= I8_MAX
    ensures p.rarity == ConvertRarity(row.rarity)
    ensures p.name == CardNames.New(row.name).value && p.setName == SetNames.New(row.edition).value
  {
    PersonalCard(
      CardNames.New(row.name).value,
      SetNames.New(row.edition).value,
      row.foil != [],
      ConvertStringPriceToPrice(row.price).value,
      ParseI8(row.quantity).value,
      row.color,
      ConvertRarity(row.rarity))
  }

  /** `convert_delver_lense_card_to_personal_card`: one personal card per row. */
  function ConvertDelverLenseCardToPersonalCard(rows: seq<DelverLensRow>): (r: seq<PersonalCard>)
    requires forall i :: 0 <= i < |rows| ==> RowConvertible(rows[i])
    ensures |r| == |rows| && forall i :: 0 <= i < |rows| ==> r[i] == ConvertRow(rows[i])
  {
    MapAll(rows, ConvertRow)
  }

  /** A price as the export writes it converts to exactly that many euros. */
  lemma ExportedPriceConverts(row: DelverLensRow, c: nat)
    requires row.price == DelverPriceText(c)
    requires CardNames.New(row.name).Ok? && SetNames.New(row.edition).Ok? && ParseI8(row.quantity).Some?
    ensures RowConvertible(row)
    ensures ConvertRow(row).price == Money.Price(c as real / 100.0, Money.EUR)
  {
    PriceRoundTrip(c);
  }
}
