/**
 * `convert_raw_card_to_personal_card` of `mtg-rust`
 * (`tradable_cars/delver_lense_card.rs`): the rows of a Delver Lens export
 * become the older `PersonalCard` records, one per row and in order. A field
 * that does not convert makes the converter panic, so the rows are required
 * to convert.
 */
module LegacyDelverRows {
  import opened Wrappers
  import opened Lists
  import opened Text
  import SetNames
  import Cards
  import opened LegacyCards
  import opened DelverText
  import opened LegacyTrade

  /** The conditions under which none of the row's `unwrap`s panics. */
  predicate RowConvertible(row: Row)
  {
    && LegacyCards.New(row.name).Ok?
    && SetNames.New(row.edition).Ok?
    && ConvertPriceToNumber(row.price).Some?
    && ParseI8(row.quantity).Some?
  }

  /** The `map` closure of `convert_raw_card_to_personal_card`. */
  function ConvertRow(row: Row): (p: OldPersonalCard)
    requires RowConvertible(row)
    ensures p.foil <==> row.foil != []
    ensures p.price == ConvertPriceToNumber(row.price).value
    ensures p.count == ParseI8(row.quantity).value
    ensures p.rarity == ConvertRarity(row.rarity)
    ensures p.name == LegacyCards.New(row.name).value && p.name.almostRaw == row.name
  {
    OldPersonalCard(
      LegacyCards.New(row.name).value,
      SetNames.New(row.edition).value,
      row.foil != [],
      ConvertPriceToNumber(row.price).value,
      ParseI8(row.quantity).value,
      row.color,
      ConvertRarity(row.rarity))
  }

  /** `convert_raw_card_to_personal_card`: one personal card per row. */
  function ConvertRawCardToPersonalCard(rows: seq<Row>): (r: seq<OldPersonalCard>)
    requires forall i :: 0 <= i < |rows| ==> RowConvertible(rows[i])
    ensures |r| == |rows|
  {
    MapAll(rows, ConvertRow)
  }

  /** The card at each position is the conversion of the row at that position. */
  lemma RowConverted(rows: seq<Row>, i: nat)
    requires forall i :: 0 <= i < |rows| ==> RowConvertible(rows[i])
    requires i < |rows|
    ensures ConvertRawCardToPersonalCard(rows)[i] == ConvertRow(rows[i])
  {
  }
}
