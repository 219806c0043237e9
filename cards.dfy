/**
 * The record types of the newest crate (`magic_card_scraper`, whose
 * `VendorCard`, `ScryfallCard` and `PersonalCard` are the same as in
 * `dl_scraper`). They carry no behaviour of their own; the comparers and the
 * trade matcher work on them. `Colour` is kept as its text (colour.rs is not
 * part of this model).
 */
module Cards {
  import opened Wrappers
  import Money
  import CardNames
  import SetNames
  import CollectorNumbers

  datatype Vendor = Dragonslair | Alphaspel | Cardmarket

  datatype Rarity = Common | Uncommon | Rare | Mythic

  /** A card offered by a shop; prices in whole kronor are kept as `Price`, stock counts as 8-bit values. */
  datatype VendorCard = VendorCard(
    name: CardNames.CardName,
    vendor: Vendor,
    foil: bool,
    imageUrl: string,
    extendedArt: bool,
    prerelease: bool,
    showcase: bool,
    setName: SetNames.SetName,
    price: Money.Price,
    tradeInPrice: int,
    currentStock: int,
    maxStock: int,
    collectorNumber: Option<CollectorNumbers.CollectorNumber>)

  /** The key of a `HashMap<CardName, _>`: `CardName` hashes by its cleaned text. */
  function NameKey(v: VendorCard): string
  {
    v.name.cleaned
  }

  datatype Prices = Prices(eur: Option<Money.Price>, eurFoil: Option<Money.Price>)

  /** A reference (market) record from the Scryfall bulk data. */
  datatype ScryfallCard = ScryfallCard(
    name: CardNames.CardName,
    setName: SetNames.SetName,
    imageUrl: string,
    prices: Prices,
    collectorNumber: Option<CollectorNumbers.CollectorNumber>)

  /** The map key of a reference record: its name's cleaned text. */
  function ReferenceKey(c: ScryfallCard): string
  {
    c.name.cleaned
  }

  /** One vendor card next to its reference record and the truncated SEK difference. */
  datatype ComparedCard = ComparedCard(
    vendorCard: VendorCard,
    scryfallCard: ScryfallCard,
    priceDifference: int)

  /** A card from the user's own collection. */
  datatype PersonalCard = PersonalCard(
    name: CardNames.CardName,
    setName: SetNames.SetName,
    foil: bool,
    price: Money.Price,
    count: int,
    color: string,
    rarity: Rarity)

  /** A personal card a vendor would buy, with the vendor's offer and the market price. */
  datatype TradeableCard = TradeableCard(
    name: CardNames.CardName,
    setName: SetNames.SetName,
    foil: bool,
    prerelease: bool,
    tradeableVendor: Vendor,
    tradeInPrice: Money.Price,
    mcmPrice: Money.Price,
    cardsToTrade: int,
    requestedByVendor: int,
    imageUrl: string,
    color: string,
    rarity: Rarity)

  /** One row of a Delver Lens export: every field is text. */
  datatype DelverLensRow = DelverLensRow(
    name: string,
    foil: string,
    edition: string,
    price: string,
    quantity: string,
    color: string,
    rarity: string)
}
