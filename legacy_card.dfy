/**
 * The card records of `mtg-rust`. Its `CardName` keeps the input unchanged as
 * `almost_raw` and derives `cleaned` after cutting eight known bracketed
 * disclaimers out of the name; equality is derived, so it compares both
 * fields. Its `SetName` is built exactly like the newest one (`SetNames.New`)
 * but also compares with derived equality.
 */
module LegacyCards {
  import opened Wrappers
  import opened Text
  import opened Cleaning
  import SetNames
  import CardNames
  import Cards

  datatype OldCardName = OldCardName(almostRaw: string, cleaned: string)

  /** `VendorCard` of `mtg-rust`: whole-krona prices and 8-bit stock counts. */
  datatype OldVendorCard = OldVendorCard(
    name: OldCardName,
    vendor: Cards.Vendor,
    foil: bool,
    imageUrl: string,
    extendedArt: bool,
    prerelease: bool,
    showcase: bool,
    setName: SetNames.SetName,
    price: int,
    tradeInPrice: int,
    currentStock: int,
    maxStock: int)

  datatype Prices = Prices(eur: Option<real>, eurFoil: Option<real>)

  datatype OldScryfallCard = OldScryfallCard(name: OldCardName, setName: SetNames.SetName, imageUrl: string, prices: Prices)

  /** The disclaimers `remove_name_disclaimers` cuts, in the order it cuts them. */
  const Disclaimers: seq<string> := [
    "(Prerelease)", "(Showcase)", "(Extended Art)", "(Foil)",
    "(Etched Foil)", "(Foil Etched)", "(Borderless)", "(Full art)"
  ]

  predicate NonEmptyPatterns(ds: seq<string>)
  {
    forall i :: 0 <= i < |ds| ==> |ds[i]| > 0
  }

  /** Every occurrence of each pattern in `ds` replaced by nothing, one pattern after the other. */
  function StripAll(s: string, ds: seq<string>): string
    requires NonEmptyPatterns(ds)
    decreases |ds|
  {
    if ds == [] then s else StripAll(Replace(s, ds[0], ""), ds[1..])
  }

  /** The text the loop of `remove_name_disclaimers` leaves, trimmed. */
  function WithoutDisclaimers(name: string): string
  {
    Trim(StripAll(name, Disclaimers))
  }

  /** `remove_name_disclaimers`: one `replace` per disclaimer, in list order, then a trim. */
  method RemoveNameDisclaimers(name: string) returns (r: string)
    ensures r == WithoutDisclaimers(name)
  {
    var cleanedRaw := name;
    var i := 0;
    while i < |Disclaimers|
      invariant 0 <= i <= |Disclaimers|
      invariant StripAll(cleanedRaw, Disclaimers[i..]) == StripAll(name, Disclaimers)
    {
      assert Disclaimers[i..][1..] == Disclaimers[i + 1..];
      cleanedRaw := Replace(cleanedRaw, Disclaimers[i], "");
      i := i + 1;
    }
    r := Trim(cleanedRaw);
  }

  /** A name holding none of the patterns passes through every `replace` unchanged. */
  lemma {:induction false} StripAllAbsent(s: string, ds: seq<string>)
    requires NonEmptyPatterns(ds)
    requires forall i :: 0 <= i < |ds| ==> !Contains(s, ds[i])
    ensures StripAll(s, ds) == s
    decreases |ds|
  {
    if ds != [] {
      ReplaceAbsent(s, ds[0], "");
      StripAllAbsent(s, ds[1..]);
    }
  }

  /** Any other parenthetical stays: a name without the eight disclaimers is only trimmed. */
  lemma OtherParentheticalsStay(name: string)
    requires forall i :: 0 <= i < |Disclaimers| ==> !Contains(name, Disclaimers[i])
    ensures WithoutDisclaimers(name) == Trim(name)
  {
    StripAllAbsent(name, Disclaimers);
  }

  /** `CardName::new` of `mtg-rust`. */
  function New(raw: string): (r: Result<OldCardName, CardNames.NameError>)
    ensures r.Ok? <==> WithoutDisclaimers(raw) != [] && CleanWord(WithoutDisclaimers(raw)) != []
                        && !CardNames.IsBasicLand(CleanWord(WithoutDisclaimers(raw)))
    ensures r.Ok? ==> r.value.almostRaw == raw && r.value.cleaned == CleanWord(WithoutDisclaimers(raw))
    ensures r == Err(CardNames.BasicLandName) ==> CardNames.IsBasicLand(CleanWord(WithoutDisclaimers(raw)))
  {
    var stripped := WithoutDisclaimers(raw);
    var cleaned := CleanWord(stripped);
    if stripped == [] || cleaned == [] then Err(CardNames.EmptyName)
    else if CardNames.IsBasicLand(cleaned) then Err(CardNames.BasicLandName)
    else Ok(OldCardName(raw, cleaned))
  }

  /** Derived equality sees the untouched input: two different inputs never build equal names, even when their keys agree. */
  lemma DerivedEqSeesRaw(a: string, b: string)
    requires New(a).Ok? && New(b).Ok? && a != b
    ensures New(a).value != New(b).value
  {
  }

  /** The key of an accepted name is the `clean_word` key of the disclaimer-free text, and is a fixed point of `clean_word`. */
  lemma KeyIsClean(raw: string)
    requires New(raw).Ok?
    ensures CleanWord(New(raw).value.cleaned) == New(raw).value.cleaned
    ensures IsTrimmed(New(raw).value.cleaned) && !CardNames.IsBasicLand(New(raw).value.cleaned)
  {
    CleanWordIdempotent(WithoutDisclaimers(raw));
  }
}
