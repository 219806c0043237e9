/**
 * The Scryfall bulk-data conversion of the newest crate
 * (`scryfall_scraper.rs`, `convert_raw_to_domain_cards`): every card object
 * that is not a token, an art-series card or a basic land becomes a
 * `ScryfallCard` with cleaned name and set, its two EUR prices and a
 * "<set>-<number>" collector number, and the cards are grouped by name. The
 * file is given already read: a card object is a `RawCard` holding the JSON
 * value of each field the conversion looks at.
 */
module Scryfall {
  import opened Wrappers
  import opened Text
  import opened Lists
  import opened Cleaning
  import Money
  import CardNames
  import SetNames
  import CollectorNumbers
  import opened Cards

  /**
   * A JSON value as `serde_json` indexes it: a field that is missing reads as
   * `Null`. A number keeps the text `serde_json` prints for it; an array or
   * object keeps its printed text too.
   */
  datatype Json = Null | Bool(b: bool) | Number(num: real, literal: string) | Str(text: string) | Compound(printed: string)

  /** The fields of one card object that are read (`prices.eur`, `prices.eur_foil` and `image_uris.normal` flattened). */
  datatype RawCard = RawCard(
    name: Json,
    setName: Json,
    setCode: Json,
    collectorNumber: Json,
    layout: Json,
    typeLine: Json,
    eur: Json,
    eurFoil: Json,
    imageNormal: Json)

  /** `Value::as_str`. */
  function AsStr(v: Json): Option<string>
  {
    if v.Str? then Some(v.text) else None
  }

  // ---------------------------------------------------------------- filters

  /** `is_not_token`: a `Value` equals a `&str` only when it is that very string. */
  predicate IsNotToken(r: RawCard)
  {
    r.layout != Str("token")
  }

  /** `is_not_artseries`. */
  predicate IsNotArtSeries(r: RawCard)
  {
    r.layout != Str("art_series")
  }

  /** What a missing or non-text type line reads as. */
  const NoTypeLine: string := "Not what we are looking for"

  /** `is_not_basic_land`. */
  predicate IsNotBasicLand(r: RawCard)
  {
    !StartsWith(match AsStr(r.typeLine) case Some(t) => t case None => NoTypeLine, "Basic Land")
  }

  /** The three filters joined with `&&`. */
  predicate Kept(r: RawCard)
  {
    IsNotToken(r) && IsNotBasicLand(r) && IsNotArtSeries(r)
  }

  /**
   * A record is kept exactly when its layout is neither "token" nor
   * "art_series" and it has no type line beginning with "Basic Land"; a
   * missing type line never marks a basic land.
   */
  lemma KeptExactly(r: RawCard)
    ensures Kept(r) <==> r.layout != Str("token") && r.layout != Str("art_series")
                         && !(r.typeLine.Str? && StartsWith(r.typeLine.text, "Basic Land"))
  {
    assert NoTypeLine[..10] != "Basic Land" by {
      assert NoTypeLine[0] == 'N';
    }
  }

  // ---------------------------------------------------------------- fields

  /**
   * A price field: text that parses as a number, else a JSON number, else
   * nothing (`as_str().and_then(parse).or_else(as_f64)`), tagged EUR. Text
   * that does not parse is not read as a number.
   */
  function PriceOf(v: Json): (r: Option<Money.Price>)
    ensures r.Some? ==> r.value.currency == Money.EUR
    ensures v.Str? ==> (r.Some? <==> ParseDecimal(v.text).Some?)
                       && (r.Some? ==> r.value.amount == ParseDecimal(v.text).value)
    ensures v.Number? ==> r == Some(Money.Price(v.num, Money.EUR))
    ensures !v.Str? && !v.Number? ==> r.None?
  {
    var parsed := match AsStr(v) case Some(s) => ParseDecimal(s) case None => None;
    var amount := if parsed.Some? then parsed else if v.Number? then Some(v.num) else None;
    match amount
    case Some(x) => Some(Money.Price(x, Money.EUR))
    case None => None
  }

  /** Prices written as text are read as decimals: "0.19" is 0.19 EUR. */
  lemma TextPriceRead()
    ensures PriceOf(Str("0.19")) == Some(Money.Price(0.19, Money.EUR))
  {
    DecimalZeroPointNineteen();
  }

  lemma DecimalZeroPointNineteen()
    ensures ParseDecimal("0.19") == Some(0.19)
  {
    var s := "0.19";
    assert s == "0" + "." + "19";
    assert s[0] == '0';
    PointFoundAfter("0", "19");
    NineteenDigits();
    assert Pow10(2) == 100;
  }

  lemma NineteenDigits()
    ensures AllDigits("19") && DigitsValue("19") == 19 && AllDigits("0") && DigitsValue("0") == 0
  {
    assert "19"[..1] == "1";
  }

  /** The image shown when a card has none. */
  const PlaceholderImage: string := "https://www.google.com/url?sa=i&url=https%3A%2F%2Fanswers.microsoft.com%2Fen-us%2Fwindows%2Fforum%2Fall%2Fhigh-ram-usage-40-50-without-any-program%2F1dcf1e4d-f78e-4a06-a4e8-71f3972cc852&psig=AOvVaw0f3g3-hf1qnv6thWr6iQC2&ust=1724858067666000&source=images&cd=vfe&opi=89978449&ved=0CBQQjRxqFwoTCNjH-Ja7lYgDFQAAAAAdAAAAABAE"

  function ImageOf(v: Json): string
  {
    match AsStr(v) case Some(u) => u case None => PlaceholderImage
  }

  // ---------------------------------------------------------------- collector number

  /** `n` zero digits. */
  function Zeros(n: nat): (z: string)
    ensures |z| == n && forall i :: 0 <= i < n ==> z[i] == '0'
  {
    seq(n, _ => '0')
  }

  /** The number with `0`s put in front until it is three characters long. */
  function ZeroPadded(s: string): (r: string)
    ensures |r| == if |s| < 3 then 3 else |s|
    ensures r[|r| - |s|..] == s
    ensures forall i :: 0 <= i < |r| - |s| ==> r[i] == '0'
  {
    if |s| >= 3 then s else Zeros(3 - |s|) + s
  }

  /** One more leading zero on a number shorter than three characters pads to the same text. */
  lemma PadStep(s: string)
    requires |s| < 3
    ensures ZeroPadded("0" + s) == ZeroPadded(s)
  {
    var a, b := ZeroPadded("0" + s), ZeroPadded(s);
    assert |a| == |b| == 3;
    forall i | 0 <= i < 3
      ensures a[i] == b[i]
    {
      if i < 3 - |s| {
        assert a[i] == '0' by {
          if i < 2 - |s| {
          } else {
            assert a[3 - |s| - 1..][0] == ("0" + s)[0];
          }
        }
      } else {
        assert a[i] == a[3 - |s|..][i - (3 - |s|)];
        assert b[i] == b[3 - |s|..][i - (3 - |s|)];
        assert a[3 - |s|..] == s by {
          assert a[3 - |s| - 1..] == "0" + s;
        }
      }
    }
  }

  /** The padding loop. */
  method PadNumber(s: string) returns (number: string)
    ensures number == ZeroPadded(s)
  {
    number := s;
    while |number| < 3
      invariant ZeroPadded(number) == ZeroPadded(s)
      decreases 3 - |number|
    {
      PadStep(number);
      number := "0" + number;
    }
  }

  /** A leading zero does not change the value of a digit string. */
  lemma {:induction false} LeadingZeroValue(s: string)
    requires AllDigits(s)
    ensures AllDigits("0" + s) && DigitsValue("0" + s) == DigitsValue(s)
    decreases |s|
  {
    if s != [] {
      var t := "0" + s;
      assert t[..|t| - 1] == "0" + s[..|s| - 1];
      LeadingZeroValue(s[..|s| - 1]);
    }
  }

  /** Padding a number written in digits keeps it a digit string with the same value. */
  lemma {:induction false} PaddingKeepsValue(s: string)
    requires AllDigits(s)
    ensures AllDigits(ZeroPadded(s)) && DigitsValue(ZeroPadded(s)) == DigitsValue(s)
    decreases 3 - |s|
  {
    if |s| < 3 {
      LeadingZeroValue(s);
      PaddingKeepsValue("0" + s);
      PadStep(s);
    }
  }

  /** `format!("{}-{}", short_set_name, number)` with the padded number. */
  function NumberText(shortSet: string, number: string): string
  {
    shortSet + "-" + ZeroPadded(number)
  }

  /** A one-digit number is padded to three characters. */
  lemma PadOneDigit()
    ensures ZeroPadded("7") == "007"
  {
    assert Zeros(2) == "00";
  }

  /** A set code and a one-digit number give an accepted collector number: "znr" and "7" give "znr-007". */
  lemma ShortNumberAccepted()
    ensures NumberText("znr", "7") == "znr-007" && CollectorNumbers.New("znr-007").Ok?
  {
    PadOneDigit();
    assert "znr" + "-" + "007" == "znr-007";
    ZnrNumberValid();
  }

  lemma ZnrNumberValid()
    ensures CollectorNumbers.New("znr-007").Ok?
  {
    var t := "znr-007";
    assert IsTrimmed(t) by {
      assert t[0] == 'z' && t[|t| - 1] == '7';
    }
    assert Trim(t) == t by {
      TrimOfTrimmed(t);
    }
    assert CollectorNumbers.IsUnderscoreAndDashSeparated(t) by {
      assert t[3] == '-';
    }
  }

  // ---------------------------------------------------------------- one record

  /** The `unwrap`s that must not fail: the name and set name of a kept record, then its set code and number once the name is accepted. */
  predicate NoPanic(r: RawCard)
  {
    Kept(r) ==> r.name.Str? && r.setName.Str?
                && (CardNames.New(CleanString(r.name.text)).Ok? ==> r.setCode.Str? && r.collectorNumber.Str?)
  }

  /**
   * One record of the loop: `Ok(None)` when it is filtered out or its name is
   * refused (`continue`), `Err` when its set name is refused (the `?` that
   * ends the whole conversion), else the card.
   */
  function ConvertRecord(r: RawCard): Result<Option<ScryfallCard>, SetNames.SetError>
    requires NoPanic(r)
  {
    if !Kept(r) then Ok(None)
    else
      match CardNames.New(CleanString(r.name.text))
      case Err(_) => Ok(None)
      case Ok(name) =>
        var collectorNumber :=
          match CollectorNumbers.New(NumberText(CleanString(r.setCode.text), CleanString(r.collectorNumber.text)))
          case Ok(c) => Some(c)
          case Err(_) => None;
        match SetNames.New(CleanString(r.setName.text))
        case Err(e) => Err(e)
        case Ok(setName) =>
          Ok(Some(ScryfallCard(name, setName, ImageOf(r.imageNormal), Prices(PriceOf(r.eur), PriceOf(r.eurFoil)), collectorNumber)))
  }

  /** Tokens, art-series cards and basic lands never become cards and never stop the conversion. */
  lemma FilteredRecordSkipped(r: RawCard)
    requires r.layout == Str("token") || r.layout == Str("art_series")
             || (r.typeLine.Str? && StartsWith(r.typeLine.text, "Basic Land"))
    ensures NoPanic(r) && ConvertRecord(r) == Ok(None)
  {
    KeptExactly(r);
  }

  /** A kept record whose cleaned name `CardName::new` refuses is skipped without an error, whatever its set. */
  lemma RefusedNameSkipped(r: RawCard)
    requires Kept(r) && r.name.Str? && r.setName.Str?
    requires CardNames.New(CleanString(r.name.text)).Err?
    ensures NoPanic(r) && ConvertRecord(r) == Ok(None)
  {
  }

  /**
   * What a converted record holds: the name built from the cleaned name, the
   * set built from the cleaned set name, the two prices, the image, and the
   * collector number exactly when "<set code>-<padded number>" is a valid one.
   * A refused set name is an error only for a kept record with an accepted name.
   */
  lemma ConvertRecordFields(r: RawCard)
    requires NoPanic(r)
    ensures ConvertRecord(r).Err? <==>
              Kept(r) && CardNames.New(CleanString(r.name.text)).Ok? && SetNames.New(CleanString(r.setName.text)).Err?
    ensures ConvertRecord(r).Ok? && ConvertRecord(r).value.Some? ==>
              var c := ConvertRecord(r).value.value;
              var n := CollectorNumbers.New(NumberText(CleanString(r.setCode.text), CleanString(r.collectorNumber.text)));
              && Kept(r)
              && CardNames.New(CleanString(r.name.text)) == Ok(c.name)
              && SetNames.New(CleanString(r.setName.text)) == Ok(c.setName)
              && c.prices == Prices(PriceOf(r.eur), PriceOf(r.eurFoil))
              && c.imageUrl == ImageOf(r.imageNormal)
              && (c.collectorNumber.Some? <==> n.Ok?)
              && (n.Ok? ==> c.collectorNumber == Some(n.value))
  {
  }

  /** The cards a record contributes: its card, or none. */
  function RecordCards(r: RawCard): (cs: seq<ScryfallCard>)
    ensures |cs| <= 1
  {
    if NoPanic(r) && ConvertRecord(r).Ok? && ConvertRecord(r).value.Some? then [ConvertRecord(r).value.value] else []
  }

  // ---------------------------------------------------------------- the whole file

  /** Every record is free of panics. */
  predicate AllNoPanic(records: seq<RawCard>)
  {
    forall i :: 0 <= i < |records| ==> NoPanic(records[i])
  }

  /** The card list of the loop, or the error of the first record whose set name is refused. */
  function ConvertAll(records: seq<RawCard>): Result<seq<ScryfallCard>, SetNames.SetError>
    requires AllNoPanic(records)
  {
    TryFilterMap(records, ConvertRecord)
  }

  /**
   * The conversion succeeds exactly when no record fails, and then the cards
   * are those of the records, in input order.
   */
  lemma ConvertAllOk(records: seq<RawCard>)
    requires AllNoPanic(records)
    ensures ConvertAll(records).Ok? <==> forall i :: 0 <= i < |records| ==> ConvertRecord(records[i]).Ok?
    ensures ConvertAll(records).Ok? ==> ConvertAll(records).value == ConcatMap(records, RecordCards)
  {
    TryFilterMapOk(records, ConvertRecord);
    if ConvertAll(records).Ok? {
      ConvertAllCards(records);
    }
  }

  /** A conversion that gets through holds the cards of the records, in input order. */
  lemma ConvertAllCards(records: seq<RawCard>)
    requires AllNoPanic(records) && ConvertAll(records).Ok?
    ensures ConvertAll(records).value == ConcatMap(records, RecordCards)
  {
    TryFilterMapPieces(records, ConvertRecord, RecordCards);
  }

  /** A failed conversion carries the error of the first record whose set name is refused. */
  lemma ConvertAllErr(records: seq<RawCard>)
    requires AllNoPanic(records) && ConvertAll(records).Err?
    ensures exists i :: 0 <= i < |records| && ConvertRecord(records[i]) == Err(ConvertAll(records).error)
                        && forall j :: 0 <= j < i ==> ConvertRecord(records[j]).Ok?
  {
    TryFilterMapErr(records, ConvertRecord);
  }

  /** No record fails: each becomes at most one card, so the cards are never more than the records. */
  lemma {:induction false} ConvertedAtMostOnePerRecord(records: seq<RawCard>)
    ensures |ConcatMap(records, RecordCards)| <= |records|
    decreases |records|
  {
    if records != [] {
      ConvertedAtMostOnePerRecord(records[..|records| - 1]);
    }
  }

  /**
   * `convert_raw_to_domain_cards` after the file is read: the record loop,
   * leaving at the first refused set name, then the cards pushed onto the
   * bucket of their name key in order.
   */
  method ConvertRawToDomainCards(records: seq<RawCard>) returns (r: Result<map<string, seq<ScryfallCard>>, SetNames.SetError>)
    requires AllNoPanic(records)
    ensures ConvertAll(records).Err? ==> r == Err(ConvertAll(records).error)
    ensures ConvertAll(records).Ok? ==> r == Ok(Grouped(ConvertAll(records).value, ReferenceKey))
    ensures r.Ok? ==> forall k :: k in r.value <==> exists i :: 0 <= i < |ConvertAll(records).value| && ReferenceKey(ConvertAll(records).value[i]) == k
    ensures r.Ok? ==> forall k :: k in r.value ==> r.value[k] == KeyFilter(ConvertAll(records).value, ReferenceKey, k)
  {
    var converted := TryFilterMapLoop(records, ConvertRecord);
    if converted.Err? {
      return Err(converted.error);
    }
    var cards := converted.value;
    var grouped := GroupBy(cards, ReferenceKey);
    r := Ok(grouped);
  }
}
