/**
 * `Currency` and `Price` of the newest crate (the `dl_scraper` copies are
 * identical). Amounts are exact reals; every comparison goes through the EUR
 * value, and `Display` always shows the SEK value with two decimals.
 */
module Money {
  import opened Wrappers
  import opened Text

  datatype Currency = EUR | SEK

  datatype Price = Price(amount: real, currency: Currency)

  /** `Currency::exchange_rate`: EUR → SEK for EUR, SEK → EUR for SEK. */
  function ExchangeRate(c: Currency): (r: real)
    ensures r > 0.0
  {
    match c
    case EUR => 11.0304
    case SEK => 0.090658791
  }

  /** `Display for Currency`. */
  function CurrencyName(c: Currency): string
  {
    match c
    case EUR => "EUR"
    case SEK => "SEK"
  }

  /** `FromStr for Currency`: only the two exact names are accepted. */
  function CurrencyFromStr(s: string): (r: Result<Currency, ()>)
    ensures r.Ok? <==> s == "EUR" || s == "SEK"
    ensures r.Ok? ==> CurrencyName(r.value) == s
  {
    if s == "SEK" then Ok(SEK)
    else if s == "EUR" then Ok(EUR)
    else Err(())
  }

  lemma CurrencyNameRoundTrip(c: Currency)
    ensures CurrencyFromStr(CurrencyName(c)) == Ok(c)
  {
  }

  /** The two rates are not reciprocal: converting there and back does not return the amount. */
  lemma RatesNotReciprocal()
    ensures ExchangeRate(EUR) * ExchangeRate(SEK) != 1.0
    ensures ExchangeRate(EUR) * ExchangeRate(SEK) > 1.0
  {
  }

  /** `Price::to_eur`. */
  function ToEur(p: Price): (r: real)
    ensures p.currency == EUR ==> r == p.amount
    ensures p.currency == SEK ==> r == p.amount * 0.090658791
  {
    match p.currency
    case EUR => p.amount
    case SEK => p.amount * ExchangeRate(SEK)
  }

  /** `Price::convert_to`. */
  function ConvertTo(p: Price, target: Currency): (r: real)
    ensures target == p.currency ==> r == p.amount
    ensures target != p.currency && target == EUR ==> r == p.amount * 0.090658791
    ensures target != p.currency && target == SEK ==> r == p.amount * 11.0304
  {
    if p.currency == target then p.amount
    else
      var eur := ToEur(p);
      match target
      case EUR => eur
      case SEK => eur * ExchangeRate(EUR)
  }

  /** The unit tests' expectations hold exactly in real arithmetic. */
  lemma ConversionExamples()
    ensures ConvertTo(Price(5.0, EUR), EUR) == 5.0
    ensures ConvertTo(Price(5.0, EUR), SEK) == 55.152
    ensures ConvertTo(Price(60.0, SEK), SEK) == 60.0
    ensures ConvertTo(Price(60.0, SEK), EUR) == 5.43952746
  {
  }

  /** Conversion is monotone in the amount and keeps non-negative amounts non-negative. */
  lemma ConvertMonotone(a: real, b: real, c: Currency, target: Currency)
    requires a <= b
    ensures ConvertTo(Price(a, c), target) <= ConvertTo(Price(b, c), target)
    ensures a >= 0.0 ==> ConvertTo(Price(a, c), target) >= 0.0
  {
  }

  /** EUR → SEK → EUR multiplies by 11.0304 × 0.090658791, which is not the identity. */
  lemma RoundTripNotIdentity(x: real)
    requires x != 0.0
    ensures ConvertTo(Price(ConvertTo(Price(x, EUR), SEK), SEK), EUR) != x
  {
    assert ConvertTo(Price(ConvertTo(Price(x, EUR), SEK), SEK), EUR) == x * (11.0304 * 0.090658791);
  }

  /** `PartialEq::eq`: equal EUR values. */
  predicate Eq(a: Price, b: Price) { ToEur(a) == ToEur(b) }

  /** `<` from `PartialOrd::partial_cmp`. */
  predicate Less(a: Price, b: Price) { ToEur(a) < ToEur(b) }

  /** `>` from `PartialOrd::partial_cmp`. */
  predicate Greater(a: Price, b: Price) { ToEur(a) > ToEur(b) }

  /** Exactly one of `<`, `==`, `>` holds, and `==` agrees with neither `<` nor `>`. */
  lemma Trichotomy(a: Price, b: Price)
    ensures Less(a, b) || Eq(a, b) || Greater(a, b)
    ensures !(Less(a, b) && Eq(a, b)) && !(Less(a, b) && Greater(a, b)) && !(Eq(a, b) && Greater(a, b))
    ensures Less(a, b) <==> Greater(b, a)
  {
  }

  /** Comparisons see EUR values, never native amounts: 5 EUR is below 60 SEK although 5 < 60 either way, and 60 SEK equals itself. */
  lemma ComparisonExamples()
    ensures Less(Price(5.0, EUR), Price(60.0, SEK)) && !Greater(Price(5.0, EUR), Price(60.0, SEK))
    ensures Eq(Price(60.0, SEK), Price(60.0, SEK))
    ensures Eq(Price(0.090658791, EUR), Price(1.0, SEK))
  {
  }

  // ---------------------------------------------------------------- two-decimal display

  /** The integer nearest to `y`, ties to the even neighbour (what `{:.2}` does on the scaled value). */
  function RoundHalfEven(y: real): (n: int)
    ensures -0.5 <= n as real - y <= 0.5
    ensures y >= 0.0 ==> n >= 0
  {
    var f := y.Floor;
    var d := y - f as real;
    if d < 0.5 then f
    else if d > 0.5 then f + 1
    else if f % 2 == 0 then f
    else f + 1
  }

  function TwoDigits(m: nat): (r: string)
    requires m < 100
    ensures |r| == 2 && AllDigits(r) && DigitsValue(r) == m
  {
    var hi := [DigitChar(m / 10)];
    var r := hi + [DigitChar(m % 10)];
    assert r[..1] == hi && hi[..0] == [];
    assert DigitsValue(hi) == m / 10;
    r
  }

  /** `c` hundredths written as `<units>.<two digits>`. */
  function FormatHundredths(c: nat): string
  {
    NatToString(c / 100) + "." + TwoDigits(c % 100)
  }

  /** `format!("{:.2}", x)`: rounded to hundredths, with a `-` for negative values. */
  function FormatFixed2(x: real): string
  {
    if x < 0.0 then "-" + FormatHundredths(RoundHalfEven(-x * 100.0))
    else FormatHundredths(RoundHalfEven(x * 100.0))
  }

  lemma ParseHundredths(c: nat)
    ensures ParseUnsignedDecimal(FormatHundredths(c)) == Some(c as real / 100.0)
    ensures FormatHundredths(c)[0] != '+' && FormatHundredths(c)[0] != '-'
  {
    var a, b := NatToString(c / 100), TwoDigits(c % 100);
    PointFoundAfter(a, b);
    assert Pow10(2) == 100;
    assert ParsePointed(a, b) == Some((c / 100) as real + (c % 100) as real / 100.0);
    assert (c / 100) as real + (c % 100) as real / 100.0 == c as real / 100.0;
    assert (a + "." + b)[0] == a[0];
  }

  /** Parsing what `{:.2}` printed gives back the value to within half a hundredth. */
  lemma FormatFixed2RoundTrip(x: real)
    ensures ParseDecimal(FormatFixed2(x)).Some?
    ensures -0.005 <= ParseDecimal(FormatFixed2(x)).value - x <= 0.005
  {
    if x < 0.0 {
      var n := RoundHalfEven(-x * 100.0);
      ParseHundredths(n);
      assert ("-" + FormatHundredths(n))[1..] == FormatHundredths(n);
    } else {
      ParseHundredths(RoundHalfEven(x * 100.0));
    }
  }

  /** The SEK value `Display` shows: EUR amounts are multiplied by 11.0304, SEK amounts are shown as they are. */
  function SekShown(p: Price): (r: real)
    ensures r == ConvertTo(p, SEK)
  {
    match p.currency
    case EUR => p.amount * ExchangeRate(EUR)
    case SEK => p.amount
  }

  /** `Display for Price`. */
  function Display(p: Price): string
  {
    FormatFixed2(SekShown(p)) + " SEK"
  }

  /** The display always ends in " SEK" and its number reads back as the SEK value, rounded to hundredths. */
  lemma DisplayShowsSek(p: Price)
    ensures var s := Display(p);
            |s| > 4 && s[|s| - 4..] == " SEK"
            && ParseDecimal(s[..|s| - 4]).Some?
            && -0.005 <= ParseDecimal(s[..|s| - 4]).value - ConvertTo(p, SEK) <= 0.005
  {
    var s := Display(p);
    assert s[..|s| - 4] == FormatFixed2(SekShown(p));
    FormatFixed2RoundTrip(SekShown(p));
  }
}
