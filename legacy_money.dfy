/**
 * The older `Price` of `mtg-rust`: the same two currencies, but a rate table
 * towards EUR only (EUR 1.0, SEK 0.1), and a display of the native amount.
 * The currency enumeration has the same two variants as the newest one, so
 * `Money.Currency` is reused.
 */
module LegacyMoney {
  import opened Text
  import Money

  type Currency = Money.Currency

  datatype LegacyPrice = LegacyPrice(amount: real, currency: Currency)

  /** `Currency::to_eur_rate`. */
  function ToEurRate(c: Currency): (r: real)
    ensures c == Money.EUR ==> r == 1.0
    ensures c == Money.SEK ==> r == 0.1
  {
    match c
    case EUR => 1.0
    case SEK => 0.1
  }

  /** `Price::to_eur`. */
  function ToEur(p: LegacyPrice): (r: real)
    ensures p.currency == Money.EUR ==> r == p.amount
    ensures p.currency == Money.SEK ==> r * 10.0 == p.amount
  {
    p.amount * ToEurRate(p.currency)
  }

  /** `PartialEq::eq`. */
  predicate Eq(a: LegacyPrice, b: LegacyPrice) { ToEur(a) == ToEur(b) }

  /** `<` from `PartialOrd::partial_cmp`. */
  predicate Less(a: LegacyPrice, b: LegacyPrice) { ToEur(a) < ToEur(b) }

  /** `>` from `PartialOrd::partial_cmp`. */
  predicate Greater(a: LegacyPrice, b: LegacyPrice) { ToEur(a) > ToEur(b) }

  /** Under this table ten kronor are one euro, and ordering agrees with the EUR values. */
  lemma TenSekIsOneEur(x: real)
    ensures Eq(LegacyPrice(10.0 * x, Money.SEK), LegacyPrice(x, Money.EUR))
    ensures Less(LegacyPrice(x, Money.SEK), LegacyPrice(x, Money.EUR)) <==> x > 0.0
  {
  }

  /** The unit test's expectations: 5 EUR < 60 SEK, not >, and 60 SEK == 60 SEK. */
  lemma ComparisonExamples()
    ensures Less(LegacyPrice(5.0, Money.EUR), LegacyPrice(60.0, Money.SEK))
    ensures !Greater(LegacyPrice(5.0, Money.EUR), LegacyPrice(60.0, Money.SEK))
    ensures Eq(LegacyPrice(60.0, Money.SEK), LegacyPrice(60.0, Money.SEK))
  {
  }

  /** The older and the newer table disagree: 60 SEK is 6 EUR here but about 5.44 EUR there. */
  lemma TablesDisagree()
    ensures ToEur(LegacyPrice(60.0, Money.SEK)) == 6.0
    ensures Money.ToEur(Money.Price(60.0, Money.SEK)) == 5.43952746
  {
  }

  /** `Display`: the native amount with two decimals and the currency's own name, no conversion. */
  function Display(p: LegacyPrice): string
  {
    Money.FormatFixed2(p.amount) + " " + Money.CurrencyName(p.currency)
  }

  /** The display ends in the native currency and its number reads back as the native amount, rounded to hundredths. */
  lemma DisplayShowsNative(p: LegacyPrice)
    ensures var s := Display(p);
            var name := Money.CurrencyName(p.currency);
            |s| > 4 && s[|s| - 4..] == " " + name
            && ParseDecimal(s[..|s| - 4]).Some?
            && -0.005 <= ParseDecimal(s[..|s| - 4]).value - p.amount <= 0.005
  {
    var s := Display(p);
    assert s[..|s| - 4] == Money.FormatFixed2(p.amount);
    Money.FormatFixed2RoundTrip(p.amount);
  }
}
