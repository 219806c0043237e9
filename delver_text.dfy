/**
 * The text conventions of a Delver Lens export, shared by the three CSV
 * converters: prices are written with a decimal comma and a trailing
 * no-break space and euro sign (`2,06 €`), rarities as one letter.
 */
module DelverText {
  import opened Wrappers
  import opened Text
  import Money
  import Cards

  /** The no-break space and euro sign after every price. */
  const PriceSuffix: string := "\U{00A0}€"

  /** The text the price parser sees: the suffix removed, then every comma turned into a point. */
  function PriceText(s: string): string
  {
    Replace(Replace(s, PriceSuffix, ""), ",", ".")
  }

  /** `convert_price_to_number`: the cleaned text parsed as a number. */
  function ConvertPriceToNumber(s: string): Option<real>
  {
    ParseDecimal(PriceText(s))
  }

  /** How the export writes `c` hundredths of a euro. */
  function DelverPriceText(c: nat): string
  {
    NatToString(c / 100) + "," + Money.TwoDigits(c % 100) + PriceSuffix
  }

  /** Every price the export writes reads back as its value. */
  lemma PriceRoundTrip(c: nat)
    ensures ConvertPriceToNumber(DelverPriceText(c)) == Some(c as real / 100.0)
  {
    var a, b := NatToString(c / 100), Money.TwoDigits(c % 100);
    assert forall i :: 0 <= i < |a| ==> IsDigit(a[i]);
    assert forall i :: 0 <= i < |b| ==> IsDigit(b[i]);
    SuffixDropped(a, b);
    assert ',' !in a && ',' !in b by {
      NoCommaInDigits(a);
      NoCommaInDigits(b);
    }
    CommaToPoint(a, b);
    assert PriceText(DelverPriceText(c)) == Money.FormatHundredths(c);
    Money.ParseHundredths(c);
  }

  /** Removing the suffix from a written price leaves the digits and the comma. */
  lemma SuffixDropped(a: string, b: string)
    requires forall i :: 0 <= i < |a| ==> IsDigit(a[i])
    requires forall i :: 0 <= i < |b| ==> IsDigit(b[i])
    ensures Replace(a + "," + b + PriceSuffix, PriceSuffix, "") == a + "," + b
  {
    var body := a + "," + b;
    assert PriceSuffix[0] !in body by {
      forall i | 0 <= i < |body|
        ensures body[i] != '\U{00A0}'
      {
        if i < |a| {
          assert body[i] == a[i];
        } else if i > |a| {
          assert body[i] == b[i - |a| - 1];
        }
      }
    }
    ReplaceSuffix(body, PriceSuffix);
  }

  /** Digits hold no comma. */
  lemma NoCommaInDigits(s: string)
    requires forall i :: 0 <= i < |s| ==> IsDigit(s[i])
    ensures ',' !in s
  {
    forall i | 0 <= i < |s| ensures s[i] != ',' {
      assert IsDigit(s[i]);
    }
  }

  /** The one comma of a written price becomes a point. */
  lemma CommaToPoint(a: string, b: string)
    requires ',' !in a && ',' !in b
    ensures Replace(a + "," + b, ",", ".") == a + "." + b
  {
    var comma, point := ",", ".";
    var tail := comma + b;
    assert a + comma + b == a + tail;
    assert Replace(a + tail, comma, point) == a + Replace(tail, comma, point) by {
      ReplaceSkipsPrefix(a, tail, comma, point);
    }
    assert Replace(tail, comma, point) == point + b by {
      ReplaceAtFront(b, comma, point);
      ReplaceMissing(b, comma, point);
    }
    assert a + (point + b) == a + point + b;
  }

  /** A price already written with a point and without the suffix is parsed as it stands. */
  lemma PlainNumberUnchanged(s: string)
    requires !Contains(s, PriceSuffix) && !Contains(s, ",")
    ensures ConvertPriceToNumber(s) == ParseDecimal(s)
  {
    ReplaceAbsent(s, PriceSuffix, "");
    ReplaceAbsent(s, ",", ".");
  }

  /** The rarity letter: C, U, R and M name the four rarities; any other text counts as common. */
  function ConvertRarity(s: string): (r: Cards.Rarity)
    ensures r == Cards.Uncommon <==> s == "U"
    ensures r == Cards.Rare <==> s == "R"
    ensures r == Cards.Mythic <==> s == "M"
    ensures r == Cards.Common <==> s != "U" && s != "R" && s != "M"
  {
    if s == "C" then Cards.Common
    else if s == "U" then Cards.Uncommon
    else if s == "R" then Cards.Rare
    else if s == "M" then Cards.Mythic
    else Cards.Common
  }
}
