/**
 * What the two Dragonslair row parsers (`magic_card_scraper`'s
 * `cards/card_parser.rs` and `mtg-rust`'s `dl/card_parser.rs`) share: the
 * case-insensitive patterns that skip a row or mark it foil, prerelease,
 * showcase or extended art, the fallback to the set link when the set image
 * has no title, and the reading of the stock cell ("1 / 2 st": in stock, then
 * the most the shop wants). The patterns are literal texts matched anywhere in
 * the name, ignoring ASCII case.
 */
module DlRows {
  import opened Wrappers
  import opened Text

  /** The card's image link (`a.fancybox`): its text and, when it has one, its `href`. */
  datatype Link = Link(text: string, href: Option<string>)

  /**
   * One product row (`tr[id*='product-row-']`) of a listing page, as read out
   * of the HTML: each field is the text or attribute the parsers select, or
   * `None` when the row has no such element.
   */
  datatype Row = Row(
    link: Option<Link>,              // the first `a.fancybox`
    wrapText: Option<string>,        // the first `td.wrap`
    imageTitle: Option<string>,      // the `title` of the first `img[title]`
    setLinkText: Option<string>,     // the first `td.align-right a`
    thirdCell: Option<string>,       // the third `td`
    inStorePrice: Option<string>,    // `td.align-right span.format-bold`
    notInStorePrice: Option<string>, // `td.align-right span.format-subtle`
    buyin: Option<string>,           // the row's `data-buyin` attribute
    rightCells: seq<string>)         // every `td.align-right`, in order

  /** The `n`-th right-aligned cell (`.nth(n)`), if the row has that many. */
  function RightCell(row: Row, n: nat): (r: Option<string>)
    ensures r.Some? <==> n < |row.rightCells|
    ensures r.Some? ==> r.value == row.rightCells[n]
  {
    if n < |row.rightCells| then Some(row.rightCells[n]) else None
  }

  /** The line break and 64-space indentation the listing's HTML puts inside names and set titles. */
  const Indent: string := "\n" + "                                                                "

  /** A text as the parsers read it: each indented line break becomes one space, then the whole is trimmed. */
  function CleanText(t: string): (r: string)
    ensures IsTrimmed(r)
  {
    Trim(Replace(t, Indent, " "))
  }

  /** A text on one line holds no indented line break to replace. */
  lemma OneLineUnchanged(t: string)
    requires '\n' !in t
    ensures Replace(t, Indent, " ") == t
  {
    assert Indent[0] == '\n';
    ReplaceMissing(t, Indent, " ");
  }

  /** A trimmed text on one line is read as it is. */
  lemma PlainTextUnchanged(t: string)
    requires '\n' !in t && IsTrimmed(t)
    ensures CleanText(t) == t
  {
    OneLineUnchanged(t);
    TrimOfTrimmed(t);
  }

  /** Damaged, played and token rows are not cards for sale. */
  const UnwantedPatterns: seq<string> := ["(skadad)", "( Skadad )", "(Spelad)", "[Token]"]

  const FoilPatterns: seq<string> := ["(Foil)", "(Etched Foil)", "(Foil Etched)"]

  const PrereleasePattern: string := "(Prerelease)"
  const ShowcasePattern: string := "(Showcase)"
  const ExtendedArtPattern: string := "(Extended Art)"

  /** The placeholder for a missing set. */
  const Unknown: string := "UNKNOWN"

  /** `patterns.iter().any(|p| p.is_match(name))`. */
  predicate MatchesAny(name: string, patterns: seq<string>)
  {
    exists i :: 0 <= i < |patterns| && ContainsIgnoreCase(name, patterns[i])
  }

  /** Damaged, played or token. */
  predicate IsUnwanted(name: string)
  {
    MatchesAny(name, UnwantedPatterns)
  }

  predicate IsFoil(name: string)
  {
    MatchesAny(name, FoilPatterns)
  }

  /** The foil marker is found whatever its case. */
  lemma FoilInAnyCase(a: string, marker: string, b: string)
    requires ToLower(marker) == "(foil)"
    ensures IsFoil(a + marker + b)
  {
    assert ToLower(FoilPatterns[0]) == "(foil)";
    ContainsIgnoreCaseMiddle(a, marker, b, FoilPatterns[0]);
  }

  /** The set: the image title, unless the image has none ("UNKNOWN"), in which case the set link's text. */
  function ChooseSet(title: string, linkText: string): (r: string)
    ensures title != Unknown ==> r == title
    ensures title == Unknown ==> r == linkText
  {
    if title == Unknown then linkText else title
  }

  // ---------------------------------------------------------------- stock

  /** The tokens that parse as `i8`, in order. */
  function ParsedI8s(words: seq<string>): (r: seq<int>)
    ensures |r| <= |words|
    ensures forall x :: x in r ==> I8_MIN <= x <= I8_MAX
    decreases |words|
  {
    if words == [] then []
    else
      ParsedI8s(words[..|words| - 1])
      + (match ParseI8(words[|words| - 1]) case Some(n) => [n] case None => [])
  }

  /** The numbers of a stock cell: `/` and "st" removed, trimmed, split on whitespace, the `i8` tokens kept. */
  function StockNumbers(cell: string): seq<int>
  {
    ParsedI8s(SplitWhitespace(Trim(Replace(Replace(cell, "/", ""), "st", ""))))
  }

  datatype Stock = Stock(current: int, max: int)

  /** The first number is the stock, the last the most the shop wants; no numbers, or no cell, give 0 and 0. */
  function ReadStock(cell: Option<string>): (r: Stock)
    ensures I8_MIN <= r.current <= I8_MAX && I8_MIN <= r.max <= I8_MAX
  {
    match cell
    case None => Stock(0, 0)
    case Some(c) =>
      var ns := StockNumbers(c);
      if ns == [] then Stock(0, 0)
      else
        assert ns[0] in ns && ns[|ns| - 1] in ns;
        Stock(ns[0], ns[|ns| - 1])
  }

  /** A row without a stock cell, or whose cell holds no number, counts as 0 in stock and 0 wanted. */
  lemma NoStockNumbers(cell: Option<string>)
    requires cell.None? || StockNumbers(cell.value) == []
    ensures ReadStock(cell) == Stock(0, 0)
  {
  }

  /** The cell as the shop writes it, "a / b st", reads as `a` in stock out of `b`. */
  lemma TypicalStockCell(a: nat, b: nat)
    requires a <= I8_MAX && b <= I8_MAX
    ensures ReadStock(Some(NatToString(a) + " / " + NatToString(b) + " st")) == Stock(a, b)
  {
    var sa, sb := NatToString(a), NatToString(b);
    assert StockNumbers(sa + " / " + sb + " st") == ParsedI8s([sa, sb]) by {
      CellWords(sa, sb);
    }
    assert ParsedI8s([sa, sb]) == [a, b] by {
      TwoI8s(a, b);
    }
  }

  /** Two numerals with a slash between and "st" after are read as those two words. */
  lemma CellWords(sa: string, sb: string)
    requires Numeral(sa) && Numeral(sb)
    ensures StockNumbers(sa + " / " + sb + " st") == ParsedI8s([sa, sb])
  {
    var cell := sa + " / " + sb + " st";
    assert Trim(Replace(Replace(cell, "/", ""), "st", "")) == sa + "  " + sb by {
      CellCleaned(sa, sb);
    }
    assert SplitWhitespace(sa + "  " + sb) == [sa, sb] by {
      TwoWords(sa, sb);
    }
  }

  lemma TwoI8s(a: nat, b: nat)
    requires a <= I8_MAX && b <= I8_MAX
    ensures ParsedI8s([NatToString(a), NatToString(b)]) == [a, b]
  {
    var ws := [NatToString(a), NatToString(b)];
    assert ParseI8(ws[1]) == Some(b) by {
      ParseNatToString(b, true, I8_MIN, I8_MAX);
    }
    assert ParseI8(ws[0]) == Some(a) by {
      ParseNatToString(a, true, I8_MIN, I8_MAX);
    }
    assert ws[..1] == [ws[0]];
    assert [ws[0]][..0] == [];
  }

  predicate Numeral(s: string)
  {
    s != [] && AllDigits(s)
  }

  /** The cleaned text of a numeral holds no `s`. */
  lemma NoLetterS(sa: string, sb: string)
    requires Numeral(sa) && Numeral(sb)
    ensures 's' !in sa + "  " + sb + " "
  {
    assert forall i :: 0 <= i < |sa| ==> IsDigit(sa[i]);
    assert forall i :: 0 <= i < |sb| ==> IsDigit(sb[i]);
  }

  /** Removing `/` and "st" and trimming leaves the two numbers with the two spaces that were around the slash. */
  lemma CellCleaned(sa: string, sb: string)
    requires Numeral(sa) && Numeral(sb)
    ensures Trim(Replace(Replace(sa + " / " + sb + " st", "/", ""), "st", "")) == sa + "  " + sb
  {
    var body := sa + "  " + sb + " ";
    assert Replace(sa + " / " + sb + " st", "/", "") == body + "st" by {
      SlashRemoved(sa, sb);
    }
    assert Replace(body + "st", "st", "") == body by {
      NoLetterS(sa, sb);
      StRemoved(body);
    }
    assert Trim(body) == sa + "  " + sb by {
      TrimPair(sa, sb);
    }
  }

  lemma TrimPair(sa: string, sb: string)
    requires Numeral(sa) && Numeral(sb)
    ensures Trim(sa + "  " + sb + " ") == sa + "  " + sb
  {
    var core := sa + "  " + sb;
    assert IsTrimmed(core) by {
      assert core[0] == sa[0] && IsDigit(sa[0]);
      assert core[|core| - 1] == sb[|sb| - 1] && IsDigit(sb[|sb| - 1]);
    }
    assert core + " " == core + [' '];
    TrimTrailingSpace(core, ' ');
  }

  /** One `/` between two texts without one is all that removing slashes takes away. */
  lemma OneSlashRemoved(x: string, y: string)
    requires '/' !in x && '/' !in y
    ensures Replace(x + "/" + y, "/", "") == x + y
  {
    var t := "/" + y;
    assert x + "/" + y == x + t;
    assert Replace(x + t, "/", "") == x + Replace(t, "/", "") by {
      ReplaceSkipsPrefix(x, t, "/", "");
    }
    assert Replace(t, "/", "") == "" + Replace(y, "/", "") by {
      ReplaceAtFront(y, "/", "");
    }
    assert Replace(y, "/", "") == y by {
      ReplaceMissing(y, "/", "");
    }
    assert "" + y == y;
  }

  lemma SlashRemoved(sa: string, sb: string)
    requires Numeral(sa) && Numeral(sb)
    ensures Replace(sa + " / " + sb + " st", "/", "") == sa + "  " + sb + " " + "st"
  {
    var x, y := sa + " ", " " + sb + " st";
    assert '/' !in x && '/' !in y by {
      assert forall i :: 0 <= i < |sa| ==> IsDigit(sa[i]);
      assert forall i :: 0 <= i < |sb| ==> IsDigit(sb[i]);
    }
    assert sa + " / " + sb + " st" == x + "/" + y;
    OneSlashRemoved(x, y);
    assert x + y == sa + "  " + sb + " " + "st";
  }

  /** A text without an `s` ending in "st" loses just that ending. */
  lemma StRemoved(body: string)
    requires 's' !in body
    ensures Replace(body + "st", "st", "") == body
  {
    ReplaceSuffix(body, "st");
  }

  /** Digits hold no whitespace. */
  lemma NumeralIsWord(s: string)
    requires Numeral(s)
    ensures s != [] && forall i :: 0 <= i < |s| ==> !IsWhitespace(s[i])
  {
    assert forall i :: 0 <= i < |s| ==> IsDigit(s[i]);
  }

  lemma TwoWords(sa: string, sb: string)
    requires Numeral(sa) && Numeral(sb)
    ensures SplitWhitespace(sa + "  " + sb) == [sa, sb]
  {
    NumeralIsWord(sa);
    NumeralIsWord(sb);
    var ws := "  ";
    assert forall i :: 0 <= i < |ws| ==> IsWhitespace(ws[i]);
    assert sa + "  " + sb == sa + (ws + sb);
    SplitTwoWords(sa, ws, sb);
  }
}
