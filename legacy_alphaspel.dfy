/**
 * The Alphaspel scraper of `mtg-rust` (`alphaspel/card_parser.rs`). It reads
 * the same product boxes as the newer scraper but finds the set and the name
 * by splitting the product name on `:`, tidies the name (used copies,
 * bracketed notes, version marks, split-card slashes, a few set prefixes),
 * reads the price as a whole number of kronor, counts pages from 0 and
 * groups the cards by the name's `almost_raw` text. The set pages are walked
 * in the order of a `HashMap`, which is given here as `order`.
 */
module LegacyAlphaspel {
  import opened Wrappers
  import opened Text
  import opened Lists
  import Alphaspel
  import LegacyCards
  import Cards
  import CardNames
  import SetNames

  const ShopUrl: string := "https://alphaspel.se"

  /** The set prefixes some names still carry, stripped in this order. */
  const Prefixes: seq<string> := ["Commander 2016 ", "Conflux ", "Eventide ", "Shadowmoor ", "Planechase card bundle "]

  /** Why a product box is not a card. */
  datatype CardError =
    | NoStockInformation
    | SoldOut
    | UnreadableStock
    | NoProductName
    | NotEnglish
    | UnexpectedSetFormat
    | IsToken
    | NoPrice
    | PriceOutOfRange
    | BadName(nameError: CardNames.NameError)
    | BadSet(setError: SetNames.SetError)

  // ---------------------------------------------------------------- name and set

  /**
   * The product name split on `:`: five pieces give the name from the fifth
   * and the set from the third and fourth joined by `:`, three pieces give
   * the name from the third and the set from the second; the set is trimmed,
   * the name is not yet.
   */
  function NameAndSet(productName: string): (r: Result<(string, string), CardError>)
    ensures r.Err? <==> |Split(Trim(productName), ':')| !in {3, 5}
    ensures r.Ok? ==> ':' !in r.value.0
  {
    var parts := Split(Trim(productName), ':');
    if |parts| == 5 then Ok((parts[4], Trim(parts[2] + ":" + parts[3])))
    else if |parts| == 3 then Ok((parts[2], Trim(parts[1])))
    else Err(UnexpectedSetFormat)
  }

  /** Three colon-free pieces joined by colons split back into those pieces. */
  lemma {:induction false} SplitThree(a: string, b: string, c: string)
    requires ':' !in a && ':' !in b && ':' !in c
    ensures Split(a + ":" + b + ":" + c, ':') == [a, b, c]
  {
    SplitWithoutSeparator(a, ':');
    SplitBeforePiece(a, ':', b);
    SplitBeforePiece(a + ":" + b, ':', c);
  }

  /** "<game>:<set>:<name>" gives the name and the trimmed set. */
  lemma ThreePartName(game: string, setText: string, name: string)
    requires ':' !in game && ':' !in setText && ':' !in name
    requires Trim(game + ":" + setText + ":" + name) == game + ":" + setText + ":" + name
    ensures NameAndSet(game + ":" + setText + ":" + name) == Ok((name, Trim(setText)))
  {
    SplitThree(game, setText, name);
  }

  /** Five colon-free pieces joined by colons split back into those pieces. */
  lemma SplitFive(game: string, a: string, b: string, c: string, name: string)
    requires ':' !in game && ':' !in a && ':' !in b && ':' !in c && ':' !in name
    ensures Split(game + ":" + a + ":" + b + ":" + c + ":" + name, ':') == [game, a, b, c, name]
  {
    SplitWithoutSeparator(game, ':');
    SplitBeforePiece(game, ':', a);
    SplitBeforePiece(game + ":" + a, ':', b);
    SplitBeforePiece(game + ":" + a + ":" + b, ':', c);
    SplitBeforePiece(game + ":" + a + ":" + b + ":" + c, ':', name);
  }

  /** "<game>:<a>:<b>:<c>:<name>": a set whose own name holds a colon is read from the third and fourth pieces. */
  lemma FivePartName(game: string, a: string, b: string, c: string, name: string)
    requires ':' !in game && ':' !in a && ':' !in b && ':' !in c && ':' !in name
    requires Trim(game + ":" + a + ":" + b + ":" + c + ":" + name) == game + ":" + a + ":" + b + ":" + c + ":" + name
    ensures NameAndSet(game + ":" + a + ":" + b + ":" + c + ":" + name) == Ok((name, Trim(b + ":" + c)))
  {
    SplitFive(game, a, b, c, name);
  }

  // ---------------------------------------------------------------- name cleanup

  /** `\w`: a letter, a digit or `_`. */
  predicate IsWordChar(c: char)
  {
    IsAlnum(c) || c == '_'
  }

  /** The length of the leading run of word characters. */
  function WordRun(s: string): (r: nat)
    ensures r <= |s| && (forall i :: 0 <= i < r ==> IsWordChar(s[i]))
    ensures r < |s| ==> !IsWordChar(s[r])
  {
    if s == [] || !IsWordChar(s[0]) then 0 else 1 + WordRun(s[1..])
  }

  /** After an opening bracket: the index of the closing bracket when no other bracket comes first. */
  function GroupEnd(s: string): (r: Option<nat>)
    ensures r.Some? ==> r.value < |s| && s[r.value] == ')'
  {
    if s == [] || s[0] == '(' then None
    else if s[0] == ')' then Some(0)
    else match GroupEnd(s[1..])
      case Some(j) => Some(j + 1)
      case None => None
  }

  /** `\([^()]*\)` replaced by nothing: every bracketed group without brackets inside, left to right. */
  function DropGroups(s: string): (r: string)
    ensures |r| <= |s|
    decreases |s|
  {
    if s == [] then []
    else if s[0] == '(' && GroupEnd(s[1..]).Some? then DropGroups(s[GroupEnd(s[1..]).value + 2..])
    else [s[0]] + DropGroups(s[1..])
  }

  /** Text without an opening bracket is left as it is. */
  lemma {:induction false} DropGroupsNone(s: string)
    requires '(' !in s
    ensures DropGroups(s) == s
    decreases |s|
  {
    if s != [] {
      DropGroupsNone(s[1..]);
      assert [s[0]] + s[1..] == s;
    }
  }

  /** A closing group without inner brackets is found at its end. */
  lemma {:induction false} GroupEndOf(g: string, rest: string)
    requires '(' !in g && ')' !in g
    ensures GroupEnd(g + ")" + rest) == Some(|g|)
    decreases |g|
  {
    if g != [] {
      GroupEndOf(g[1..], rest);
      assert (g + ")" + rest)[1..] == g[1..] + ")" + rest;
    }
  }

  /** A trailing group such as "(Foil)" after bracket-free text is removed. */
  lemma {:induction false} TrailingGroupDropped(a: string, g: string)
    requires '(' !in a && '(' !in g && ')' !in g
    ensures DropGroups(a + "(" + g + ")") == a
    decreases |a|
  {
    var s := a + "(" + g + ")";
    if a == [] {
      assert s == "(" + (g + ")" + []);
      assert s[1..] == g + ")" + [];
      GroupEndOf(g, []);
      assert s[|g| + 2..] == [];
    } else {
      assert s[1..] == a[1..] + "(" + g + ")";
      TrailingGroupDropped(a[1..], g);
      assert [a[0]] + a[1..] == a;
    }
  }

  /**
   * `\b(\w+)\s/\s(\w+)\b` replaced by "$1 // $2": two words around a single
   * slash with one whitespace character on each side are rejoined by a double
   * slash; `afterWord` says whether the previous character was a word
   * character (no match can start then).
   */
  function Slashes(s: string, afterWord: bool): string
    decreases |s|
  {
    if s == [] then []
    else if afterWord || !IsWordChar(s[0]) then [s[0]] + Slashes(s[1..], IsWordChar(s[0]))
    else
      var e := WordRun(s);
      match SlashMatch(s, e)
      case Some(f) => s[..e] + " // " + s[e + 3..f] + Slashes(s[f..], true)
      case None => s[..e] + Slashes(s[e..], true)
  }

  /**
   * After the first word (`e` characters long): the end of the second word
   * when whitespace, a slash, whitespace and a word character follow.
   */
  function SlashMatch(s: string, e: nat): (r: Option<nat>)
    requires e <= |s|
    ensures r.Some? <==> e + 3 < |s| && IsWhitespace(s[e]) && s[e + 1] == '/' && IsWhitespace(s[e + 2]) && IsWordChar(s[e + 3])
    ensures r.Some? ==> e + 3 < r.value <= |s| && r.value == e + 3 + WordRun(s[e + 3..])
  {
    if e + 3 < |s| && IsWhitespace(s[e]) && s[e + 1] == '/' && IsWhitespace(s[e + 2]) && IsWordChar(s[e + 3]) then
      Some(e + 3 + WordRun(s[e + 3..]))
    else None
  }

  /** Text without a slash is left as it is. */
  lemma {:induction false} SlashesNone(s: string, afterWord: bool)
    requires '/' !in s
    ensures Slashes(s, afterWord) == s
    decreases |s|
  {
    if s != [] {
      if afterWord || !IsWordChar(s[0]) {
        SlashesNone(s[1..], IsWordChar(s[0]));
        assert [s[0]] + s[1..] == s;
      } else {
        var e := WordRun(s);
        SlashesNone(s[e..], true);
        assert s[..e] + s[e..] == s;
      }
    }
  }

  /** A run of word characters followed by a non-word character or nothing is a whole run. */
  lemma {:induction false} WordRunOf(w: string, rest: string)
    requires forall i :: 0 <= i < |w| ==> IsWordChar(w[i])
    requires rest == [] || !IsWordChar(rest[0])
    ensures WordRun(w + rest) == |w|
    decreases |w|
  {
    if w == [] {
      assert w + rest == rest;
    } else {
      assert (w + rest)[1..] == w[1..] + rest;
      WordRunOf(w[1..], rest);
    }
  }

  /** Where two words meet around a single slash, the slash is doubled and the scan goes on after the second word. */
  lemma SlashesAtMatch(s: string, e: nat, f: nat)
    requires s != [] && IsWordChar(s[0]) && e == WordRun(s)
    requires SlashMatch(s, e) == Some(f)
    ensures Slashes(s, false) == s[..e] + " // " + s[e + 3..f] + Slashes(s[f..], true)
  {
  }

  /** The same when the second word ends the text. */
  lemma SlashesAtEnd(s: string, e: nat)
    requires s != [] && IsWordChar(s[0]) && e == WordRun(s)
    requires e + 3 < |s| && IsWhitespace(s[e]) && s[e + 1] == '/' && IsWhitespace(s[e + 2]) && IsWordChar(s[e + 3])
    requires |s| == e + 3 + WordRun(s[e + 3..])
    ensures Slashes(s, false) == s[..e] + " // " + s[e + 3..]
  {
    assert SlashMatch(s, e) == Some(|s|);
    SlashesAtMatch(s, e, |s|);
    assert s[|s|..] == [] && s[e + 3..|s|] == s[e + 3..];
  }

  /** "A / B" with A and B single words: the pieces the slash rule looks at. */
  lemma SplitCardPieces(a: string, b: string)
    requires a != [] && b != []
    requires forall i :: 0 <= i < |a| ==> IsWordChar(a[i])
    requires forall i :: 0 <= i < |b| ==> IsWordChar(b[i])
    ensures var s, e := a + " / " + b, |a|;
            && |s| == e + 3 + |b| && s[..e] == a && s[e + 3..] == b && s[e + 3..e + 3 + |b|] == b && s[e + 3 + |b|..] == []
            && IsWordChar(s[0]) && e == WordRun(s)
            && IsWhitespace(s[e]) && s[e + 1] == '/' && IsWhitespace(s[e + 2]) && IsWordChar(s[e + 3])
            && WordRun(s[e + 3..]) == |b|
  {
    var s := a + " / " + b;
    var e, f := |a|, |a| + 3 + |b|;
    assert s[..e] == a && s[e + 3..] == b && s[e + 3..f] == b && s[f..] == [] by {
      assert s == a + (" / " + b);
    }
    assert s[e] == ' ' && s[e + 1] == '/' && s[e + 2] == ' ';
    assert IsWordChar(s[0]) && IsWordChar(s[e + 3]) by {
      assert s[0] == a[0] && s[e + 3] == b[0];
    }
    assert WordRun(s) == e by {
      assert s == a + (" / " + b);
      WordRunOf(a, " / " + b);
    }
    assert WordRun(s[e + 3..]) == |b| by {
      assert b + [] == b;
      WordRunOf(b, []);
    }
  }

  /** A split card written "A / B" becomes "A // B". */
  lemma SplitCardName(a: string, b: string)
    requires a != [] && b != []
    requires forall i :: 0 <= i < |a| ==> IsWordChar(a[i])
    requires forall i :: 0 <= i < |b| ==> IsWordChar(b[i])
    ensures Slashes(a + " / " + b, false) == a + " // " + b
  {
    SplitCardPieces(a, b);
    SlashesAtEnd(a + " / " + b, |a|);
  }

  /** The version marks removed from names. */
  function RemoveVersions(s: string): string
  {
    Replace(Replace(Replace(Replace(Replace(s, "v.2", ""), "V.2", ""), "v.1", ""), "v.3", ""), "v.4", "")
  }

  /** A mark with a full stop in it is replaced nowhere in text without a full stop. */
  lemma NoDotNoMark(s: string, mark: string)
    requires |mark| == 3 && mark[1] == '.' && '.' !in s
    ensures Replace(s, mark, "") == s
  {
    ContainsHasChars(s, mark);
    assert !Contains(s, mark);
    ReplaceAbsent(s, mark, "");
  }

  /** Text without a full stop holds no version mark. */
  lemma RemoveVersionsNone(s: string)
    requires '.' !in s
    ensures RemoveVersions(s) == s
  {
    NoDotNoMark(s, "v.2");
    NoDotNoMark(s, "V.2");
    NoDotNoMark(s, "v.1");
    NoDotNoMark(s, "v.3");
    NoDotNoMark(s, "v.4");
  }

  /** The name tidied: "(Begagnad)" removed and trimmed, bracketed groups removed, version marks removed and trimmed, slashes doubled. */
  function CleanName(rawName: string): string
  {
    Slashes(Trim(RemoveVersions(DropGroups(Trim(Replace(rawName, "(Begagnad)", ""))))), false)
  }

  /** A name without brackets, slashes or full stops only loses its surrounding whitespace. */
  lemma PlainNameTrimmed(rawName: string)
    requires '(' !in rawName && '/' !in rawName && '.' !in rawName
    ensures CleanName(rawName) == Trim(rawName)
  {
    ReplaceMissing(rawName, "(Begagnad)", "");
    var t := Trim(rawName);
    assert '(' !in t && '.' !in t && '/' !in t;
    assert DropGroups(t) == t by {
      DropGroupsNone(t);
    }
    assert RemoveVersions(t) == t by {
      RemoveVersionsNone(t);
    }
    assert Trim(t) == t by {
      TrimIdempotent(rawName);
    }
    SlashesNone(t, false);
  }

  /** `strip_prefix(p).unwrap_or(name)`. */
  function StripPrefix(name: string, p: string): (r: string)
    ensures StartsWith(name, p) ==> r == name[|p|..]
    ensures !StartsWith(name, p) ==> r == name
  {
    if StartsWith(name, p) then name[|p|..] else name
  }

  /** Each prefix of the list stripped once, in list order. */
  function StripPrefixes(name: string, ps: seq<string>): string
    decreases |ps|
  {
    if ps == [] then name else StripPrefix(StripPrefixes(name, ps[..|ps| - 1]), ps[|ps| - 1])
  }

  /** The prefix loop. */
  method StripListedPrefixes(name: string) returns (r: string)
    ensures r == StripPrefixes(name, Prefixes)
  {
    r := name;
    for i := 0 to |Prefixes|
      invariant r == StripPrefixes(name, Prefixes[..i])
    {
      assert Prefixes[..i + 1][..i] == Prefixes[..i];
      r := StripPrefix(r, Prefixes[i]);
    }
    assert Prefixes[..|Prefixes|] == Prefixes;
  }

  /** No listed prefix begins another, so at most one of them matches a name. */
  lemma PrefixesIncomparable(j: nat, k: nat, rest: string)
    requires j < |Prefixes| && k < |Prefixes| && j != k
    ensures !StartsWith(Prefixes[k] + rest, Prefixes[j])
  {
    var s := Prefixes[k] + rest;
    assert s[0] == Prefixes[k][0] && s[2] == Prefixes[k][2];
    assert Prefixes[j][0] != Prefixes[k][0] || Prefixes[j][2] != Prefixes[k][2];
    StartsWithChars(s, Prefixes[j]);
  }

  /** A text that begins with a pattern agrees with it on its first and third characters. */
  lemma StartsWithChars(s: string, p: string)
    requires |p| > 2
    ensures StartsWith(s, p) ==> s[0] == p[0] && s[2] == p[2]
  {
    if StartsWith(s, p) {
      assert s[..|p|][0] == s[0] && s[..|p|][2] == s[2];
    }
  }

  /** Prefixes none of which begins the name leave it as it is. */
  lemma {:induction false} StripNone(name: string, ps: seq<string>)
    requires forall i :: 0 <= i < |ps| ==> !StartsWith(name, ps[i])
    ensures StripPrefixes(name, ps) == name
    decreases |ps|
  {
    if ps != [] {
      StripNone(name, ps[..|ps| - 1]);
    }
  }

  /**
   * A listed prefix is stripped once: the rest is kept even when it begins
   * with that prefix again or with an earlier one, as long as no later
   * prefix begins it.
   */
  lemma ListedPrefixStripped(k: nat, rest: string)
    requires k < |Prefixes|
    requires forall j :: k < j < |Prefixes| ==> !StartsWith(rest, Prefixes[j])
    ensures StripPrefixes(Prefixes[k] + rest, Prefixes) == rest
  {
    var name := Prefixes[k] + rest;
    forall j | 0 <= j < k
      ensures !StartsWith(name, Prefixes[..k][j])
    {
      PrefixesIncomparable(j, k, rest);
    }
    StripNone(name, Prefixes[..k]);
    assert StripPrefixes(name, Prefixes[..k + 1]) == rest by {
      assert Prefixes[..k + 1][..k] == Prefixes[..k];
      assert name[|Prefixes[k]|..] == rest;
    }
    StripFrom(name, k + 1, rest);
  }

  /** From some point of the list on, prefixes that do not begin the text change nothing. */
  lemma {:induction false} StripFrom(name: string, n: nat, rest: string)
    requires n <= |Prefixes| && StripPrefixes(name, Prefixes[..n]) == rest
    requires forall j :: n <= j < |Prefixes| ==> !StartsWith(rest, Prefixes[j])
    ensures StripPrefixes(name, Prefixes) == rest
    decreases |Prefixes| - n
  {
    if n < |Prefixes| {
      assert Prefixes[..n + 1][..n] == Prefixes[..n];
      StripFrom(name, n + 1, rest);
    } else {
      assert Prefixes[..n] == Prefixes;
    }
  }

  // ---------------------------------------------------------------- one product

  /** The price: the first run of digits read as an `i32`. */
  function ReadPrice(text: Option<string>): (r: Result<int, CardError>)
    ensures text.None? ==> r == Err(NoPrice)
    ensures text.Some? ==> (r == Err(NoPrice) <==> forall i :: 0 <= i < |text.value| ==> !IsDigit(text.value[i]))
    ensures text.Some? && FirstDigitRun(text.value).None? ==> r == Err(NoPrice)
    ensures text.Some? && FirstDigitRun(text.value).Some? ==>
              var run := FirstDigitRun(text.value).value;
              (DigitsValue(run) <= I32_MAX ==> r == Ok(DigitsValue(run)))
              && (DigitsValue(run) > I32_MAX ==> r == Err(PriceOutOfRange))
  {
    match text
    case None => Err(NoPrice)
    case Some(t) =>
      FirstDigitRunNoneIffNoDigit(t);
      match FirstDigitRun(t)
      case None => Err(NoPrice)
      case Some(run) =>
        assert IsDigit(run[0]);
        match ParseI32(run)
        case Some(n) => Ok(n)
        case None => Err(PriceOutOfRange)
  }

  /** The price read is the `i32` value of the digits from the first digit of the text up to the next non-digit. */
  lemma ReadPriceAtFirstDigit(t: string, k: nat)
    requires k < |t| && IsDigit(t[k])
    requires forall j :: 0 <= j < k ==> !IsDigit(t[j])
    ensures var run := DigitPrefix(t[k..]);
            run != [] && (k + |run| < |t| ==> !IsDigit(t[k + |run|]))
            && (DigitsValue(run) <= I32_MAX ==> ReadPrice(Some(t)) == Ok(DigitsValue(run)))
            && (DigitsValue(run) > I32_MAX ==> ReadPrice(Some(t)) == Err(PriceOutOfRange))
  {
    FirstDigitRunAtFirstDigit(t, k);
  }

  /**
   * `get_card_information`: the box's checks in the order the code makes
   * them, the first failing one giving the error.
   */
  function GetCardInformation(p: Alphaspel.Product): Result<LegacyCards.OldVendorCard, CardError>
  {
    match p.stock
    case None => Err(NoStockInformation)
    case Some(stockText) =>
      match Alphaspel.ReadStock(stockText)
      case Err(e) => Err(if e == Alphaspel.SoldOut then SoldOut else UnreadableStock)
      case Ok(stock) =>
        match p.productName
        case None => Err(NoProductName)
        case Some(rawProduct) => NamedCard(p, stock, Alphaspel.ProductNameText(rawProduct))
  }

  /** The checks on the product name: language, the split, token, then the price. */
  function NamedCard(p: Alphaspel.Product, stock: int, name: string): Result<LegacyCards.OldVendorCard, CardError>
  {
    if Alphaspel.IsNotEnglish(name) then Err(NotEnglish)
    else
      match NameAndSet(name)
      case Err(e) => Err(e)
      case Ok(nameAndSet) =>
        var (rawName, setText) := nameAndSet;
        if Contains(rawName, "Token") then Err(IsToken)
        else
          match ReadPrice(p.priceText)
          case Err(e) => Err(e)
          case Ok(price) => BuiltCard(p, stock, name, rawName, setText, price)
  }

  /** The card's name and set as the card records them, and the card. */
  function BuiltCard(p: Alphaspel.Product, stock: int, name: string, rawName: string, setText: string, price: int)
    : Result<LegacyCards.OldVendorCard, CardError>
  {
    match LegacyCards.New(StripPrefixes(CleanName(rawName), Prefixes))
    case Err(e) => Err(BadName(e))
    case Ok(cardName) =>
      match SetNames.New(setText)
      case Err(e) => Err(BadSet(e))
      case Ok(setName) =>
        Ok(LegacyCards.OldVendorCard(
          cardName, Cards.Alphaspel, Alphaspel.IsFoilName(rawName), Alphaspel.ImageUrl(ShopUrl, p.imageSources),
          Contains(name, "(alternative art)"), Alphaspel.IsPromo(name), false, setName,
          price, 0, stock, 3))
  }

  /** The name checks are reached exactly when the box has a readable stock and a product name. */
  lemma GetCardReachesName(p: Alphaspel.Product)
    requires p.stock.Some? && Alphaspel.ReadStock(p.stock.value).Ok? && p.productName.Some?
    ensures GetCardInformation(p)
            == NamedCard(p, Alphaspel.ReadStock(p.stock.value).value, Alphaspel.ProductNameText(p.productName.value))
  {
  }

  /** A sold-out box is refused before anything else is read. */
  lemma SoldOutNeverCard(p: Alphaspel.Product)
    requires p.stock.Some? && Trim(p.stock.value) == Alphaspel.SoldOutText
    ensures GetCardInformation(p) == Err(SoldOut)
  {
  }

  /** A foreign-language product, or one whose name piece mentions "Token", is never a card. */
  lemma ForeignOrTokenNeverCard(p: Alphaspel.Product)
    requires p.productName.Some?
    requires var name := Alphaspel.ProductNameText(p.productName.value);
             Alphaspel.IsNotEnglish(name) || (NameAndSet(name).Ok? && Contains(NameAndSet(name).value.0, "Token"))
    ensures GetCardInformation(p).Err?
  {
    if p.stock.Some? && Alphaspel.ReadStock(p.stock.value).Ok? {
      GetCardReachesName(p);
    }
  }

  /** A product name that does not split into three or five pieces is never a card. */
  lemma UnexpectedFormatNeverCard(p: Alphaspel.Product)
    requires p.productName.Some? && |Split(Trim(Alphaspel.ProductNameText(p.productName.value)), ':')| !in {3, 5}
    ensures GetCardInformation(p).Err?
  {
    if GetCardInformation(p).Ok? {
      AcceptedBoxIsNamed(p);
      NamedCardPieces(p, Alphaspel.ReadStock(p.stock.value).value, Alphaspel.ProductNameText(p.productName.value));
    }
  }

  /** The card built once the pieces are known: each field is the corresponding reading of the box. */
  lemma BuiltCardFields(p: Alphaspel.Product, stock: int, name: string, rawName: string, setText: string, price: int)
    requires BuiltCard(p, stock, name, rawName, setText, price).Ok?
    ensures var c := BuiltCard(p, stock, name, rawName, setText, price).value;
            && Ok(c.name) == LegacyCards.New(StripPrefixes(CleanName(rawName), Prefixes))
            && Ok(c.setName) == SetNames.New(setText)
            && c.vendor == Cards.Alphaspel
            && c.foil == Alphaspel.IsFoilName(rawName)
            && c.extendedArt == Contains(name, "(alternative art)")
            && c.prerelease == Alphaspel.IsPromo(name)
            && !c.showcase && c.price == price && c.tradeInPrice == 0
            && c.currentStock == stock && c.maxStock == 3
            && c.imageUrl == Alphaspel.ImageUrl(ShopUrl, p.imageSources)
  {
    var cardName := LegacyCards.New(StripPrefixes(CleanName(rawName), Prefixes)).value;
    var setName := SetNames.New(setText).value;
    assert BuiltCard(p, stock, name, rawName, setText, price) == Ok(LegacyCards.OldVendorCard(
      cardName, Cards.Alphaspel, Alphaspel.IsFoilName(rawName), Alphaspel.ImageUrl(ShopUrl, p.imageSources),
      Contains(name, "(alternative art)"), Alphaspel.IsPromo(name), false, setName,
      price, 0, stock, 3));
  }

  /** The card of an accepted box: the foil mark is read from the untidied name piece, the name from the tidied one. */
  lemma GetCardFields(p: Alphaspel.Product)
    requires GetCardInformation(p).Ok?
    ensures p.stock.Some? && p.productName.Some?
    ensures var c := GetCardInformation(p).value;
            var name := Alphaspel.ProductNameText(p.productName.value);
            && !Alphaspel.IsNotEnglish(name) && NameAndSet(name).Ok?
            && var (rawName, setText) := NameAndSet(name).value;
            && !Contains(rawName, "Token")
            && Ok(c.name) == LegacyCards.New(StripPrefixes(CleanName(rawName), Prefixes))
            && Ok(c.setName) == SetNames.New(setText)
            && c.foil == Alphaspel.IsFoilName(rawName)
            && Ok(c.price) == ReadPrice(p.priceText)
            && Alphaspel.ReadStock(p.stock.value) == Ok(c.currentStock)
            && c.maxStock == 3 && c.tradeInPrice == 0
  {
    AcceptedBoxIsNamed(p);
    var stock := Alphaspel.ReadStock(p.stock.value).value;
    var name := Alphaspel.ProductNameText(p.productName.value);
    NamedCardPieces(p, stock, name);
    var (rawName, setText) := NameAndSet(name).value;
    BuiltCardFields(p, stock, name, rawName, setText, ReadPrice(p.priceText).value);
  }

  /** An accepted box has a readable stock and a product name, and its card is the one the name checks give. */
  lemma AcceptedBoxIsNamed(p: Alphaspel.Product)
    requires GetCardInformation(p).Ok?
    ensures p.stock.Some? && Alphaspel.ReadStock(p.stock.value).Ok? && p.productName.Some?
    ensures GetCardInformation(p)
            == NamedCard(p, Alphaspel.ReadStock(p.stock.value).value, Alphaspel.ProductNameText(p.productName.value))
  {
  }

  /** A name that passes the checks is English, splits, is no token, comes with a readable price, and gives the built card. */
  lemma NamedCardPieces(p: Alphaspel.Product, stock: int, name: string)
    requires NamedCard(p, stock, name).Ok?
    ensures !Alphaspel.IsNotEnglish(name) && NameAndSet(name).Ok?
    ensures !Contains(NameAndSet(name).value.0, "Token") && ReadPrice(p.priceText).Ok?
    ensures NamedCard(p, stock, name)
            == BuiltCard(p, stock, name, NameAndSet(name).value.0, NameAndSet(name).value.1, ReadPrice(p.priceText).value)
  {
  }

  // ---------------------------------------------------------------- pages and grouping

  /** The count of a set: its largest page number, starting from 0. */
  function SetPageCount(entries: seq<string>): (r: nat)
    ensures r <= U32_MAX
  {
    Alphaspel.PageCount(entries, 0)
  }

  /** A set whose first page lists no page number fetches no pages at all. */
  lemma NoNumberedPageFetchesNothing(entries: seq<string>)
    requires forall i :: 0 <= i < |entries| ==> Alphaspel.PageNumber(entries[i]).None?
    ensures Alphaspel.Pages(SetPageCount(entries)) == []
  {
    Alphaspel.PageCountIsMax(entries, 0);
  }

  /** The cards of one box: its card, or none when it is refused. */
  function ProductCards(p: Alphaspel.Product): (r: seq<LegacyCards.OldVendorCard>)
    ensures |r| <= 1
    ensures GetCardInformation(p).Err? ==> r == []
  {
    match GetCardInformation(p)
    case Ok(c) => [c]
    case Err(_) => []
  }

  /** The cards of one page, in page order. */
  function PageCards(products: seq<Alphaspel.Product>): seq<LegacyCards.OldVendorCard>
  {
    ConcatMap(products, ProductCards)
  }

  /** The cards of a set: those of its pages 1 to the count, in page order; a page that cannot be read holds no products. */
  function SetCards(base: string, href: string, count: nat, fetch: string -> seq<Alphaspel.Product>): seq<LegacyCards.OldVendorCard>
    requires count <= U32_MAX
  {
    ConcatMap(Alphaspel.Pages(count), (page: nat) => PageCards(fetch(Alphaspel.PageLink(base, href, page))))
  }

  /** The box loop of one page. */
  method ReadProducts(products: seq<Alphaspel.Product>) returns (cards: seq<LegacyCards.OldVendorCard>)
    ensures cards == PageCards(products)
  {
    cards := [];
    for i := 0 to |products|
      invariant cards == ConcatMap(products[..i], ProductCards)
    {
      ConcatMapPrefix(products, ProductCards, i);
      match GetCardInformation(products[i])
      case Ok(card) =>
        cards := cards + [card];
      case Err(_) =>
    }
    assert products[..|products|] == products;
  }

  /** The page loop of one set. */
  method ScrapeSet(base: string, href: string, count: nat, fetch: string -> seq<Alphaspel.Product>)
    returns (cards: seq<LegacyCards.OldVendorCard>)
    requires count <= U32_MAX
    ensures cards == SetCards(base, href, count, fetch)
  {
    var pages := Alphaspel.Pages(count);
    var f := (page: nat) => PageCards(fetch(Alphaspel.PageLink(base, href, page)));
    cards := [];
    for i := 0 to |pages|
      invariant cards == ConcatMap(pages[..i], f)
    {
      ConcatMapPrefix(pages, f, i);
      var pageCards := ReadProducts(fetch(Alphaspel.PageLink(base, href, pages[i])));
      cards := cards + pageCards;
    }
    assert pages[..|pages|] == pages;
  }

  /** The count of each set, from the pagination of its first page. */
  function CountOf(base: string, pagination: string -> seq<string>, href: string): (r: nat)
    ensures r <= U32_MAX
  {
    SetPageCount(pagination(Alphaspel.PageLink(base, href, 1)))
  }

  /** The cards of every set, the sets taken in `order`. */
  function AllCards(base: string, order: seq<string>, pagination: string -> seq<string>,
                    fetch: string -> seq<Alphaspel.Product>): seq<LegacyCards.OldVendorCard>
  {
    ConcatMap(order, (href: string) => SetCards(base, href, CountOf(base, pagination, href), fetch))
  }

  /** The grouping key: the name's `almost_raw` text. */
  function AlmostRawKey(v: LegacyCards.OldVendorCard): string
  {
    v.name.almostRaw
  }

  /**
   * `download_alpha_cards` after the set pages are listed: the count of every
   * set into a map, the cards of every set in the map's order, then each card
   * pushed onto the bucket of its `almost_raw` name.
   */
  method DownloadAlphaCards(base: string, hrefs: seq<string>, order: seq<string>,
                            pagination: string -> seq<string>, fetch: string -> seq<Alphaspel.Product>)
    returns (grouped: map<string, seq<LegacyCards.OldVendorCard>>)
    requires Distinct(order) && forall h :: h in order <==> h in hrefs
    ensures grouped == Grouped(AllCards(base, order, pagination, fetch), AlmostRawKey)
    ensures forall k :: k in grouped ==> grouped[k] == KeyFilter(AllCards(base, order, pagination, fetch), AlmostRawKey, k)
  {
    var counts: map<string, nat> := map[];
    for i := 0 to |hrefs|
      invariant forall h :: h in counts <==> h in hrefs[..i]
      invariant forall h :: h in counts ==> counts[h] == CountOf(base, pagination, h)
    {
      var count := Alphaspel.MaxPage(pagination(Alphaspel.PageLink(base, hrefs[i], 1)), 0);
      counts := counts[hrefs[i] := count];
    }
    assert hrefs[..|hrefs|] == hrefs;
    var f := (href: string) => SetCards(base, href, CountOf(base, pagination, href), fetch);
    var cards := [];
    for i := 0 to |order|
      invariant cards == ConcatMap(order[..i], f)
    {
      ConcatMapPrefix(order, f, i);
      var setCards := ScrapeSet(base, order[i], counts[order[i]], fetch);
      cards := cards + setCards;
    }
    assert order[..|order|] == order;
    grouped := GroupBy(cards, AlmostRawKey);
  }
}
