/**
 * The Scryfall conversion of `mtg-rust` (`scryfall/scryfall_mcm_cards.rs`,
 * `download_scryfall_cards`): the same three filters as the newest crate but
 * joined with `||`, a name reduced to its lower-case letters, the set taken
 * as the JSON text of `set_name` and passed through `clean_word`, prices read
 * only as JSON numbers, and the cards grouped by that name. The records are
 * the `RawCard`s of the newest conversion; writing the grouped map to a file
 * is not modelled, the map is returned instead.
 */
module LegacyScryfall {
  import opened Wrappers
  import opened Text
  import opened Lists
  import opened Cleaning
  import opened Scryfall
  import LegacyCards

  /** `ScryfallCard` of this file: plain strings for name and set. */
  datatype McmCard = McmCard(name: string, setText: string, imageUrl: string, prices: LegacyCards.Prices)

  /** The three filters as written here, joined with `||`. */
  predicate Accepted(r: RawCard)
  {
    IsNotToken(r) || IsNotBasicLand(r) || IsNotArtSeries(r)
  }

  /** A layout cannot be both "token" and "art_series", so the filter lets every record through, tokens and basic lands included. */
  lemma AcceptsEverything(r: RawCard)
    ensures Accepted(r)
  {
    if !IsNotToken(r) {
      assert r.layout == Str("token");
      assert Str("token") != Str("art_series");
    }
  }

  /** `Regex::new("[^a-zA-Z]").replace_all(name.to_lowercase(), "")`: the lower-cased name without anything but ASCII letters. */
  function LettersOnly(name: string): string
  {
    Keep(ToLower(name), IsAlpha)
  }

  /** The name key: `clean_word` of the letters-only name. */
  function McmName(name: string): string
  {
    CleanWord(LettersOnly(name))
  }

  /**
   * `clean_word` changes nothing after the letter filter: the key is exactly
   * the lower-cased letters of the name, in order, so spaces, digits and
   * punctuation are all gone ("Fire // Ice" and "Fireice" share a key).
   */
  lemma McmNameIsLetters(name: string)
    ensures McmName(name) == LettersOnly(name)
    ensures forall c :: c in McmName(name) ==> IsLower(c)
  {
    var l := LettersOnly(name);
    assert forall c :: c in l ==> IsLower(c) by {
      forall c | c in l ensures IsLower(c) {
        assert c in ToLower(name) && IsAlpha(c);
        var i :| 0 <= i < |name| && ToLower(name)[i] == c;
      }
    }
    assert forall i :: 0 <= i < |l| ==> !IsUpper(l[i]) by {
      forall i | 0 <= i < |l| ensures !IsUpper(l[i]) {
        assert l[i] in l;
      }
    }
    assert ToLower(l) == l by {
      ToLowerOfLower(l);
    }
    assert Keep(l, AlnumOrSpace) == l by {
      KeepAll(l, AlnumOrSpace);
    }
    assert IsTrimmed(l) by {
      if l != [] {
        assert l[0] in l && l[|l| - 1] in l;
      }
    }
    TrimOfTrimmed(l);
  }

  /**
   * `Value::to_string` as far as a set name needs it: a JSON string comes out
   * in double quotes, a missing field as `null`. The escaping of quotes,
   * backslashes and control characters inside a string is not modelled.
   */
  function JsonText(v: Json): string
  {
    match v
    case Null => "null"
    case Bool(b) => if b then "true" else "false"
    case Number(_, literal) => literal
    case Str(t) => "\"" + t + "\""
    case Compound(printed) => printed
  }

  /** The set key: `clean_word` of the JSON text. */
  function McmSet(v: Json): string
  {
    CleanWord(JsonText(v))
  }

  /** `clean_word` drops the quotes `to_string` puts around a set name: the key is the `clean_word` of the name itself. */
  lemma McmSetDropsQuotes(t: string)
    ensures McmSet(Str(t)) == CleanWord(t)
  {
    var q := "\"";
    assert JsonText(Str(t)) == q + t + q;
    ToLowerAppend(q + t, q);
    ToLowerAppend(q, t);
    KeepAppend(ToLower(q) + ToLower(t), ToLower(q), AlnumOrSpace);
    KeepAppend(ToLower(q), ToLower(t), AlnumOrSpace);
    assert Keep(ToLower(q), AlnumOrSpace) == [] by {
      assert ToLower(q) == q;
    }
    assert Keep(ToLower(q + t + q), AlnumOrSpace) == Keep(ToLower(t), AlnumOrSpace);
  }

  /** A record without a set name gets the set "null". */
  lemma MissingSetIsNull()
    ensures McmSet(Null) == "null"
  {
    var s := "null";
    assert ToLower(s) == s by {
      ToLowerOfLower(s);
    }
    assert Keep(s, AlnumOrSpace) == s by {
      KeepAll(s, AlnumOrSpace);
    }
    assert IsTrimmed(s) by {
      assert s[0] == 'n' && s[3] == 'l';
    }
    TrimOfTrimmed(s);
  }

  /** `as_f64`: only a JSON number is a price; text such as "0.19" is not. */
  function NumberOnly(v: Json): (r: Option<real>)
    ensures r.Some? <==> v.Number?
    ensures v.Number? ==> r.value == v.num
  {
    if v.Number? then Some(v.num) else None
  }

  /** One record as a card; the name must be text (`as_str().unwrap()`). */
  function ToMcmCard(r: RawCard): (c: McmCard)
    requires r.name.Str?
    ensures c.name == McmName(r.name.text) && c.setText == McmSet(r.setName)
    ensures c.prices.eur.Some? <==> r.eur.Number?
    ensures c.prices.eurFoil.Some? <==> r.eurFoil.Number?
  {
    McmCard(McmName(r.name.text), McmSet(r.setName), ImageOf(r.imageNormal),
            LegacyCards.Prices(NumberOnly(r.eur), NumberOnly(r.eurFoil)))
  }

  /** Prices given as text (the way the Scryfall files give them) are lost: only JSON numbers are read. */
  lemma TextPricesDropped(r: RawCard)
    requires r.name.Str? && r.eur.Str? && r.eurFoil.Str?
    ensures ToMcmCard(r).prices == LegacyCards.Prices(None, None)
  {
  }

  /** The grouping key: the card's name string. */
  function McmKey(c: McmCard): string
  {
    c.name
  }

  /** A bucket exists exactly for the letters-only names of the records. */
  lemma GroupedNames(records: seq<RawCard>, k: string)
    requires forall i :: 0 <= i < |records| ==> records[i].name.Str?
    ensures k in Grouped(MapAll(records, ToMcmCard), McmKey) <==> exists i :: 0 <= i < |records| && McmName(records[i].name.text) == k
  {
    var cards := MapAll(records, ToMcmCard);
    GroupedKeys(cards, McmKey);
  }

  /**
   * `download_scryfall_cards` after the file is read: every record (the
   * filter lets all of them through) pushed as a card, in order, then the
   * cards pushed onto the bucket of their name.
   */
  method DownloadScryfallCards(records: seq<RawCard>) returns (cards: seq<McmCard>, grouped: map<string, seq<McmCard>>)
    requires forall i :: 0 <= i < |records| ==> records[i].name.Str?
    ensures cards == MapAll(records, ToMcmCard)
    ensures grouped == Grouped(cards, McmKey)
    ensures forall k :: k in grouped ==> grouped[k] == KeyFilter(cards, McmKey, k)
  {
    cards := [];
    for i := 0 to |records|
      invariant cards == MapAll(records[..i], ToMcmCard)
    {
      MapAllSnoc(records, ToMcmCard, i);
      AcceptsEverything(records[i]);
      if Accepted(records[i]) {
        cards := cards + [ToMcmCard(records[i])];
      }
    }
    assert records[..|records|] == records;
    grouped := GroupBy(cards, McmKey);
  }
}
