/**
 * `SetName` (the same constructor in the newest crate and in `mtg-rust`):
 * quotes are stripped from the input (`raw`), and the key (`cleaned`) keeps
 * letters, digits and whitespace, trimmed and lower-cased. The newest crate
 * compares keys; the old one derives equality over both fields.
 */
module SetNames {
  import opened Wrappers
  import opened Text
  import opened Cleaning

  datatype SetName = SetName(raw: string, cleaned: string)

  datatype SetError = EmptySetName

  /** `raw.replace("'", "").replace("\"", "")`. */
  function StripQuotes(s: string): (r: string)
    ensures '\'' !in r && '"' !in r
    ensures forall c :: c in r <==> c in s && c != '\'' && c != '"'
  {
    RemoveChar(RemoveChar(s, '\''), '"')
  }

  /** `clean_set_name`: filter, trim, then lower-case. Internal whitespace runs are kept as they are. */
  function CleanSetName(s: string): string
  {
    ToLower(CleanString(s))
  }

  /** The key is trimmed, holds only lower-case letters, digits and whitespace, and keeps every letter and digit of the input, lower-cased. */
  lemma CleanSetNameShape(s: string)
    ensures var r := CleanSetName(s);
            && IsTrimmed(r)
            && (forall c :: c in r ==> AlnumOrWhitespace(c) && !IsUpper(c))
            && Keep(r, IsAlnum) == Keep(ToLower(s), IsAlnum)
  {
    var clean := CleanString(s);
    LowerKeep(clean, IsAlnum);
    LowerKeep(s, IsAlnum);
    LowerCleanString(s);
  }

  /** `SetName::new`. */
  function New(input: string): (r: Result<SetName, SetError>)
    ensures r.Ok? <==> StripQuotes(input) != [] && CleanSetName(StripQuotes(input)) != []
    ensures r.Ok? ==> r.value.raw == StripQuotes(input) && r.value.cleaned == CleanSetName(r.value.raw)
  {
    var raw := StripQuotes(input);
    var cleaned := CleanSetName(raw);
    if raw == [] || cleaned == [] then Err(EmptySetName) else Ok(SetName(raw, cleaned))
  }

  /** `PartialEq::eq` of the newest crate. */
  predicate Eq(a: SetName, b: SetName)
  {
    a.cleaned == b.cleaned
  }

  /** Input made only of quotes, punctuation and whitespace is rejected. */
  lemma RejectsPunctuationOnly(input: string)
    requires forall c :: c in input ==> !IsAlnum(c)
    ensures New(input).Err?
  {
    var raw := StripQuotes(input);
    var k := CleanSetName(raw);
    assert forall i :: 0 <= i < |raw| ==> !IsAlnum(ToLower(raw)[i]);
    KeepNone(ToLower(raw), IsAlnum);
    CleanSetNameShape(raw);
  }

  /** Building a set name from the `raw` of a built one reproduces it: quote removal is idempotent. */
  lemma RebuildFromRaw(input: string)
    requires New(input).Ok?
    ensures New(New(input).value.raw) == New(input)
  {
    var raw := StripQuotes(input);
    KeepAll(raw, d => d != '\'');
    assert RemoveChar(raw, '\'') == raw;
    KeepAll(raw, d => d != '"');
  }

  /** Equality ignores letter case: two inputs that differ only in case build equal set names. */
  lemma EqIgnoresCase(a: string, b: string)
    requires New(a).Ok? && New(b).Ok? && ToLower(a) == ToLower(b)
    ensures Eq(New(a).value, New(b).value)
  {
    LowerStripQuotes(a);
    LowerStripQuotes(b);
    CleanSetNameOfLower(StripQuotes(a));
    CleanSetNameOfLower(StripQuotes(b));
  }

  /** The derived equality of `mtg-rust` compares `raw` too, so it is strictly finer: distinct quote-free inputs never build equal values. */
  lemma DerivedEqCompareRaw(a: string, b: string)
    requires New(a).Ok? && New(b).Ok?
    requires '\'' !in a && '"' !in a && '\'' !in b && '"' !in b && a != b
    ensures New(a).value != New(b).value
  {
    KeepAll(a, d => d != '\'');
    assert RemoveChar(a, '\'') == a;
    KeepAll(a, d => d != '"');
    KeepAll(b, d => d != '\'');
    assert RemoveChar(b, '\'') == b;
    KeepAll(b, d => d != '"');
  }

  // ---------------------------------------------------------------- lower-casing commutes with the filters

  lemma {:induction false} LowerKeep(s: string, p: char -> bool)
    requires forall c :: p(LowerChar(c)) == p(c)
    ensures ToLower(Keep(s, p)) == Keep(ToLower(s), p)
  {
    if s != [] {
      LowerKeep(s[1..], p);
      assert ToLower(s)[1..] == ToLower(s[1..]);
      if p(s[0]) {
        ToLowerAppend([s[0]], Keep(s[1..], p));
      }
    }
  }

  lemma {:induction false} LowerTrimStart(s: string)
    ensures ToLower(TrimStart(s)) == TrimStart(ToLower(s))
  {
    if s != [] {
      assert ToLower(s)[1..] == ToLower(s[1..]);
      LowerTrimStart(s[1..]);
    }
  }

  lemma {:induction false} LowerTrimEnd(s: string)
    ensures ToLower(TrimEnd(s)) == TrimEnd(ToLower(s))
  {
    if s != [] {
      assert ToLower(s)[..|s| - 1] == ToLower(s[..|s| - 1]);
      LowerTrimEnd(s[..|s| - 1]);
    }
  }

  lemma LowerCleanString(s: string)
    ensures ToLower(CleanString(s)) == CleanString(ToLower(s))
  {
    var kept := Keep(s, AlnumOrWhitespace);
    LowerKeep(s, AlnumOrWhitespace);
    LowerTrimStart(kept);
    LowerTrimEnd(TrimStart(kept));
  }

  lemma {:induction false} LowerTwice(s: string)
    ensures ToLower(ToLower(s)) == ToLower(s)
  {
    ToLowerOfLower(ToLower(s));
  }

  lemma LowerStripQuotes(s: string)
    ensures ToLower(StripQuotes(s)) == StripQuotes(ToLower(s))
  {
    LowerKeep(s, d => d != '\'');
    LowerKeep(RemoveChar(s, '\''), d => d != '"');
  }

  lemma CleanSetNameOfLower(s: string)
    ensures CleanSetName(ToLower(s)) == CleanSetName(s)
  {
    LowerCleanString(s);
    LowerTwice(CleanString(s));
  }
}
