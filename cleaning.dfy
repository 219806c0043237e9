/**
 * The two character-filtering helpers every name and set goes through:
 * `clean_string` (keep letters, digits and whitespace, then trim; case kept)
 * and `clean_word` (lower-case, keep letters, digits and plain spaces, then
 * trim). `CardName::clean_name` in both crates is the same chain as
 * `clean_word`, so it is this one function.
 */
module Cleaning {
  import opened Text

  predicate AlnumOrWhitespace(c: char) { IsAlnum(c) || IsWhitespace(c) }
  predicate AlnumOrSpace(c: char) { IsAlnum(c) || c == ' ' }
  predicate NotUpper(c: char) { !IsUpper(c) }

  /** `clean_string`. */
  function CleanString(s: string): (r: string)
    ensures IsTrimmed(r)
    ensures forall c :: c in r ==> AlnumOrWhitespace(c)
    ensures Keep(r, IsAlnum) == Keep(s, IsAlnum)
  {
    var kept := Keep(s, AlnumOrWhitespace);
    KeepNarrower(s, AlnumOrWhitespace, IsAlnum);
    KeepThroughTrim(kept, IsAlnum);
    Trim(kept)
  }

  /** `clean_word` (and `clean_name`). The `"Æ"` to `"ae"` replacement runs after lower-casing, so it never matches and is not modelled. */
  function CleanWord(s: string): (r: string)
    ensures IsTrimmed(r)
    ensures forall c :: c in r ==> AlnumOrSpace(c) && !IsUpper(c)
    ensures Keep(r, IsAlnum) == Keep(ToLower(s), IsAlnum)
  {
    var lower := ToLower(s);
    var kept := Keep(lower, AlnumOrSpace);
    KeepNarrower(lower, AlnumOrSpace, IsAlnum);
    KeepThroughTrim(kept, IsAlnum);
    Trim(kept)
  }

  lemma {:induction false} KeepNarrower(s: string, p: char -> bool, q: char -> bool)
    requires forall c :: q(c) ==> p(c)
    ensures Keep(Keep(s, p), q) == Keep(s, q)
  {
    if s != [] {
      KeepNarrower(s[1..], p, q);
    }
  }

  lemma {:induction false} KeepNone(s: string, q: char -> bool)
    requires forall c :: c in s ==> !q(c)
    ensures Keep(s, q) == []
  {
    if s != [] {
      KeepNone(s[1..], q);
    }
  }

  /** Trimming only drops whitespace, so a filter that never keeps whitespace cannot tell the difference. */
  lemma KeepThroughTrim(t: string, q: char -> bool)
    requires forall c :: IsWhitespace(c) ==> !q(c)
    ensures Keep(Trim(t), q) == Keep(t, q)
  {
    KeepThroughTrimStart(t, q);
    KeepThroughTrimEnd(TrimStart(t), q);
  }

  lemma {:induction false} KeepThroughTrimStart(t: string, q: char -> bool)
    requires forall c :: IsWhitespace(c) ==> !q(c)
    ensures Keep(TrimStart(t), q) == Keep(t, q)
  {
    if |t| > 0 && IsWhitespace(t[0]) {
      KeepThroughTrimStart(t[1..], q);
    }
  }

  lemma {:induction false} KeepThroughTrimEnd(t: string, q: char -> bool)
    requires forall c :: IsWhitespace(c) ==> !q(c)
    ensures Keep(TrimEnd(t), q) == Keep(t, q)
  {
    if |t| > 0 && IsWhitespace(t[|t| - 1]) {
      var init, last := t[..|t| - 1], t[|t| - 1];
      KeepThroughTrimEnd(init, q);
      assert t == init + [last];
      KeepAppend(init, [last], q);
      assert Keep([last], q) == [];
    }
  }

  lemma CleanStringIdempotent(s: string)
    ensures CleanString(CleanString(s)) == CleanString(s)
  {
    var r := CleanString(s);
    KeepAll(r, AlnumOrWhitespace);
    TrimOfTrimmed(r);
  }

  /** No letter changes case: the alphanumeric characters of the input survive in order and unchanged. */
  lemma CleanStringKeepsCase(s: string)
    ensures forall c :: c in s && IsAlnum(c) ==> c in CleanString(s)
  {
    var r := CleanString(s);
    forall c | c in s && IsAlnum(c) ensures c in r {
      assert c in Keep(s, IsAlnum);
      assert c in Keep(r, IsAlnum);
    }
  }

  lemma CleanWordIdempotent(s: string)
    ensures CleanWord(CleanWord(s)) == CleanWord(s)
  {
    var r := CleanWord(s);
    ToLowerOfLower(r);
    KeepAll(r, AlnumOrSpace);
    TrimOfTrimmed(r);
  }

  /** Tabs, newlines and punctuation never survive `clean_word`; upper-case letters come out lower-cased. */
  lemma CleanWordDropsTabsAndPunctuation(s: string)
    ensures '\t' !in CleanWord(s) && '\n' !in CleanWord(s)
    ensures forall c :: c in CleanWord(s) ==> c == ' ' || IsLower(c) || IsDigit(c)
  {
    var r := CleanWord(s);
    forall c | c in r
      ensures c == ' ' || IsLower(c) || IsDigit(c)
    {
      assert AlnumOrSpace(c) && !IsUpper(c);
    }
  }
}
