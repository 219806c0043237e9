/**
 * The string toolkit the scrapers are built from: character classes, `trim`,
 * `filter`, `replace`, `contains`, `split_whitespace` and number parsing, with
 * Rust's semantics written out. Letters, digits and case are ASCII.
 */
module Text {
  import opened Wrappers

  // ---------------------------------------------------------------- characters

  predicate IsDigit(c: char) { '0' <= c <= '9' }
  predicate IsUpper(c: char) { 'A' <= c <= 'Z' }
  predicate IsLower(c: char) { 'a' <= c <= 'z' }
  predicate IsAlpha(c: char) { IsUpper(c) || IsLower(c) }
  predicate IsAlnum(c: char) { IsAlpha(c) || IsDigit(c) }

  /** Rust's `char::is_whitespace`: the Unicode White_Space property. */
  predicate IsWhitespace(c: char)
  {
    ('\U{0009}' <= c <= '\U{000D}') || c == ' ' || c == '\U{0085}' || c == '\U{00A0}'
    || c == '\U{1680}' || ('\U{2000}' <= c <= '\U{200A}') || c == '\U{2028}' || c == '\U{2029}'
    || c == '\U{202F}' || c == '\U{205F}' || c == '\U{3000}'
  }

  function LowerChar(c: char): (r: char)
    ensures !IsUpper(r)
    ensures IsAlnum(r) == IsAlnum(c) && IsWhitespace(r) == IsWhitespace(c)
    ensures !IsUpper(c) ==> r == c
  {
    if IsUpper(c) then (c as int + 32) as char else c
  }

  /** `str::to_lowercase`, ASCII letters only. */
  function ToLower(s: string): (r: string)
    ensures |r| == |s|
    ensures forall i {:trigger r[i]} :: 0 <= i < |s| ==> r[i] == LowerChar(s[i])
  {
    if s == [] then [] else [LowerChar(s[0])] + ToLower(s[1..])
  }

  lemma {:induction false} ToLowerOfLower(s: string)
    requires forall i :: 0 <= i < |s| ==> !IsUpper(s[i])
    ensures ToLower(s) == s
  {
    if s != [] {
      ToLowerOfLower(s[1..]);
    }
  }

  lemma ToLowerAppend(a: string, b: string)
    ensures ToLower(a + b) == ToLower(a) + ToLower(b)
  {
    assert |ToLower(a + b)| == |ToLower(a) + ToLower(b)|;
  }

  // ---------------------------------------------------------------- filtering

  /** `s.chars().filter(p).collect()`. */
  function Keep(s: string, p: char -> bool): (r: string)
    ensures |r| <= |s|
    ensures forall c {:trigger c in r} :: c in r <==> c in s && p(c)
  {
    if s == [] then []
    else if p(s[0]) then [s[0]] + Keep(s[1..], p)
    else Keep(s[1..], p)
  }

  lemma {:induction false} KeepAll(s: string, p: char -> bool)
    requires forall c :: c in s ==> p(c)
    ensures Keep(s, p) == s
  {
    if s != [] {
      KeepAll(s[1..], p);
    }
  }

  lemma {:induction false} KeepAppend(a: string, b: string, p: char -> bool)
    ensures Keep(a + b, p) == Keep(a, p) + Keep(b, p)
  {
    if a != [] {
      assert (a + b)[0] == a[0] && (a + b)[1..] == a[1..] + b;
      KeepAppend(a[1..], b, p);
      if p(a[0]) {
        assert Keep(a + b, p) == [a[0]] + Keep(a[1..] + b, p);
      } else {
        assert Keep(a + b, p) == Keep(a[1..] + b, p);
      }
    } else {
      assert a + b == b;
    }
  }

  /** Every occurrence of the character `c` removed (`replace(c, "")` on a one-char pattern). */
  function RemoveChar(s: string, c: char): (r: string)
    ensures c !in r
    ensures forall d {:trigger d in r} :: d in r <==> d in s && d != c
  {
    Keep(s, d => d != c)
  }

  // ---------------------------------------------------------------- trimming

  /** `str::trim_start`. */
  function TrimStart(s: string): (r: string)
    ensures |r| <= |s| && r == s[|s| - |r|..]
    ensures r == [] || !IsWhitespace(r[0])
    ensures forall i :: 0 <= i < |s| - |r| ==> IsWhitespace(s[i])
  {
    if |s| > 0 && IsWhitespace(s[0]) then TrimStart(s[1..]) else s
  }

  /** `str::trim_end`. */
  function TrimEnd(s: string): (r: string)
    ensures |r| <= |s| && r == s[..|r|]
    ensures r == [] || !IsWhitespace(r[|r| - 1])
    ensures forall i :: |r| <= i < |s| ==> IsWhitespace(s[i])
  {
    if |s| > 0 && IsWhitespace(s[|s| - 1]) then TrimEnd(s[..|s| - 1]) else s
  }

  predicate IsTrimmed(s: string)
  {
    s == [] || (!IsWhitespace(s[0]) && !IsWhitespace(s[|s| - 1]))
  }

  /** `str::trim`: the longest slice of `s` that neither starts nor ends with whitespace. */
  function Trim(s: string): (r: string)
    ensures IsTrimmed(r)
    ensures |r| <= |s|
    ensures forall c {:trigger c in r} :: c in r ==> c in s
  {
    TrimEnd(TrimStart(s))
  }

  lemma TrimOfTrimmed(s: string)
    requires IsTrimmed(s)
    ensures Trim(s) == s
  {
  }

  /** A trimmed, non-empty text followed by one whitespace character trims back to itself. */
  lemma TrimTrailingSpace(core: string, c: char)
    requires core != [] && IsTrimmed(core) && IsWhitespace(c)
    ensures Trim(core + [c]) == core
  {
    var body := core + [c];
    assert body[0] == core[0];
    assert TrimStart(body) == body;
    assert body[..|body| - 1] == core;
    assert TrimEnd(core) == core;
  }

  lemma TrimIdempotent(s: string)
    ensures Trim(Trim(s)) == Trim(s)
  {
    TrimOfTrimmed(Trim(s));
  }

  /** Trimming a string made only of whitespace leaves nothing. */
  lemma TrimAllWhitespace(s: string)
    requires forall i :: 0 <= i < |s| ==> IsWhitespace(s[i])
    ensures Trim(s) == []
  {
  }

  // ---------------------------------------------------------------- substrings

  predicate StartsWith(s: string, p: string)
  {
    |p| <= |s| && s[..|p|] == p
  }

  /** `str::contains` for a string pattern. */
  predicate Contains(s: string, p: string)
    decreases |s|
  {
    StartsWith(s, p) || (|s| > 0 && Contains(s[1..], p))
  }

  lemma {:induction false} ContainsAt(s: string, p: string, i: nat)
    requires i + |p| <= |s| && s[i..i + |p|] == p
    ensures Contains(s, p)
  {
    if i > 0 {
      assert s[1..][i - 1..i - 1 + |p|] == p;
      ContainsAt(s[1..], p, i - 1);
    }
  }

  lemma {:induction false} ContainsWitness(s: string, p: string) returns (i: nat)
    requires Contains(s, p)
    ensures i + |p| <= |s| && s[i..i + |p|] == p
    decreases |s|
  {
    if StartsWith(s, p) {
      i := 0;
    } else {
      var j := ContainsWitness(s[1..], p);
      i := j + 1;
      assert s[i..i + |p|] == s[1..][j..j + |p|];
    }
  }

  /** Every character of an occurring pattern is a character of the text. */
  lemma ContainsHasChars(s: string, p: string)
    ensures Contains(s, p) ==> forall k :: 0 <= k < |p| ==> p[k] in s
  {
    if Contains(s, p) {
      var i := ContainsWitness(s, p);
      forall k | 0 <= k < |p|
        ensures p[k] in s
      {
        assert s[i..i + |p|][k] == s[i + k];
      }
    }
  }

  lemma ContainsSelf(s: string)
    ensures Contains(s, s)
  {
    ContainsAt(s, s, 0);
  }

  /** A case-insensitive regex for a literal: `p` occurs in `s` once both are lowercased (ASCII only). */
  predicate ContainsIgnoreCase(s: string, p: string)
  {
    Contains(ToLower(s), ToLower(p))
  }

  /** A piece that matches `p` up to case, anywhere in a text, is found by the case-blind search. */
  lemma ContainsIgnoreCaseMiddle(a: string, m: string, b: string, p: string)
    requires ToLower(m) == ToLower(p)
    ensures ContainsIgnoreCase(a + m + b, p)
  {
    var la, lm, lb := ToLower(a), ToLower(m), ToLower(b);
    assert ToLower(a + m + b) == la + lm + lb by {
      ToLowerAppend(a + m, b);
      ToLowerAppend(a, m);
    }
    var t := la + lm + lb;
    assert t[|la|..|la| + |lm|] == lm;
    ContainsAt(t, lm, |la|);
  }

  /** `str::find`: the index of the first occurrence of `p`. */
  function Find(s: string, p: string): (r: Option<nat>)
    ensures r.Some? <==> Contains(s, p)
    ensures r.Some? ==> r.value + |p| <= |s| && s[r.value..r.value + |p|] == p
    decreases |s|
  {
    if StartsWith(s, p) then Some(0)
    else if |s| == 0 then None
    else match Find(s[1..], p)
      case None => None
      case Some(i) => assert s[i + 1..i + 1 + |p|] == s[1..][i..i + |p|]; Some(i + 1)
  }

  /** The first occurrence of a character is found right after a prefix that lacks it. */
  lemma {:induction false} FindFirstChar(a: string, c: char, b: string)
    requires c !in a
    ensures Find(a + [c] + b, [c]) == Some(|a|)
  {
    var s := a + [c] + b;
    if a != [] {
      assert s[1..] == a[1..] + [c] + b;
      assert s[0] == a[0];
      FindFirstChar(a[1..], c, b);
    } else {
      assert s[..1] == [c];
    }
  }

  /** `str::replace`: every leftmost non-overlapping occurrence of `pat`, scanning left to right. */
  function Replace(s: string, pat: string, rep: string): (r: string)
    requires |pat| > 0
    decreases |s|
  {
    if |s| < |pat| then s
    else if s[..|pat|] == pat then rep + Replace(s[|pat|..], pat, rep)
    else [s[0]] + Replace(s[1..], pat, rep)
  }

  /** A pattern that does not occur is replaced nowhere. */
  lemma {:induction false} ReplaceAbsent(s: string, pat: string, rep: string)
    requires |pat| > 0 && !Contains(s, pat)
    ensures Replace(s, pat, rep) == s
    decreases |s|
  {
    if |s| >= |pat| {
      assert !StartsWith(s, pat);
      ReplaceAbsent(s[1..], pat, rep);
    }
  }

  /** Replacing a pattern by itself changes nothing. */
  lemma {:induction false} ReplaceBySelf(s: string, pat: string)
    requires |pat| > 0
    ensures Replace(s, pat, pat) == s
    decreases |s|
  {
    if |s| >= |pat| {
      if s[..|pat|] == pat {
        ReplaceBySelf(s[|pat|..], pat);
        assert s == pat + s[|pat|..];
      } else {
        ReplaceBySelf(s[1..], pat);
        assert s == [s[0]] + s[1..];
      }
    }
  }

  /** A prefix without the pattern's first character is copied unchanged, and the rest is replaced on its own. */
  lemma {:induction false} ReplaceSkipsPrefix(a: string, b: string, pat: string, rep: string)
    requires |pat| > 0 && pat[0] !in a
    ensures Replace(a + b, pat, rep) == a + Replace(b, pat, rep)
    decreases |a|
  {
    if a != [] {
      var s := a + b;
      if |s| < |pat| {
        assert Replace(b, pat, rep) == b;
      } else {
        assert s[..|pat|][0] == a[0] != pat[0];
        assert s[1..] == a[1..] + b;
        ReplaceSkipsPrefix(a[1..], b, pat, rep);
        assert a == [a[0]] + a[1..];
      }
    } else {
      assert a + b == b;
    }
  }

  /** A text without the pattern's first character is left as it is. */
  lemma ReplaceMissing(s: string, pat: string, rep: string)
    requires |pat| > 0 && pat[0] !in s
    ensures Replace(s, pat, rep) == s
  {
    ReplaceSkipsPrefix(s, [], pat, rep);
    assert s + [] == s;
  }

  /** An occurrence at the front is replaced, and scanning resumes after it. */
  lemma ReplaceAtFront(b: string, pat: string, rep: string)
    requires |pat| > 0
    ensures Replace(pat + b, pat, rep) == rep + Replace(b, pat, rep)
  {
    var s := pat + b;
    assert s[..|pat|] == pat && s[|pat|..] == b;
  }

  /** A text that does not hold the pattern's first character loses only the pattern put after it. */
  lemma ReplaceSuffix(body: string, pat: string)
    requires |pat| > 0 && pat[0] !in body
    ensures Replace(body + pat, pat, "") == body
  {
    ReplaceSkipsPrefix(body, pat, pat, "");
    ReplaceAtFront([], pat, "");
    assert pat + [] == pat;
  }

  // ---------------------------------------------------------------- splitting and joining

  /** The leading run of non-whitespace characters. */
  function Word(s: string): (r: string)
    ensures |r| <= |s| && r == s[..|r|]
    ensures forall c {:trigger c in r} :: c in r ==> !IsWhitespace(c)
    ensures |r| < |s| ==> IsWhitespace(s[|r|])
  {
    if s == [] || IsWhitespace(s[0]) then [] else [s[0]] + Word(s[1..])
  }

  /** `str::split_whitespace`: the maximal non-empty whitespace-free pieces, in order. */
  function SplitWhitespace(s: string): seq<string>
    decreases |s|
  {
    var t := TrimStart(s);
    if t == [] then []
    else
      var w := Word(t);
      [w] + SplitWhitespace(t[|w|..])
  }

  /** A whitespace-free text followed by whitespace (or nothing) is a whole word. */
  lemma {:induction false} WordOfNonBlank(a: string, rest: string)
    requires forall i :: 0 <= i < |a| ==> !IsWhitespace(a[i])
    requires rest == [] || IsWhitespace(rest[0])
    ensures Word(a + rest) == a
    decreases |a|
  {
    if a != [] {
      assert (a + rest)[1..] == a[1..] + rest;
      WordOfNonBlank(a[1..], rest);
      assert a == [a[0]] + a[1..];
    } else {
      assert a + rest == rest;
    }
  }

  /** Leading whitespace is all that `trim_start` removes. */
  lemma {:induction false} TrimStartOfBlank(ws: string, b: string)
    requires forall i :: 0 <= i < |ws| ==> IsWhitespace(ws[i])
    requires b == [] || !IsWhitespace(b[0])
    ensures TrimStart(ws + b) == b
    decreases |ws|
  {
    if ws != [] {
      assert (ws + b)[1..] == ws[1..] + b;
      TrimStartOfBlank(ws[1..], b);
    } else {
      assert ws + b == b;
    }
  }

  /** A whitespace-free word in front of whitespace (or nothing) is the first piece of the split. */
  lemma SplitFirstWord(a: string, rest: string)
    requires a != [] && forall i :: 0 <= i < |a| ==> !IsWhitespace(a[i])
    requires rest == [] || IsWhitespace(rest[0])
    ensures SplitWhitespace(a + rest) == [a] + SplitWhitespace(rest)
  {
    var s := a + rest;
    assert s[0] == a[0];
    assert TrimStart(s) == s;
    WordOfNonBlank(a, rest);
    assert s[|a|..] == rest;
  }

  /** Leading whitespace does not change the split. */
  lemma SplitAfterBlank(ws: string, b: string)
    requires forall i :: 0 <= i < |ws| ==> IsWhitespace(ws[i])
    requires b == [] || !IsWhitespace(b[0])
    ensures SplitWhitespace(ws + b) == SplitWhitespace(b)
  {
    TrimStartOfBlank(ws, b);
    TrimStartOfBlank([], b);
    assert [] + b == b;
  }

  /** A single whitespace-free word splits into itself. */
  lemma SplitOneWord(b: string)
    requires b != [] && forall i :: 0 <= i < |b| ==> !IsWhitespace(b[i])
    ensures SplitWhitespace(b) == [b]
  {
    assert b + [] == b;
    SplitFirstWord(b, []);
    assert SplitWhitespace([]) == [];
  }

  /** Two whitespace-free words with whitespace between them split into exactly those two. */
  lemma SplitTwoWords(a: string, ws: string, b: string)
    requires a != [] && forall i :: 0 <= i < |a| ==> !IsWhitespace(a[i])
    requires ws != [] && forall i :: 0 <= i < |ws| ==> IsWhitespace(ws[i])
    requires b != [] && forall i :: 0 <= i < |b| ==> !IsWhitespace(b[i])
    ensures SplitWhitespace(a + (ws + b)) == [a, b]
  {
    var rest := ws + b;
    assert rest == [] || IsWhitespace(rest[0]) by { assert rest[0] == ws[0]; }
    assert SplitWhitespace(a + rest) == [a] + SplitWhitespace(rest) by { SplitFirstWord(a, rest); }
    assert SplitWhitespace(rest) == [b] by { SplitAfterBlank(ws, b); SplitOneWord(b); }
  }

  /** `parts.join(sep)`. */
  function Join(parts: seq<string>, sep: string): string
  {
    if parts == [] then []
    else if |parts| == 1 then parts[0]
    else parts[0] + sep + Join(parts[1..], sep)
  }

  /** `str::split(c)`: every piece between separators, empty pieces included. */
  function Split(s: string, c: char): (r: seq<string>)
    ensures |r| >= 1
    ensures forall w :: w in r ==> c !in w
  {
    if s == [] then [[]]
    else if s[0] == c then [[]] + Split(s[1..], c)
    else
      var rest := Split(s[1..], c);
      [[s[0]] + rest[0]] + rest[1..]
  }

  lemma {:induction false} SplitWithoutSeparator(s: string, c: char)
    requires c !in s
    ensures Split(s, c) == [s]
  {
    if s != [] {
      SplitWithoutSeparator(s[1..], c);
      assert [s[0]] + s[1..] == s;
    }
  }

  /** The separator, then a last piece without it: the pieces of the text before, then that piece. */
  lemma {:induction false} SplitBeforePiece(s: string, c: char, b: string)
    requires c !in b
    ensures Split(s + [c] + b, c) == Split(s, c) + [b]
    decreases |s|
  {
    var t := s + [c] + b;
    if s == [] {
      assert t == [c] + b;
      SplitWithoutSeparator(b, c);
    } else {
      assert t[1..] == s[1..] + [c] + b;
      SplitBeforePiece(s[1..], c, b);
    }
  }

  // ---------------------------------------------------------------- numbers

  predicate AllDigits(s: string) { forall i :: 0 <= i < |s| ==> IsDigit(s[i]) }

  function DigitValue(c: char): (r: nat)
    requires IsDigit(c)
    ensures r < 10
  {
    c as int - '0' as int
  }

  function DigitChar(d: nat): (c: char)
    requires d < 10
    ensures IsDigit(c) && DigitValue(c) == d
  {
    ('0' as int + d) as char
  }

  /** The value of a string of decimal digits. */
  function DigitsValue(s: string): nat
    requires AllDigits(s)
  {
    if s == [] then 0 else 10 * DigitsValue(s[..|s| - 1]) + DigitValue(s[|s| - 1])
  }

  /** Decimal text of a natural number, without leading zeros. */
  function NatToString(n: nat): (r: string)
    ensures r != [] && AllDigits(r)
    ensures DigitsValue(r) == n
    ensures |r| > 1 ==> r[0] != '0'
  {
    if n < 10 then [DigitChar(n)]
    else
      var r := NatToString(n / 10) + [DigitChar(n % 10)];
      assert r[..|r| - 1] == NatToString(n / 10);
      r
  }

  /** Decimal text of an integer, with a leading `-` when negative. */
  function IntToString(n: int): (r: string)
    ensures r != []
  {
    if n < 0 then "-" + NatToString(-n) else NatToString(n)
  }

  /**
   * Rust's `from_str` for an integer type with range [lo, hi]: an optional `+`
   * (or, for signed types, `-`) followed by at least one ASCII digit; a value
   * outside the range is an error.
   */
  function ParseInteger(s: string, signed: bool, lo: int, hi: int): (r: Option<int>)
    ensures r.Some? ==> lo <= r.value <= hi
  {
    if s == [] then None
    else if s[0] == '+' || (signed && s[0] == '-') then
      var d := s[1..];
      if d == [] || !AllDigits(d) then None
      else
        var v: int := if s[0] == '-' then -(DigitsValue(d) as int) else DigitsValue(d);
        if lo <= v <= hi then Some(v) else None
    else if !AllDigits(s) then None
    else if lo <= DigitsValue(s) <= hi then Some(DigitsValue(s))
    else None
  }

  const I8_MIN: int := -128
  const I8_MAX: int := 127
  const I32_MIN: int := -0x8000_0000
  const I32_MAX: int := 0x7FFF_FFFF
  const U32_MAX: int := 0xFFFF_FFFF

  function ParseI8(s: string): (r: Option<int>)
    ensures r.Some? ==> I8_MIN <= r.value <= I8_MAX
  {
    ParseInteger(s, true, I8_MIN, I8_MAX)
  }

  function ParseI32(s: string): (r: Option<int>)
    ensures r.Some? ==> I32_MIN <= r.value <= I32_MAX
  {
    ParseInteger(s, true, I32_MIN, I32_MAX)
  }

  function ParseU32(s: string): (r: Option<int>)
    ensures r.Some? ==> 0 <= r.value <= U32_MAX
  {
    ParseInteger(s, false, 0, U32_MAX)
  }

  /** Parsing the decimal text of a number in range gives the number back. */
  lemma ParseNatToString(n: nat, signed: bool, lo: int, hi: int)
    requires lo <= n <= hi
    ensures ParseInteger(NatToString(n), signed, lo, hi) == Some(n)
  {
  }

  /** `10^k` */
  function Pow10(k: nat): (r: nat)
    ensures r >= 1
  {
    if k == 0 then 1 else 10 * Pow10(k - 1)
  }

  /**
   * Rust's `f64::from_str` restricted to plain decimals: an optional sign, then
   * digits with at most one `.`, and at least one digit in all. The value is
   * the exact rational the text denotes.
   */
  function ParseDecimal(s: string): (r: Option<real>)
  {
    if s != [] && (s[0] == '+' || s[0] == '-') then
      match ParseUnsignedDecimal(s[1..])
      case None => None
      case Some(v) => Some(if s[0] == '-' then -v else v)
    else ParseUnsignedDecimal(s)
  }

  function ParseUnsignedDecimal(s: string): (r: Option<real>)
    ensures r.Some? ==> r.value >= 0.0
  {
    match Find(s, ".")
    case None =>
      if s != [] && AllDigits(s) then Some(DigitsValue(s) as real) else None
    case Some(i) => ParsePointed(s[..i], s[i + 1..])
  }

  /** The digits before and after the point, read together; at least one side must be non-empty. */
  function ParsePointed(whole: string, frac: string): (r: Option<real>)
    ensures r.Some? ==> r.value >= 0.0
  {
    if (whole == [] && frac == []) || !AllDigits(whole) || !AllDigits(frac) then None
    else Some(DigitsValue(whole) as real + DigitsValue(frac) as real / Pow10(|frac|) as real)
  }

  /** Digits, a point and digits: the point found is the one after the whole part. */
  lemma PointFoundAfter(a: string, b: string)
    requires AllDigits(a)
    ensures ParseUnsignedDecimal(a + "." + b) == ParsePointed(a, b)
  {
    var s := a + "." + b;
    assert '.' !in a by {
      assert forall i :: 0 <= i < |a| ==> IsDigit(a[i]);
    }
    FindFirstChar(a, '.', b);
    assert s[..|a|] == a && s[|a| + 1..] == b;
  }

  /** The first maximal run of ASCII digits (the regex `\d+`). */
  function FirstDigitRun(s: string): (r: Option<string>)
    ensures r.Some? ==> r.value != [] && AllDigits(r.value)
    decreases |s|
  {
    if s == [] then None
    else if IsDigit(s[0]) then Some(DigitPrefix(s))
    else FirstDigitRun(s[1..])
  }

  /** There is no run exactly when the text holds no digit. */
  lemma {:induction false} FirstDigitRunNoneIffNoDigit(s: string)
    ensures FirstDigitRun(s).None? <==> forall i :: 0 <= i < |s| ==> !IsDigit(s[i])
    decreases |s|
  {
    if s != [] && !IsDigit(s[0]) {
      FirstDigitRunNoneIffNoDigit(s[1..]);
      assert forall i :: 1 <= i < |s| ==> s[1..][i - 1] == s[i];
    }
  }

  /** The run found starts at the first digit and takes every digit that follows it. */
  lemma {:induction false} FirstDigitRunAtFirstDigit(s: string, k: nat)
    requires k < |s| && IsDigit(s[k])
    requires forall j :: 0 <= j < k ==> !IsDigit(s[j])
    ensures FirstDigitRun(s) == Some(DigitPrefix(s[k..]))
    decreases k
  {
    if k > 0 {
      assert !IsDigit(s[0]);
      assert forall j :: 0 <= j < k - 1 ==> s[1..][j] == s[j + 1];
      FirstDigitRunAtFirstDigit(s[1..], k - 1);
      assert s[1..][k - 1..] == s[k..];
    }
  }

  function DigitPrefix(s: string): (r: string)
    ensures AllDigits(r) && |r| <= |s| && r == s[..|r|]
    ensures s != [] && IsDigit(s[0]) ==> r != []
    ensures |r| < |s| ==> !IsDigit(s[|r|])
  {
    if s == [] || !IsDigit(s[0]) then [] else [s[0]] + DigitPrefix(s[1..])
  }
}
