/**
 * `CardName` of the newest crate: the display text as given (`raw`), the text
 * before the first `(` (`almost_raw`), its cleaned key (`cleaned`) and
 * whether it names a double-faced card. Equality lets a double-faced name
 * match either of its faces; ordering and hashing look at `cleaned` only.
 */
module CardNames {
  import opened Wrappers
  import opened Text
  import opened Cleaning

  datatype CardName = CardName(raw: string, almostRaw: string, cleaned: string, doubleFaced: bool)

  datatype NameError = EmptyName | BasicLandName

  datatype Ordering = Less | Equal | Greater

  /** `remove_things_in_parenthesies_after_name`: the text before the first `(`, trimmed; untouched (not even trimmed) when there is no `(`. */
  function RemoveParenthesisSuffix(s: string): (r: string)
    ensures Find(s, "(").None? ==> r == s
    ensures Find(s, "(").Some? ==> '(' !in r && IsTrimmed(r) && |r| < |s|
  {
    match Find(s, "(")
    case None => s
    case Some(i) =>
      FindIsFirst(s, "(", i);
      Trim(s[..i])
  }

  /** No `(` occurs before the first one. */
  lemma FindIsFirst(s: string, p: string, i: nat)
    requires p == "(" && Find(s, p) == Some(i)
    ensures '(' !in s[..i]
  {
    if '(' in s[..i] {
      var j :| 0 <= j < i && s[j] == '(';
      FirstOccurrence(s, j);
    }
  }

  lemma {:induction false} FirstOccurrence(s: string, j: nat)
    requires j < |s| && s[j] == '('
    ensures Find(s, "(").Some? && Find(s, "(").value <= j
    decreases |s|
  {
    if !StartsWith(s, "(") {
      assert j > 0;
      FirstOccurrence(s[1..], j - 1);
    }
  }

  /** `is_basic_land`, applied to the cleaned name. */
  predicate IsBasicLand(name: string)
  {
    name == "mountain" || name == "island" || name == "plains" || name == "swamp" || name == "forest"
  }

  /** `CardName::new`. */
  function New(raw: string): (r: Result<CardName, NameError>)
    ensures r.Ok? ==> r.value.raw == raw
    ensures r.Ok? ==> r.value.almostRaw == RemoveParenthesisSuffix(raw)
    ensures r.Ok? ==> r.value.cleaned == CleanWord(r.value.almostRaw)
    ensures r.Ok? ==> r.value.doubleFaced == Contains(r.value.almostRaw, "//")
    ensures r.Ok? <==> RemoveParenthesisSuffix(raw) != [] && CleanWord(RemoveParenthesisSuffix(raw)) != []
                        && !IsBasicLand(CleanWord(RemoveParenthesisSuffix(raw)))
    ensures r == Err(BasicLandName) ==> IsBasicLand(CleanWord(RemoveParenthesisSuffix(raw)))
  {
    var almostRaw := RemoveParenthesisSuffix(raw);
    var doubleFaced := Contains(almostRaw, "//");
    var cleaned := CleanWord(almostRaw);
    if almostRaw == [] || cleaned == [] then Err(EmptyName)
    else if IsBasicLand(cleaned) then Err(BasicLandName)
    else Ok(CardName(raw, almostRaw, cleaned, doubleFaced))
  }

  /** The invariant every value built by `new` satisfies. */
  predicate WellFormed(n: CardName)
  {
    n.cleaned != [] && IsTrimmed(n.cleaned) && !IsBasicLand(n.cleaned)
    && (forall c :: c in n.cleaned ==> AlnumOrSpace(c) && !IsUpper(c))
    && n.doubleFaced == Contains(n.almostRaw, "//")
  }

  lemma NewWellFormed(raw: string)
    requires New(raw).Ok?
    ensures WellFormed(New(raw).value)
    ensures CleanWord(New(raw).value.cleaned) == New(raw).value.cleaned
  {
    CleanWordIdempotent(New(raw).value.almostRaw);
  }

  /** A name whose cleaned form is a basic land is always rejected, whatever printing note follows it. */
  lemma BasicLandsRejected(raw: string)
    requires IsBasicLand(CleanWord(RemoveParenthesisSuffix(raw)))
    ensures New(raw) == Err(BasicLandName)
  {
  }

  /** `PartialEq::eq`. */
  predicate Eq(a: CardName, b: CardName)
  {
    a.cleaned == b.cleaned
    || (a.doubleFaced && (Contains(a.cleaned, b.cleaned) || Contains(b.cleaned, a.cleaned)))
    || (b.doubleFaced && (Contains(a.cleaned, b.cleaned) || Contains(b.cleaned, a.cleaned)))
  }

  lemma EqReflexive(a: CardName)
    ensures Eq(a, a)
  {
  }

  lemma EqSymmetric(a: CardName, b: CardName)
    ensures Eq(a, b) <==> Eq(b, a)
  {
  }

  /** Between two single-faced names, equality is exactly equality of the cleaned keys. */
  lemma EqSingleFaced(a: CardName, b: CardName)
    requires !a.doubleFaced && !b.doubleFaced
    ensures Eq(a, b) <==> a.cleaned == b.cleaned
  {
  }

  /**
   * Equality is not transitive on the names `new` builds: a double-faced
   * name "F // G" equals each of its one-word faces, but two faces with
   * different keys differ.
   */
  lemma EqNotTransitive(f: string, g: string)
    requires f != [] && g != []
    requires forall i :: 0 <= i < |f| ==> IsAlnum(f[i])
    requires forall i :: 0 <= i < |g| ==> IsAlnum(g[i])
    requires !IsBasicLand(ToLower(f)) && !IsBasicLand(ToLower(g))
    requires ToLower(f) != ToLower(g)
    ensures New(f + " // " + g).Ok? && New(f).Ok? && New(g).Ok?
    ensures var both := New(f + " // " + g).value;
            var front := New(f).value;
            var back := New(g).value;
            both.doubleFaced && Eq(front, both) && Eq(both, back) && !Eq(front, back)
  {
    FaceBuilt(f);
    FaceBuilt(g);
    DoubleFacedBuilt(f, g);
    FacesInKey(ToLower(f), ToLower(g));
  }

  /** A one-word face: kept whole, single-faced, keyed by its lower-cased text. */
  lemma FaceBuilt(f: string)
    requires f != [] && forall i :: 0 <= i < |f| ==> IsAlnum(f[i])
    requires !IsBasicLand(ToLower(f))
    ensures New(f) == Ok(CardName(f, f, ToLower(f), false))
  {
    WordKept(f);
  }

  /** A word of letters and digits has no bracket or slash to cut at and cleans to its lower-cased text. */
  lemma WordKept(f: string)
    requires f != [] && forall i :: 0 <= i < |f| ==> IsAlnum(f[i])
    ensures RemoveParenthesisSuffix(f) == f && CleanWord(f) == ToLower(f) && !Contains(f, "//")
  {
    NoSymbols(f);
    NoBracketKept(f);
    LowerWord(f);
    CleanWordOfClean(f, ToLower(f));
    ContainsHasChars(f, "//");
    assert "//"[0] == '/';
  }

  lemma NoSymbols(f: string)
    requires forall i :: 0 <= i < |f| ==> IsAlnum(f[i])
    ensures '(' !in f && '/' !in f
  {
  }

  /** A word of letters and digits lower-cases to a clean, trimmed word. */
  lemma LowerWord(f: string)
    requires f != [] && forall i :: 0 <= i < |f| ==> IsAlnum(f[i])
    ensures ToLower(f) != [] && IsTrimmed(ToLower(f))
    ensures forall c :: c in ToLower(f) ==> IsAlnum(c)
  {
    var l := ToLower(f);
    assert forall i :: 0 <= i < |l| ==> IsAlnum(l[i]);
  }

  /** "F // G": kept whole, double-faced, keyed by both faces lower-cased with two spaces between. */
  lemma DoubleFacedBuilt(f: string, g: string)
    requires f != [] && g != []
    requires forall i :: 0 <= i < |f| ==> IsAlnum(f[i])
    requires forall i :: 0 <= i < |g| ==> IsAlnum(g[i])
    ensures New(f + " // " + g) == Ok(CardName(f + " // " + g, f + " // " + g, ToLower(f) + "  " + ToLower(g), true))
  {
    DoubleFacedKept(f, g);
    var k := ToLower(f) + "  " + ToLower(g);
    assert k[|ToLower(f)|] == ' ';
    SpacedKeyNoLand(k);
  }

  lemma DoubleFacedKept(f: string, g: string)
    requires f != [] && g != []
    requires forall i :: 0 <= i < |f| ==> IsAlnum(f[i])
    requires forall i :: 0 <= i < |g| ==> IsAlnum(g[i])
    ensures var s := f + " // " + g;
            RemoveParenthesisSuffix(s) == s && Contains(s, "//") && CleanWord(s) == ToLower(f) + "  " + ToLower(g)
  {
    var s := f + " // " + g;
    NoSymbols(f);
    NoSymbols(g);
    NoBracketKept(s);
    SlashesAt(f, g);
    LowerDoubleFaced(f, g);
    LowerWord(f);
    LowerWord(g);
    DoubleKeyPieces(ToLower(f), ToLower(g));
    CleanWordDropsMiddle(s, ToLower(f) + " ", "//", " " + ToLower(g));
    JoinedWithTwoSpaces(ToLower(f), ToLower(g));
  }

  /** The pieces around the slashes are clean and the joined key is trimmed. */
  lemma DoubleKeyPieces(a: string, b: string)
    requires a != [] && b != []
    requires forall c :: c in a ==> IsAlnum(c)
    requires forall c :: c in b ==> IsAlnum(c)
    ensures IsTrimmed((a + " ") + (" " + b))
    ensures forall c :: c in a + " " ==> AlnumOrSpace(c)
    ensures forall c :: c in "//" ==> !AlnumOrSpace(c)
    ensures forall c :: c in " " + b ==> AlnumOrSpace(c)
  {
    var k := (a + " ") + (" " + b);
    assert k[0] == a[0] && k[|k| - 1] == b[|b| - 1];
    assert a[0] in a && b[|b| - 1] in b;
  }

  /** A key holding a space is no basic land. */
  lemma SpacedKeyNoLand(k: string)
    requires ' ' in k
    ensures !IsBasicLand(k)
  {
  }

  lemma SlashesAt(f: string, g: string)
    ensures Contains(f + " // " + g, "//")
  {
    var s := f + " // " + g;
    assert s[|f| + 1..|f| + 3] == "//";
    ContainsAt(s, "//", |f| + 1);
  }

  lemma LowerDoubleFaced(f: string, g: string)
    ensures ToLower(f + " // " + g) == (ToLower(f) + " ") + "//" + (" " + ToLower(g))
  {
    ToLowerAppend(f + " // ", g);
    ToLowerAppend(f, " // ");
    ToLowerOfLower(" // ");
  }

  lemma JoinedWithTwoSpaces(a: string, b: string)
    ensures (a + " ") + (" " + b) == a + "  " + b
  {
  }

  /** Each face's key occurs in the double-faced key. */
  lemma FacesInKey(a: string, b: string)
    ensures Contains(a + "  " + b, a) && Contains(a + "  " + b, b)
  {
    var k := a + "  " + b;
    ContainsAt(k, a, 0);
    assert k[|a| + 2..|a| + 2 + |b|] == b;
    ContainsAt(k, b, |a| + 2);
  }

  /** A name without `(` keeps its text whole. */
  lemma NoBracketKept(s: string)
    requires '(' !in s
    ensures RemoveParenthesisSuffix(s) == s
  {
    assert !Contains(s, "(") by {
      ContainsHasChars(s, "(");
      assert "("[0] == '(';
    }
  }

  /** A text that lower-cases to clean pieces around a piece with no alphanumerics or spaces cleans to the outer pieces. */
  lemma CleanWordDropsMiddle(s: string, a: string, m: string, b: string)
    requires ToLower(s) == a + m + b && IsTrimmed(a + b)
    requires forall c :: c in a ==> AlnumOrSpace(c)
    requires forall c :: c in m ==> !AlnumOrSpace(c)
    requires forall c :: c in b ==> AlnumOrSpace(c)
    ensures CleanWord(s) == a + b
  {
    KeepDropsMiddle(a, m, b);
    TrimOfTrimmed(a + b);
  }

  /** Keeping alphanumerics and spaces drops a middle piece that has none. */
  lemma KeepDropsMiddle(a: string, m: string, b: string)
    requires forall c :: c in a ==> AlnumOrSpace(c)
    requires forall c :: c in m ==> !AlnumOrSpace(c)
    requires forall c :: c in b ==> AlnumOrSpace(c)
    ensures Keep(a + m + b, AlnumOrSpace) == a + b
  {
    assert Keep(a + m, AlnumOrSpace) == a by {
      KeepAppend(a, m, AlnumOrSpace);
      KeepAll(a, AlnumOrSpace);
      KeepNone(m, AlnumOrSpace);
      assert a + [] == a;
    }
    assert Keep(b, AlnumOrSpace) == b by {
      KeepAll(b, AlnumOrSpace);
    }
    KeepAppend(a + m, b, AlnumOrSpace);
  }

  /** A text whose lower-cased form is already clean cleans to that form. */
  lemma CleanWordOfClean(s: string, lower: string)
    requires ToLower(s) == lower && IsTrimmed(lower)
    requires forall c :: c in lower ==> AlnumOrSpace(c)
    ensures CleanWord(s) == lower
  {
    KeepAll(lower, AlnumOrSpace);
    TrimOfTrimmed(lower);
  }

  /** `Ord::cmp` on `String`: lexicographic by character. */
  function CompareStrings(a: string, b: string): Ordering
  {
    if a == [] then (if b == [] then Equal else Less)
    else if b == [] then Greater
    else if a[0] < b[0] then Less
    else if a[0] > b[0] then Greater
    else CompareStrings(a[1..], b[1..])
  }

  function Flip(o: Ordering): Ordering
  {
    match o
    case Less => Greater
    case Equal => Equal
    case Greater => Less
  }

  lemma {:induction false} CompareStringsEqual(a: string, b: string)
    ensures CompareStrings(a, b) == Equal <==> a == b
  {
    if a != [] && b != [] && a[0] == b[0] {
      CompareStringsEqual(a[1..], b[1..]);
      assert a == [a[0]] + a[1..] && b == [b[0]] + b[1..];
    }
  }

  lemma {:induction false} CompareStringsAntisymmetric(a: string, b: string)
    ensures CompareStrings(b, a) == Flip(CompareStrings(a, b))
  {
    if a != [] && b != [] && a[0] == b[0] {
      CompareStringsAntisymmetric(a[1..], b[1..]);
    }
  }

  /** `Ord::cmp` for `CardName`. */
  function Compare(a: CardName, b: CardName): (r: Ordering)
    ensures r == Equal <==> a.cleaned == b.cleaned
    ensures CompareStrings(b.cleaned, a.cleaned) == Flip(r)
  {
    CompareStringsEqual(a.cleaned, b.cleaned);
    CompareStringsAntisymmetric(a.cleaned, b.cleaned);
    CompareStrings(a.cleaned, b.cleaned)
  }

  /** What `Hash::hash` feeds the hasher: the cleaned key only, so maps keyed by `CardName` are keyed by it. */
  function HashKey(a: CardName): string
  {
    a.cleaned
  }

  /** Ordering and hashing agree with equality whenever the cleaned keys agree. */
  lemma SameCleanedAgrees(a: CardName, b: CardName)
    requires a.cleaned == b.cleaned
    ensures Eq(a, b) && Compare(a, b) == Equal && HashKey(a) == HashKey(b)
  {
  }

  /** The names `new` builds from "F // G" and from its face F are equal, yet hash and order differently. */
  lemma EqButDifferentHash(f: string, g: string)
    requires f != [] && g != []
    requires forall i :: 0 <= i < |f| ==> IsAlnum(f[i])
    requires forall i :: 0 <= i < |g| ==> IsAlnum(g[i])
    requires !IsBasicLand(ToLower(f))
    ensures New(f + " // " + g).Ok? && New(f).Ok?
    ensures var both := New(f + " // " + g).value;
            var front := New(f).value;
            Eq(front, both) && HashKey(front) != HashKey(both) && Compare(front, both) != Equal
  {
    FaceBuilt(f);
    DoubleFacedBuilt(f, g);
    FacesInKey(ToLower(f), ToLower(g));
    assert |ToLower(f) + "  " + ToLower(g)| > |ToLower(f)|;
  }

  /** `Serialize`: the raw text. */
  function Serialize(n: CardName): string
  {
    n.raw
  }

  /** `Deserialize`: `new` on the text; a name `new` rejects panics, hence the precondition. */
  function Deserialize(s: string): (n: CardName)
    requires New(s).Ok?
    ensures n.raw == s && WellFormed(n)
  {
    NewWellFormed(s);
    New(s).value
  }

  /** Serializing and deserializing reproduces every field of a value built by `new`. */
  lemma SerdeRoundTrip(raw: string)
    requires New(raw).Ok?
    ensures New(Serialize(New(raw).value)).Ok?
    ensures Deserialize(Serialize(New(raw).value)) == New(raw).value
  {
  }
}
