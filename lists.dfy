/**
 * Sequence helpers shared by the scrapers and comparers: the iterator `find`,
 * and the `entry(key).or_insert_with(Vec::new).push(item)` grouping loop that
 * every scraper uses to build its `HashMap<CardName, Vec<_>>`.
 */
module Lists {
  import opened Wrappers

  /** `iter().position(p)`: the index of the first element satisfying `p`. */
  function FindFirst<T>(s: seq<T>, p: T -> bool): (r: Option<nat>)
    ensures r.Some? ==> r.value < |s| && p(s[r.value]) && forall j :: 0 <= j < r.value ==> !p(s[j])
    ensures r.None? <==> forall j :: 0 <= j < |s| ==> !p(s[j])
    decreases |s|
  {
    if s == [] then None
    else if p(s[0]) then Some(0)
    else match FindFirst(s[1..], p)
      case None => None
      case Some(i) => Some(i + 1)
  }

  /** `iter().find(p)`: the first element satisfying `p`. */
  function FindElem<T>(s: seq<T>, p: T -> bool): (r: Option<T>)
    ensures r.Some? ==> r.value in s && p(r.value)
    decreases |s|
  {
    if s == [] then None
    else if p(s[0]) then Some(s[0])
    else FindElem(s[1..], p)
  }

  /** The search finds nothing exactly when no element satisfies `p`, and otherwise the first one that does. */
  lemma {:induction false} FindElemIsFirst<T>(s: seq<T>, p: T -> bool)
    ensures var r := FindElem(s, p);
            && (r.None? <==> forall v :: v in s ==> !p(v))
            && (r.Some? ==> exists i :: 0 <= i < |s| && s[i] == r.value && forall j :: 0 <= j < i ==> !p(s[j]))
    decreases |s|
  {
    if s != [] && !p(s[0]) {
      var rest := s[1..];
      FindElemIsFirst(rest, p);
      assert s == [s[0]] + rest;
      if FindElem(rest, p).Some? {
        var i :| 0 <= i < |rest| && rest[i] == FindElem(rest, p).value && forall j :: 0 <= j < i ==> !p(rest[j]);
        assert s[i + 1] == rest[i];
        assert forall j :: 1 <= j < i + 1 ==> s[j] == rest[j - 1];
      }
    }
  }

  /** The elements of `s` whose key is `k`, in their order in `s`. */
  function KeyFilter<T>(s: seq<T>, key: T -> string, k: string): (r: seq<T>)
    ensures |r| <= |s|
    ensures forall x {:trigger x in r} :: x in r ==> x in s && key(x) == k
    decreases |s|
  {
    if s == [] then []
    else KeyFilter(s[..|s| - 1], key, k) + (if key(s[|s| - 1]) == k then [s[|s| - 1]] else [])
  }

  lemma {:induction false} KeyFilterNonEmpty<T>(s: seq<T>, key: T -> string, k: string)
    ensures KeyFilter(s, key, k) != [] <==> exists i :: 0 <= i < |s| && key(s[i]) == k
    decreases |s|
  {
    if s != [] {
      var init := s[..|s| - 1];
      KeyFilterNonEmpty(init, key, k);
      if exists i :: 0 <= i < |init| && key(init[i]) == k {
        var i :| 0 <= i < |init| && key(init[i]) == k;
        assert key(s[i]) == k;
      }
      if exists i :: 0 <= i < |s| && key(s[i]) == k {
        var i :| 0 <= i < |s| && key(s[i]) == k;
        if i < |s| - 1 { assert key(init[i]) == k; }
      }
    }
  }

  lemma {:induction false} KeyFilterConcat<T>(a: seq<T>, b: seq<T>, key: T -> string, k: string)
    ensures KeyFilter(a + b, key, k) == KeyFilter(a, key, k) + KeyFilter(b, key, k)
    decreases |b|
  {
    if b == [] {
      assert a + b == a;
    } else {
      assert (a + b)[..|a + b| - 1] == a + b[..|b| - 1];
      KeyFilterConcat(a, b[..|b| - 1], key, k);
    }
  }

  /** A sequence whose every element has key `k` is its own bucket. */
  lemma {:induction false} KeyFilterAll<T>(s: seq<T>, key: T -> string, k: string)
    requires forall i :: 0 <= i < |s| ==> key(s[i]) == k
    ensures KeyFilter(s, key, k) == s
    decreases |s|
  {
    if s != [] {
      var init := s[..|s| - 1];
      forall i | 0 <= i < |init|
        ensures key(init[i]) == k
      {
        assert init[i] == s[i];
      }
      KeyFilterAll(init, key, k);
      assert s == init + [s[|s| - 1]];
    }
  }

  /** A sequence with no element of key `k` has an empty bucket for `k`. */
  lemma {:induction false} KeyFilterNone<T>(s: seq<T>, key: T -> string, k: string)
    requires forall i :: 0 <= i < |s| ==> key(s[i]) != k
    ensures KeyFilter(s, key, k) == []
    decreases |s|
  {
    if s != [] {
      KeyFilterNone(s[..|s| - 1], key, k);
    }
  }

  /**
   * The grouped map as a value: the items pushed one after another onto the
   * bucket of their key, a missing bucket starting empty.
   */
  function Grouped<T>(items: seq<T>, key: T -> string): map<string, seq<T>>
    decreases |items|
  {
    if items == [] then map[]
    else
      var g, x := Grouped(items[..|items| - 1], key), items[|items| - 1];
      g[key(x) := if key(x) in g then g[key(x)] + [x] else [x]]
  }

  /** A bucket exists exactly for the keys that occur. */
  lemma {:induction false} GroupedKeys<T>(items: seq<T>, key: T -> string)
    ensures forall k :: k in Grouped(items, key) <==> exists i :: 0 <= i < |items| && key(items[i]) == k
    decreases |items|
  {
    if items != [] {
      var init, x := items[..|items| - 1], items[|items| - 1];
      GroupedKeys(init, key);
      forall k
        ensures k in Grouped(items, key) <==> exists i :: 0 <= i < |items| && key(items[i]) == k
      {
        if exists i :: 0 <= i < |init| && key(init[i]) == k {
          var i :| 0 <= i < |init| && key(init[i]) == k;
          assert items[i] == init[i];
        }
        if exists i :: 0 <= i < |items| && key(items[i]) == k {
          var i :| 0 <= i < |items| && key(items[i]) == k;
          if i < |init| {
            assert init[i] == items[i];
          }
        }
      }
    }
  }

  /** Each bucket holds the items of its key, in their order. */
  lemma {:induction false} GroupedBuckets<T>(items: seq<T>, key: T -> string)
    ensures forall k :: k in Grouped(items, key) ==> Grouped(items, key)[k] == KeyFilter(items, key, k)
    decreases |items|
  {
    if items != [] {
      var init, x := items[..|items| - 1], items[|items| - 1];
      var g := Grouped(init, key);
      GroupedBuckets(init, key);
      if key(x) !in g {
        GroupedKeys(init, key);
        KeyFilterNone(init, key, key(x));
      }
    }
  }

  /** A key has a bucket exactly when picking it out leaves something. */
  lemma GroupedKeyFilter<T>(items: seq<T>, key: T -> string, k: string)
    ensures k in Grouped(items, key) <==> KeyFilter(items, key, k) != []
  {
    GroupedKeys(items, key);
    KeyFilterNonEmpty(items, key, k);
  }

  /**
   * The grouping loop: every item is pushed, in order, onto the bucket of its
   * key, and a bucket exists exactly for the keys that occur.
   */
  method GroupBy<T>(items: seq<T>, key: T -> string) returns (m: map<string, seq<T>>)
    ensures m == Grouped(items, key)
    ensures forall k :: k in m <==> exists i :: 0 <= i < |items| && key(items[i]) == k
    ensures forall k :: k in m ==> m[k] == KeyFilter(items, key, k)
  {
    m := map[];
    for i := 0 to |items|
      invariant m == Grouped(items[..i], key)
    {
      assert items[..i + 1][..i] == items[..i] && items[..i + 1][i] == items[i];
      var k := key(items[i]);
      if k !in m {
        m := m[k := [items[i]]];
      } else {
        m := m[k := m[k] + [items[i]]];
      }
    }
    assert items[..|items|] == items;
    GroupedKeys(items, key);
    GroupedBuckets(items, key);
  }

  /** `iter().map(f).collect()`: `f` applied to every element, in order. */
  function MapAll<A, B>(xs: seq<A>, f: A --> B): (r: seq<B>)
    requires forall i :: 0 <= i < |xs| ==> f.requires(xs[i])
    ensures |r| == |xs| && forall i :: 0 <= i < |xs| ==> r[i] == f(xs[i])
  {
    seq(|xs|, i requires 0 <= i < |xs| => f(xs[i]))
  }

  /** Mapping one more element appends its image. */
  lemma MapAllSnoc<A, B>(xs: seq<A>, f: A --> B, i: nat)
    requires forall j :: 0 <= j < |xs| ==> f.requires(xs[j])
    requires i < |xs|
    ensures MapAll(xs[..i + 1], f) == MapAll(xs[..i], f) + [f(xs[i])]
  {
    assert xs[..i + 1][..i] == xs[..i] && xs[..i + 1][i] == xs[i];
  }

  /** `iter().map(f).flatten()`: the pieces `f` gives for the elements, one after another in order. */
  function ConcatMap<T, U>(xs: seq<T>, f: T -> seq<U>): seq<U>
    decreases |xs|
  {
    if xs == [] then [] else ConcatMap(xs[..|xs| - 1], f) + f(xs[|xs| - 1])
  }

  /** The pieces for two runs of elements are the pieces of the first run followed by those of the second. */
  lemma {:induction false} ConcatMapAppend<T, U>(a: seq<T>, b: seq<T>, f: T -> seq<U>)
    ensures ConcatMap(a + b, f) == ConcatMap(a, f) + ConcatMap(b, f)
    decreases |b|
  {
    if b == [] {
      assert a + b == a;
    } else {
      var init, last := b[..|b| - 1], b[|b| - 1];
      assert (a + b)[..|a + b| - 1] == a + init && (a + b)[|a + b| - 1] == last;
      ConcatMapAppend(a, init, f);
    }
  }

  /** One more element taken: the pieces so far followed by that element's piece. */
  lemma ConcatMapPrefix<T, U>(xs: seq<T>, f: T -> seq<U>, i: nat)
    requires i < |xs|
    ensures ConcatMap(xs[..i + 1], f) == ConcatMap(xs[..i], f) + f(xs[i])
  {
    assert xs[..i + 1][..i] == xs[..i];
  }

  /** When every element gives exactly one piece, the result has one item per element, in place. */
  lemma {:induction false} ConcatMapSingletons<T, U>(xs: seq<T>, f: T -> seq<U>)
    requires forall i :: 0 <= i < |xs| ==> |f(xs[i])| == 1
    ensures |ConcatMap(xs, f)| == |xs|
    ensures forall i :: 0 <= i < |xs| ==> ConcatMap(xs, f)[i] == f(xs[i])[0]
    decreases |xs|
  {
    if xs != [] {
      var init := xs[..|xs| - 1];
      assert forall i :: 0 <= i < |init| ==> init[i] == xs[i];
      ConcatMapSingletons(init, f);
    }
  }

  /**
   * Flattening the pieces of duplicate-free keys, each piece holding only
   * items of its own key, and then picking one key out gives back exactly
   * that key's piece.
   */
  lemma {:induction false} KeyFilterConcatMap<T>(ks: seq<string>, f: string -> seq<T>, key: T -> string, k: string)
    requires Distinct(ks)
    requires forall j, x :: x in f(j) ==> key(x) == j
    ensures KeyFilter(ConcatMap(ks, f), key, k) == if k in ks then f(k) else []
    decreases |ks|
  {
    if ks != [] {
      var init, last := ks[..|ks| - 1], ks[|ks| - 1];
      assert ks == init + [last];
      DistinctInit(ks);
      KeyFilterConcatMap(init, f, key, k);
      KeyFilterConcat(ConcatMap(init, f), f(last), key, k);
      var tail := f(last);
      if k == last {
        assert forall i :: 0 <= i < |tail| ==> key(tail[i]) == k by {
          forall i | 0 <= i < |tail| ensures key(tail[i]) == k {
            assert tail[i] in f(last);
          }
        }
        KeyFilterAll(tail, key, k);
      } else {
        assert forall i :: 0 <= i < |tail| ==> key(tail[i]) != k by {
          forall i | 0 <= i < |tail| ensures key(tail[i]) != k {
            assert tail[i] in f(last);
          }
        }
        KeyFilterNone(tail, key, k);
        assert k in ks <==> k in init;
      }
    }
  }

  /** Everything in the flattened result comes from the piece of some element. */
  lemma {:induction false} ConcatMapMember<T, U>(xs: seq<T>, f: T -> seq<U>, y: U)
    requires y in ConcatMap(xs, f)
    ensures exists i :: 0 <= i < |xs| && y in f(xs[i])
    decreases |xs|
  {
    var init, last := xs[..|xs| - 1], xs[|xs| - 1];
    if y in f(last) {
      assert y in f(xs[|xs| - 1]);
    } else {
      ConcatMapMember(init, f, y);
      var i :| 0 <= i < |init| && y in f(init[i]);
      assert init[i] == xs[i];
    }
  }

  predicate Distinct<K(==)>(ks: seq<K>)
  {
    forall i, j :: 0 <= i < j < |ks| ==> ks[i] != ks[j]
  }

  /** Appending an element not yet listed keeps a listing duplicate-free. */
  lemma DistinctSnoc<K>(s: seq<K>, x: K)
    requires Distinct(s) && x !in s
    ensures Distinct(s + [x])
  {
    var t := s + [x];
    forall a, b | 0 <= a < b < |t|
      ensures t[a] != t[b]
    {
      assert t[a] == s[a];
      if b < |s| {
        assert t[b] == s[b];
      }
    }
  }

  /** Dropping the last element of a duplicate-free listing leaves one without that element. */
  lemma DistinctInit<K>(s: seq<K>)
    requires Distinct(s) && s != []
    ensures Distinct(s[..|s| - 1]) && s[|s| - 1] !in s[..|s| - 1]
  {
    var init := s[..|s| - 1];
    forall a, b | 0 <= a < b < |init|
      ensures init[a] != init[b]
    {
      assert init[a] == s[a] && init[b] == s[b];
    }
    forall a | 0 <= a < |init|
      ensures init[a] != s[|s| - 1]
    {
      assert init[a] == s[a];
    }
  }

  /** The buckets of `items` for the keys `ks`, concatenated in the order of `ks`. */
  function Buckets<T>(items: seq<T>, key: T -> string, ks: seq<string>): seq<T>
    decreases |ks|
  {
    if ks == [] then [] else Buckets(items, key, ks[..|ks| - 1]) + KeyFilter(items, key, ks[|ks| - 1])
  }

  lemma {:induction false} BucketsSnoc<T>(items: seq<T>, x: T, key: T -> string, ks: seq<string>)
    requires Distinct(ks)
    ensures multiset(Buckets(items + [x], key, ks))
            == multiset(Buckets(items, key, ks)) + (if key(x) in ks then multiset{x} else multiset{})
    decreases |ks|
  {
    if ks != [] {
      var init, k := ks[..|ks| - 1], ks[|ks| - 1];
      assert Distinct(init);
      BucketsSnoc(items, x, key, init);
      assert (items + [x])[..|items + [x]| - 1] == items;
      if key(x) == k {
        assert key(x) !in init;
      }
    }
  }

  /**
   * Whatever order the buckets are visited in, together they hold every item
   * exactly once: grouping loses nothing and duplicates nothing.
   */
  lemma {:induction false} BucketsPermutation<T>(items: seq<T>, key: T -> string, ks: seq<string>)
    requires Distinct(ks)
    requires forall i :: 0 <= i < |items| ==> key(items[i]) in ks
    ensures multiset(Buckets(items, key, ks)) == multiset(items)
    ensures |Buckets(items, key, ks)| == |items|
    decreases |items|
  {
    if items == [] {
      BucketsOfEmpty(key, ks);
    } else {
      var init, x := items[..|items| - 1], items[|items| - 1];
      BucketsPermutation(init, key, ks);
      assert init + [x] == items;
      BucketsSnoc(init, x, key, ks);
    }
    assert |multiset(Buckets(items, key, ks))| == |multiset(items)|;
  }

  lemma {:induction false} BucketsOfEmpty<T>(key: T -> string, ks: seq<string>)
    ensures Buckets([], key, ks) == []
    decreases |ks|
  {
    if ks != [] {
      BucketsOfEmpty(key, ks[..|ks| - 1]);
    }
  }

  /**
   * The buckets of a grouping, visited once each in any order, hold as many
   * items as were grouped, and the same items.
   */
  lemma GroupedTotal<T>(items: seq<T>, key: T -> string, ks: seq<string>)
    requires Distinct(ks)
    requires forall k :: k in Grouped(items, key) <==> k in ks
    ensures multiset(Buckets(items, key, ks)) == multiset(items)
    ensures |Buckets(items, key, ks)| == |items|
  {
    GroupedKeys(items, key);
    forall i | 0 <= i < |items|
      ensures key(items[i]) in ks
    {
      assert key(items[i]) in Grouped(items, key);
    }
    BucketsPermutation(items, key, ks);
  }

  // ---------------------------------------------------------------- a loop that can stop

  /**
   * A `for` loop that pushes the `Some` results of `f` and leaves with the
   * first `Err` (`?` inside the loop).
   */
  function TryFilterMap<T, U, E>(xs: seq<T>, f: T --> Result<Option<U>, E>): Result<seq<U>, E>
    requires forall i :: 0 <= i < |xs| ==> f.requires(xs[i])
    decreases |xs|
  {
    if xs == [] then Ok([])
    else
      var init := xs[..|xs| - 1];
      assert forall i :: 0 <= i < |init| ==> init[i] == xs[i];
      match TryFilterMap(init, f)
      case Err(e) => Err(e)
      case Ok(us) =>
        match f(xs[|xs| - 1])
        case Err(e) => Err(e)
        case Ok(o) => Ok(us + (if o.Some? then [o.value] else []))
  }

  /** The loop gets through exactly when no element fails. */
  lemma {:induction false} TryFilterMapOk<T, U, E>(xs: seq<T>, f: T --> Result<Option<U>, E>)
    requires forall i :: 0 <= i < |xs| ==> f.requires(xs[i])
    ensures TryFilterMap(xs, f).Ok? <==> forall i :: 0 <= i < |xs| ==> f(xs[i]).Ok?
    decreases |xs|
  {
    if xs != [] {
      var init := xs[..|xs| - 1];
      assert forall i :: 0 <= i < |init| ==> init[i] == xs[i];
      TryFilterMapOk(init, f);
    }
  }

  /** A loop that gets through holds the pieces `g` gives, where `g` is `f`'s result as a list of at most one. */
  lemma {:induction false} TryFilterMapPieces<T, U, E>(xs: seq<T>, f: T --> Result<Option<U>, E>, g: T -> seq<U>)
    requires forall i :: 0 <= i < |xs| ==> f.requires(xs[i])
    requires forall i :: 0 <= i < |xs| && f(xs[i]).Ok? ==>
               g(xs[i]) == if f(xs[i]).value.Some? then [f(xs[i]).value.value] else []
    requires TryFilterMap(xs, f).Ok?
    ensures TryFilterMap(xs, f).value == ConcatMap(xs, g)
    decreases |xs|
  {
    if xs != [] {
      var init := xs[..|xs| - 1];
      assert forall i :: 0 <= i < |init| ==> init[i] == xs[i];
      TryFilterMapPieces(init, f, g);
      TryFilterMapOk(xs, f);
    }
  }

  /** A loop that stops carries the error of the first element that fails. */
  lemma {:induction false} TryFilterMapErr<T, U, E>(xs: seq<T>, f: T --> Result<Option<U>, E>)
    requires forall i :: 0 <= i < |xs| ==> f.requires(xs[i])
    requires TryFilterMap(xs, f).Err?
    ensures exists i :: 0 <= i < |xs| && f(xs[i]) == Err(TryFilterMap(xs, f).error)
                        && forall j :: 0 <= j < i ==> f(xs[j]).Ok?
    decreases |xs|
  {
    var init := xs[..|xs| - 1];
    assert forall i :: 0 <= i < |init| ==> init[i] == xs[i];
    if TryFilterMap(init, f).Err? {
      TryFilterMapErr(init, f);
      var i :| 0 <= i < |init| && f(init[i]) == Err(TryFilterMap(init, f).error)
               && forall j :: 0 <= j < i ==> f(init[j]).Ok?;
      assert f(xs[i]) == Err(TryFilterMap(xs, f).error);
    } else {
      TryFilterMapOk(init, f);
      assert f(xs[|xs| - 1]) == Err(TryFilterMap(xs, f).error);
    }
  }

  /** One more element after a prefix that got through. */
  lemma TryFilterMapStep<T, U, E>(xs: seq<T>, f: T --> Result<Option<U>, E>, i: nat)
    requires forall j :: 0 <= j < |xs| ==> f.requires(xs[j])
    requires i < |xs| && TryFilterMap(xs[..i], f).Ok?
    ensures f(xs[i]).Err? ==> TryFilterMap(xs[..i + 1], f) == Err(f(xs[i]).error)
    ensures f(xs[i]) == Ok(None) ==> TryFilterMap(xs[..i + 1], f) == TryFilterMap(xs[..i], f)
    ensures f(xs[i]).Ok? && f(xs[i]).value.Some? ==>
              TryFilterMap(xs[..i + 1], f) == Ok(TryFilterMap(xs[..i], f).value + [f(xs[i]).value.value])
  {
    var p := xs[..i + 1];
    assert p[..|p| - 1] == xs[..i] && p[|p| - 1] == xs[i];
    assert TryFilterMap(p, f) ==
             match f(xs[i])
             case Err(e) => Err(e)
             case Ok(o) => Ok(TryFilterMap(xs[..i], f).value + (if o.Some? then [o.value] else []));
    var us := TryFilterMap(xs[..i], f).value;
    assert us + [] == us;
  }

  /** Once a prefix stops, the whole loop stops with the same error. */
  lemma {:induction false} TryFilterMapStops<T, U, E>(xs: seq<T>, f: T --> Result<Option<U>, E>, n: nat)
    requires forall j :: 0 <= j < |xs| ==> f.requires(xs[j])
    requires n <= |xs| && TryFilterMap(xs[..n], f).Err?
    ensures TryFilterMap(xs, f) == TryFilterMap(xs[..n], f)
    decreases |xs| - n
  {
    if n < |xs| {
      assert xs[..n + 1][..n] == xs[..n];
      TryFilterMapStops(xs, f, n + 1);
    } else {
      assert xs[..n] == xs;
    }
  }

  /** The loop itself: it leaves with the first error, and otherwise returns everything it pushed. */
  method TryFilterMapLoop<T, U, E>(xs: seq<T>, f: T --> Result<Option<U>, E>) returns (r: Result<seq<U>, E>)
    requires forall i :: 0 <= i < |xs| ==> f.requires(xs[i])
    ensures r == TryFilterMap(xs, f)
  {
    var pushed: seq<U> := [];
    for i := 0 to |xs|
      invariant TryFilterMap(xs[..i], f) == Ok(pushed)
    {
      TryFilterMapStep(xs, f, i);
      var one := f(xs[i]);
      if one.Err? {
        TryFilterMapStops(xs, f, i + 1);
        return Err(one.error);
      }
      if one.value.Some? {
        pushed := pushed + [one.value.value];
      } else {
        assert one == Ok(None);
      }
    }
    assert xs[..|xs|] == xs;
    r := Ok(pushed);
  }
}
