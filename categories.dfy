/**
 * The category selector's values:
 * `[...new Set(channels.map((c) => c.category))].filter(Boolean).sort()`.
 */
module Categories {
  import opened Wrappers
  import opened Text
  import opened Channels
  import opened Directory

  predicate NoDuplicates<T(==)>(s: seq<T>) {
    forall i, j :: 0 <= i < j < |s| ==> s[i] != s[j]
  }

  /** `channels.map((c) => c.category)`. */
  function CategoryValues(cs: seq<Channel>): (r: seq<Option<string>>)
    ensures |r| == |cs|
    ensures forall i :: 0 <= i < |cs| ==> r[i] == cs[i].category
  {
    seq(|cs|, i requires 0 <= i < |cs| => cs[i].category)
  }

  // ---------------------------------------------------------------------
  // new Set(...)
  // ---------------------------------------------------------------------

  /** `[...new Set(xs)]`: each value once, at the place of its first occurrence. */
  function Distinct(xs: seq<Option<string>>): (r: seq<Option<string>>)
    ensures NoDuplicates(r)
    ensures forall x :: x in r <==> x in xs
    decreases |xs|
  {
    if xs == [] then []
    else
      var d := Distinct(xs[..|xs| - 1]);
      var x := xs[|xs| - 1];
      assert xs == xs[..|xs| - 1] + [x];
      if x in d then d else d + [x]
  }

  // ---------------------------------------------------------------------
  // .filter(Boolean)
  // ---------------------------------------------------------------------

  /** The truthy values: present and non-empty category strings, in order. */
  function Present(xs: seq<Option<string>>): (r: seq<string>)
    ensures forall s :: s in r <==> s != "" && Some(s) in xs
    ensures NoDuplicates(xs) ==> NoDuplicates(r)
    decreases |xs|
  {
    if xs == [] then []
    else
      var rest := Present(xs[1..]);
      assert NoDuplicates(xs) ==> NoDuplicates(xs[1..]) && xs[0] !in xs[1..];
      if TruthyStr(xs[0]) then [xs[0].value] + rest else rest
  }

  // ---------------------------------------------------------------------
  // .sort()
  // ---------------------------------------------------------------------

  predicate Sorted(s: seq<string>) {
    forall i, j :: 0 <= i < j < |s| ==> LexLessEq(s[i], s[j])
  }

  /** Places `x` into the sorted list `s`. */
  function Insert(x: string, s: seq<string>): (r: seq<string>)
    requires Sorted(s)
    ensures Sorted(r)
    ensures multiset(r) == multiset(s) + multiset{x}
    decreases |s|
  {
    if s == [] then [x]
    else if LexLessEq(x, s[0]) then
      InsertFrontSorted(x, s);
      [x] + s
    else
      LexTotal(x, s[0]);
      var rest := Insert(x, s[1..]);
      ConsMultiset(s[0], s[1..], rest, x);
      assert s == [s[0]] + s[1..];
      assert multiset(rest) == multiset(s[1..]) + multiset{x};
      InsertAfterSorted(s[0], s[1..], x, rest);
      [s[0]] + rest
  }

  lemma ConsMultiset(y: string, t: seq<string>, rest: seq<string>, x: string)
    requires multiset(rest) == multiset(t) + multiset{x}
    ensures multiset([y] + rest) == multiset([y] + t) + multiset{x}
  {
  }

  lemma InsertFrontSorted(x: string, s: seq<string>)
    requires Sorted(s) && s != [] && LexLessEq(x, s[0])
    ensures Sorted([x] + s)
  {
    forall j | 0 < j < |s| ensures LexLessEq(x, s[j]) {
      LexTransitive(x, s[0], s[j]);
    }
  }

  lemma InsertAfterSorted(y: string, s: seq<string>, x: string, rest: seq<string>)
    requires Sorted(s) && (s != [] ==> LexLessEq(y, s[0])) && LexLessEq(y, x) && Sorted(rest)
    requires multiset(rest) == multiset(s) + multiset{x}
    ensures Sorted([y] + rest)
  {
    forall j | 0 <= j < |rest| ensures LexLessEq(y, rest[j]) {
      assert rest[j] in multiset(rest);
      if rest[j] != x {
        assert rest[j] in multiset(s);
        LeastIsHead(s, rest[j]);
        LexTransitive(y, s[0], rest[j]);
      }
    }
  }

  /** Insertion sort under the lexicographic order. */
  function Sort(s: seq<string>): (r: seq<string>)
    ensures Sorted(r)
    ensures multiset(r) == multiset(s)
    decreases |s|
  {
    if s == [] then []
    else
      assert s == [s[0]] + s[1..];
      Insert(s[0], Sort(s[1..]))
  }

  /**
   * A sorted arrangement of a multiset is unique, so any correct sort of the same
   * values yields exactly `Sort`'s result.
   */
  lemma {:induction false} SortedUnique(a: seq<string>, b: seq<string>)
    requires Sorted(a) && Sorted(b) && multiset(a) == multiset(b)
    ensures a == b
    decreases |a|
  {
    if a == [] {
      assert |b| == |multiset(b)| == 0;
    } else {
      SortedSameHead(a, b);
      SameTailMultiset(a, b);
      SortedUnique(a[1..], b[1..]);
      assert a == [a[0]] + a[1..] && b == [b[0]] + b[1..];
    }
  }

  /** Two sorted arrangements of one multiset start with the same, least, value. */
  lemma SortedSameHead(a: seq<string>, b: seq<string>)
    requires Sorted(a) && Sorted(b) && multiset(a) == multiset(b) && a != []
    ensures b != [] && a[0] == b[0]
  {
    assert a[0] in multiset(b);
    assert b[0] in multiset(a);
    LeastIsHead(a, b[0]);
    LeastIsHead(b, a[0]);
    LexAntisymmetric(a[0], b[0]);
  }

  /** The head of a sorted list is below each of its elements. */
  lemma LeastIsHead(a: seq<string>, x: string)
    requires Sorted(a) && x in a
    ensures LexLessEq(a[0], x)
  {
    var k :| 0 <= k < |a| && a[k] == x;
    if k == 0 {
      LexReflexive(x);
    }
  }

  lemma SameTailMultiset(a: seq<string>, b: seq<string>)
    requires a != [] && b != [] && a[0] == b[0] && multiset(a) == multiset(b)
    ensures multiset(a[1..]) == multiset(b[1..])
  {
    assert a == [a[0]] + a[1..] && b == [b[0]] + b[1..];
    assert multiset(a[1..]) == multiset(a) - multiset{a[0]};
    assert multiset(b[1..]) == multiset(b) - multiset{a[0]};
  }

  /** Sorting a list without duplicates leaves it without duplicates. */
  lemma SortKeepsDistinct(s: seq<string>)
    requires NoDuplicates(s)
    ensures NoDuplicates(Sort(s))
  {
    var r := Sort(s);
    forall i, j | 0 <= i < j < |r| ensures r[i] != r[j] {
      if r[i] == r[j] {
        RepeatCountsTwo(r, i, j);
        DistinctCountsOne(s, r[i]);
      }
    }
  }

  /** A value at two positions occurs at least twice. */
  lemma RepeatCountsTwo(r: seq<string>, i: int, j: int)
    requires 0 <= i < j < |r| && r[i] == r[j]
    ensures multiset(r)[r[i]] >= 2
  {
    var x := r[i];
    assert r == r[..j] + r[j..];
    assert multiset(r) == multiset(r[..j]) + multiset(r[j..]);
    assert r[..j][i] == x;
    assert r[j..][0] == x;
    assert x in multiset(r[..j]) && x in multiset(r[j..]);
  }

  /** In a list without duplicates a value occurs at most once. */
  lemma {:induction false} DistinctCountsOne(s: seq<string>, x: string)
    requires NoDuplicates(s)
    ensures multiset(s)[x] <= 1
    decreases |s|
  {
    if s != [] {
      assert s == [s[0]] + s[1..];
      assert NoDuplicates(s[1..]);
      DistinctCountsOne(s[1..], x);
      if s[0] == x {
        assert x !in s[1..];
      }
    }
  }

  // ---------------------------------------------------------------------
  // The derived list
  // ---------------------------------------------------------------------

  /** `categories`: distinct, non-empty, sorted category strings. */
  function DerivedCategories(cs: seq<Channel>): seq<string> {
    Sort(Present(Distinct(CategoryValues(cs))))
  }

  /** Strictly ascending: sorted and without repeats. */
  predicate StrictlyAscending(s: seq<string>) {
    forall i, j :: 0 <= i < j < |s| ==> LexLessEq(s[i], s[j]) && s[i] != s[j]
  }

  /** Some loaded channel has category `s`. */
  predicate HasCategory(cs: seq<Channel>, s: string) {
    exists i :: 0 <= i < |cs| && cs[i].category == Some(s)
  }

  /**
   * The derived categories are strictly ascending (so sorted and duplicate-free),
   * never contain the empty string, and contain a string exactly when it is
   * non-empty and some channel has it as its category.
   */
  lemma DerivedCategoriesSpec(cs: seq<Channel>)
    ensures StrictlyAscending(DerivedCategories(cs))
    ensures NoDuplicates(DerivedCategories(cs))
    ensures "" !in DerivedCategories(cs)
    ensures forall s :: s in DerivedCategories(cs) <==> s != "" && HasCategory(cs, s)
  {
    var values := CategoryValues(cs);
    var present := Present(Distinct(values));
    var r := Sort(present);
    SortKeepsDistinct(present);
    forall s ensures s in r <==> s != "" && HasCategory(cs, s) {
      assert s in r <==> s in multiset(present);
      if HasCategory(cs, s) {
        var i :| 0 <= i < |cs| && cs[i].category == Some(s);
        assert values[i] == Some(s);
      }
    }
  }

  /** Each category shared by several channels is listed exactly once. */
  lemma SharedCategoryListedOnce(cs: seq<Channel>, s: string)
    requires s != "" && HasCategory(cs, s)
    ensures multiset(DerivedCategories(cs))[s] == 1
  {
    DerivedCategoriesSpec(cs);
    DistinctCountsOne(DerivedCategories(cs), s);
  }

  /** The category list depends on the loaded channels only, and not on their order. */
  lemma DerivedCategoriesIgnoreOrder(cs: seq<Channel>, ds: seq<Channel>)
    requires forall c :: c in cs <==> c in ds
    ensures DerivedCategories(cs) == DerivedCategories(ds)
  {
    DerivedCategoriesSpec(cs);
    DerivedCategoriesSpec(ds);
    var a, b := DerivedCategories(cs), DerivedCategories(ds);
    forall s ensures HasCategory(cs, s) <==> HasCategory(ds, s) {
      if HasCategory(cs, s) {
        var i :| 0 <= i < |cs| && cs[i].category == Some(s);
        assert cs[i] in ds;
      }
      if HasCategory(ds, s) {
        var i :| 0 <= i < |ds| && ds[i].category == Some(s);
        assert ds[i] in cs;
      }
    }
    DistinctSameMultiset(a, b);
    SortedUnique(a, b);
  }

  /** Two duplicate-free lists with the same elements have the same multiset. */
  lemma DistinctSameMultiset(a: seq<string>, b: seq<string>)
    requires NoDuplicates(a) && NoDuplicates(b)
    requires forall x :: x in a <==> x in b
    ensures multiset(a) == multiset(b)
  {
    forall x ensures multiset(a)[x] == multiset(b)[x] {
      DistinctCountsOne(a, x);
      DistinctCountsOne(b, x);
      assert x in a <==> x in multiset(a);
      assert x in b <==> x in multiset(b);
    }
  }

  /**
   * Choosing any offered category, with a blank query and all bundles, shows at
   * least one channel, and only channels of that category.
   */
  lemma OfferedCategoryShowsChannels(cs: seq<Channel>, cat: string)
    requires cat in DerivedCategories(cs) && cat != All
    ensures Filter(cs, "", All, cat) != []
    ensures forall c :: c in Filter(cs, "", All, cat) <==> c in cs && c.category == Some(cat)
  {
    DerivedCategoriesSpec(cs);
    assert NormalizedQuery("") == [];
    var i :| 0 <= i < |cs| && cs[i].category == Some(cat);
    forall c ensures c in Filter(cs, "", All, cat) <==> c in cs && c.category == Some(cat) {
      FilterMembership(cs, "", All, cat, c);
    }
    assert cs[i] in Filter(cs, "", All, cat);
  }
}
