/**
 * The channel filter: `channels.filter(...)` with the search, bundle and
 * category tests, re-evaluated from the full list on every change.
 */
module Directory {
  import opened Wrappers
  import opened Text
  import opened Channels

  /** The selector value that switches the bundle or category test off. */
  const All: string := "All"

  /** The query as it is compared: lower-cased, then trimmed. */
  function NormalizedQuery(searchQuery: string): (r: string)
    ensures |r| <= |searchQuery|
    ensures forall i :: 0 <= i < |r| ==> !IsAsciiUpper(r[i])
    ensures r == [] || (!IsWhitespace(r[0]) && !IsWhitespace(r[|r| - 1]))
  {
    Trim(ToLower(searchQuery))
  }

  /**
   * The filter predicate, written as the source writes it: three early rejections,
   * then acceptance.
   */
  predicate Keep(c: Channel, searchQuery: string, selectedBundle: string, selectedCategory: string) {
    if !SearchPasses(c, searchQuery) then false
    else if !BundlePasses(c, selectedBundle) then false
    else if !CategoryPasses(c, selectedCategory) then false
    else true
  }

  /** The search test: a non-empty query must occur in the lower-cased name or number. */
  predicate SearchPasses(c: Channel, searchQuery: string) {
    var query := NormalizedQuery(searchQuery);
    var name := ToLower(StrOr(c.name, ""));
    var num := ToLower(StrOr(Some(c.number), ""));
    !(query != "" && !Contains(name, query) && !Contains(num, query))
  }

  /** The bundle test. */
  predicate BundlePasses(c: Channel, selectedBundle: string) {
    !(selectedBundle != All && !Contains(c.bundles, selectedBundle))
  }

  /** The category test. */
  predicate CategoryPasses(c: Channel, selectedCategory: string) {
    !(selectedCategory != All && c.category != Some(selectedCategory))
  }

  /** The three tests as independent conditions, with substring containment by its definition. */
  ghost predicate SearchCondition(c: Channel, searchQuery: string) {
    var query := NormalizedQuery(searchQuery);
    query == []
    || IsSubstring(query, ToLower(c.name.GetOr("")))
    || IsSubstring(query, ToLower(c.number))
  }

  ghost predicate BundleCondition(c: Channel, selectedBundle: string) {
    selectedBundle == All || IsSubstring(selectedBundle, c.bundles)
  }

  ghost predicate CategoryCondition(c: Channel, selectedCategory: string) {
    selectedCategory == All || c.category == Some(selectedCategory)
  }

  /** A channel survives exactly when all three conditions hold. */
  lemma KeepIff(c: Channel, searchQuery: string, selectedBundle: string, selectedCategory: string)
    ensures Keep(c, searchQuery, selectedBundle, selectedCategory) <==>
      (SearchCondition(c, searchQuery)
       && BundleCondition(c, selectedBundle)
       && CategoryCondition(c, selectedCategory))
  {
    var query := NormalizedQuery(searchQuery);
    var name := ToLower(StrOr(c.name, ""));
    assert name == ToLower(c.name.GetOr(""));
    ContainsIff(name, query);
    ContainsIff(ToLower(c.number), query);
    ContainsIff(c.bundles, selectedBundle);
  }

  /** `Array.prototype.filter` over a channel list: the channels passing `p`, in order. */
  function FilterBy(cs: seq<Channel>, p: Channel -> bool): (r: seq<Channel>)
    ensures |r| <= |cs|
    ensures forall i :: 0 <= i < |r| ==> r[i] in cs && p(r[i])
    decreases |cs|
  {
    if cs == [] then []
    else
      var rest := FilterBy(cs[1..], p);
      if p(cs[0]) then [cs[0]] + rest else rest
  }

  /** The callback handed to `channels.filter`, for the current query and selections. */
  function Matches(searchQuery: string, selectedBundle: string, selectedCategory: string): Channel -> bool {
    c => Keep(c, searchQuery, selectedBundle, selectedCategory)
  }

  /** `filteredChannels`. */
  function Filter(cs: seq<Channel>, searchQuery: string, selectedBundle: string, selectedCategory: string): (r: seq<Channel>)
    ensures |r| <= |cs|
    ensures forall i :: 0 <= i < |r| ==> r[i] in cs && Keep(r[i], searchQuery, selectedBundle, selectedCategory)
  {
    FilterBy(cs, Matches(searchQuery, selectedBundle, selectedCategory))
  }

  /** `r` is the subsequence of `s` at the strictly increasing positions `idx`. */
  ghost predicate SubsequenceAt(r: seq<Channel>, s: seq<Channel>, idx: seq<int>) {
    |idx| == |r|
    && (forall k :: 0 <= k < |idx| ==> 0 <= idx[k] < |s| && r[k] == s[idx[k]])
    && (forall k, l :: 0 <= k < l < |idx| ==> idx[k] < idx[l])
  }

  /**
   * The result of `FilterBy` is the subsequence of the input at exactly the
   * positions whose element passes, in their original order.
   */
  lemma {:induction false} FilterByPositions(cs: seq<Channel>, p: Channel -> bool) returns (idx: seq<int>)
    ensures SubsequenceAt(FilterBy(cs, p), cs, idx)
    ensures forall j :: 0 <= j < |cs| ==> (j in idx <==> p(cs[j]))
    decreases |cs|
  {
    if cs == [] {
      idx := [];
    } else {
      var rest := FilterBy(cs[1..], p);
      var tail := FilterByPositions(cs[1..], p);
      idx := ExtendPositions(cs, rest, tail, p(cs[0]));
      assert FilterBy(cs, p) == if p(cs[0]) then [cs[0]] + rest else rest;
      forall j | 1 <= j < |cs| ensures j in idx <==> p(cs[j]) {
        assert cs[j] == cs[1..][j - 1];
      }
    }
  }

  /**
   * From the positions of `rest` within `cs[1..]`, the positions of `rest`
   * (or of `[cs[0]] + rest` when `take` holds) within `cs`.
   */
  lemma ExtendPositions(cs: seq<Channel>, rest: seq<Channel>, tail: seq<int>, take: bool) returns (idx: seq<int>)
    requires |cs| > 0 && SubsequenceAt(rest, cs[1..], tail)
    ensures SubsequenceAt(if take then [cs[0]] + rest else rest, cs, idx)
    ensures 0 in idx <==> take
    ensures forall j :: 1 <= j < |cs| ==> (j in idx <==> j - 1 in tail)
  {
    var shifted := ShiftPositions(cs, rest, tail);
    if take {
      idx := [0] + shifted;
      var r := [cs[0]] + rest;
      forall k | 0 < k < |idx| ensures 0 < idx[k] < |cs| && r[k] == cs[idx[k]] {
        assert idx[k] == shifted[k - 1] && r[k] == rest[k - 1];
      }
      forall k, l | 0 <= k < l < |idx| ensures idx[k] < idx[l] {
        assert idx[l] == shifted[l - 1];
        if k > 0 {
          assert idx[k] == shifted[k - 1];
        }
      }
      assert forall j :: j in idx <==> j == 0 || j in shifted;
    } else {
      idx := shifted;
    }
  }

  /** The positions of `rest` within `cs[1..]`, moved one place to the right, are its positions within `cs`. */
  lemma ShiftPositions(cs: seq<Channel>, rest: seq<Channel>, tail: seq<int>) returns (shifted: seq<int>)
    requires |cs| > 0 && SubsequenceAt(rest, cs[1..], tail)
    ensures SubsequenceAt(rest, cs, shifted)
    ensures forall k :: 0 <= k < |shifted| ==> shifted[k] > 0
    ensures forall j :: 1 <= j < |cs| ==> (j in shifted <==> j - 1 in tail)
  {
    shifted := seq(|tail|, k requires 0 <= k < |tail| => tail[k] + 1);
    forall k | 0 <= k < |shifted| ensures rest[k] == cs[shifted[k]] {
      assert cs[1..][tail[k]] == cs[tail[k] + 1];
    }
    forall j | 1 <= j < |cs| ensures j in shifted <==> j - 1 in tail {
      if j - 1 in tail {
        var k :| 0 <= k < |tail| && tail[k] == j - 1;
        assert shifted[k] == j;
      }
    }
  }

  /** The filtered channel list is the input at exactly the passing positions, in order. */
  lemma FilterPositions(cs: seq<Channel>, q: string, b: string, cat: string) returns (idx: seq<int>)
    ensures SubsequenceAt(Filter(cs, q, b, cat), cs, idx)
    ensures forall j :: 0 <= j < |cs| ==> (j in idx <==> Keep(cs[j], q, b, cat))
  {
    idx := FilterByPositions(cs, Matches(q, b, cat));
  }

  /** How often an element occurs in the result of `FilterBy`: as in the input if it passes, else never. */
  lemma {:induction false} FilterByCounts(cs: seq<Channel>, p: Channel -> bool, x: Channel)
    ensures multiset(FilterBy(cs, p))[x] == if p(x) then multiset(cs)[x] else 0
    decreases |cs|
  {
    if cs != [] {
      FilterByCounts(cs[1..], p, x);
      assert cs == [cs[0]] + cs[1..];
    }
  }

  /** The filter never duplicates a channel: each passing one appears exactly as often as in the input. */
  lemma FilterCounts(cs: seq<Channel>, q: string, b: string, cat: string, x: Channel)
    ensures multiset(Filter(cs, q, b, cat))[x] == if Keep(x, q, b, cat) then multiset(cs)[x] else 0
  {
    FilterByCounts(cs, Matches(q, b, cat), x);
  }

  /** A channel is in the result exactly when it is in the input and passes the filter. */
  lemma FilterMembership(cs: seq<Channel>, q: string, b: string, cat: string, x: Channel)
    ensures x in Filter(cs, q, b, cat) <==> x in cs && Keep(x, q, b, cat)
  {
    FilterCounts(cs, q, b, cat, x);
  }

  /** A list whose every element passes comes out of `FilterBy` unchanged. */
  lemma {:induction false} FilterByKeepsAllPassing(cs: seq<Channel>, p: Channel -> bool)
    requires forall i :: 0 <= i < |cs| ==> p(cs[i])
    ensures FilterBy(cs, p) == cs
    decreases |cs|
  {
    if cs != [] {
      FilterByKeepsAllPassing(cs[1..], p);
    }
  }

  /** A channel list whose every channel passes is shown unchanged. */
  lemma FilterKeepsAllPassing(cs: seq<Channel>, q: string, b: string, cat: string)
    requires forall i :: 0 <= i < |cs| ==> Keep(cs[i], q, b, cat)
    ensures Filter(cs, q, b, cat) == cs
  {
    FilterByKeepsAllPassing(cs, Matches(q, b, cat));
  }

  /** Filtering the filtered list again with the same selections changes nothing. */
  lemma FilterIdempotent(cs: seq<Channel>, q: string, b: string, cat: string)
    ensures Filter(Filter(cs, q, b, cat), q, b, cat) == Filter(cs, q, b, cat)
  {
    FilterKeepsAllPassing(Filter(cs, q, b, cat), q, b, cat);
  }

  /** An empty or whitespace-only query passes every channel. */
  lemma BlankQueryMatchesAll(c: Channel, searchQuery: string)
    requires AllWhitespace(searchQuery)
    ensures NormalizedQuery(searchQuery) == []
    ensures Keep(c, searchQuery, All, All)
  {
    TrimEmptyIff(ToLower(searchQuery));
  }

  /** With both selectors on "All" and a blank query, the whole list is shown. */
  lemma BlankFilterShowsEverything(cs: seq<Channel>, searchQuery: string)
    requires AllWhitespace(searchQuery)
    ensures Filter(cs, searchQuery, All, All) == cs
  {
    forall i | 0 <= i < |cs| ensures Keep(cs[i], searchQuery, All, All) {
      BlankQueryMatchesAll(cs[i], searchQuery);
    }
    FilterKeepsAllPassing(cs, searchQuery, All, All);
  }

  /** A query that is not blank is really tested: it trims to something non-empty. */
  lemma QueryBlankIff(searchQuery: string)
    ensures NormalizedQuery(searchQuery) == [] <==> AllWhitespace(searchQuery)
  {
    TrimEmptyIff(ToLower(searchQuery));
    assert AllWhitespace(ToLower(searchQuery)) <==> AllWhitespace(searchQuery);
  }

  /** Search ignores ASCII case in the query. */
  lemma SearchIgnoresQueryCase(c: Channel, searchQuery: string, b: string, cat: string)
    ensures Keep(c, searchQuery, b, cat) == Keep(c, ToLower(searchQuery), b, cat)
  {
    ToLowerIdempotent(searchQuery);
  }

  /** Search ignores ASCII case in the channel name. */
  lemma SearchIgnoresNameCase(c: Channel, q: string, b: string, cat: string)
    requires c.name.Some?
    ensures Keep(c, q, b, cat) == Keep(c.(name := Some(ToLower(c.name.value))), q, b, cat)
  {
    ToLowerIdempotent(c.name.value);
  }

  /** Filtering by `p` is filtering by `p1` and then by `p2` when `p` is their conjunction. */
  lemma {:induction false} FilterByComposes(cs: seq<Channel>, p: Channel -> bool, p1: Channel -> bool, p2: Channel -> bool)
    requires forall x :: p(x) == (p1(x) && p2(x))
    ensures FilterBy(cs, p) == FilterBy(FilterBy(cs, p1), p2)
    decreases |cs|
  {
    if cs != [] {
      FilterByComposes(cs[1..], p, p1, p2);
    }
  }

  /** The three tests are independent: filtering by all three is filtering by each in turn. */
  lemma FilterComposes(cs: seq<Channel>, q: string, b: string, cat: string)
    ensures Filter(cs, q, b, cat) == Filter(Filter(Filter(cs, q, All, All), "", b, All), "", All, cat)
  {
    forall x ensures Keep(x, q, b, cat) == (Keep(x, q, All, All) && Keep(x, "", b, All) && Keep(x, "", All, cat)) {
      KeepSplits(x, q, b, cat);
    }
    var both := (x: Channel) => Keep(x, q, All, All) && Keep(x, "", b, All);
    FilterByComposes(cs, Matches(q, b, cat), both, Matches("", All, cat));
    FilterByComposes(cs, both, Matches(q, All, All), Matches("", b, All));
  }

  lemma KeepSplits(c: Channel, q: string, b: string, cat: string)
    ensures Keep(c, q, b, cat) <==> Keep(c, q, All, All) && Keep(c, "", b, All) && Keep(c, "", All, cat)
  {
    assert NormalizedQuery("") == [];
  }

  // ---------------------------------------------------------------------
  // Worked examples
  // ---------------------------------------------------------------------

  /** A sports channel carried in bundles 1 and 3. */
  function Tsn(): Channel {
    Channel(1, Some("TSN"), "502", Some("Sports"), "Bundle 1,Bundle 3", true, 5, Some(NoAddOn), 0)
  }

  /** A query with no capital and no surrounding whitespace is compared as it is. */
  lemma PlainQuery(q: string)
    requires |q| > 0 && !IsWhitespace(q[0]) && !IsWhitespace(q[|q| - 1])
    requires forall i :: 0 <= i < |q| ==> !IsAsciiUpper(q[i])
    ensures NormalizedQuery(q) == q
  {
    ToLowerIdentity(q);
    TrimExact(q, 0, |q|);
  }

  /** Search is case-insensitive, trims the query, and also looks at the number. */
  lemma TsnSearch()
    ensures Keep(Tsn(), "tsn", All, All)
    ensures Keep(Tsn(), "  TsN ", All, All)
    ensures Keep(Tsn(), "50", All, All)
    ensures !Keep(Tsn(), "cnn", All, All)
  {
    TsnByName();
    TsnByPaddedName();
    TsnByNumber();
    TsnNotByOtherName();
  }

  lemma TsnByName()
    ensures SearchPasses(Tsn(), "tsn")
  {
    PlainQuery("tsn");
    TsnByNormalizedName("tsn");
  }

  lemma TsnByNormalizedName(q: string)
    requires NormalizedQuery(q) == "tsn"
    ensures SearchPasses(Tsn(), q)
  {
    assert ToLower("TSN") == "tsn";
  }

  lemma TsnByPaddedName()
    ensures SearchPasses(Tsn(), "  TsN ")
  {
    PaddedQuery();
    TsnByNormalizedName("  TsN ");
  }

  lemma PaddedQuery()
    ensures NormalizedQuery("  TsN ") == "tsn"
  {
    PaddedQueryOf("  TsN ");
  }

  // The example strings are passed as parameters so that the verifier does not
  // unfold the recursive string functions on literals without bound.
  lemma PaddedQueryOf(q: string)
    requires q == "  TsN "
    ensures NormalizedQuery(q) == "tsn"
  {
    LowerPaddedQuery(q);
    TrimPaddedQuery(ToLower(q));
  }

  lemma LowerPaddedQuery(q: string)
    requires q == "  TsN "
    ensures ToLower(q) == "  tsn "
  {
  }

  lemma TrimPaddedQuery(l: string)
    requires l == "  tsn "
    ensures Trim(l) == "tsn"
  {
    TrimExact(l, 2, 5);
  }

  lemma TsnByNumber()
    ensures SearchPasses(Tsn(), "50")
  {
    PlainQuery("50");
    assert "50" <= "502";
  }

  lemma TsnNotByOtherName()
    ensures !SearchPasses(Tsn(), "cnn")
  {
    PlainQuery("cnn");
    NotContained("tsn", "cnn", 0);
    NotContained("502", "cnn", 0);
  }

  /** The bundle test is case-sensitive substring containment. */
  lemma TsnBundles()
    ensures Keep(Tsn(), "tsn", "Bundle 3", All)
    ensures Keep(Tsn(), "", "Bundle 1", All)
    ensures !Keep(Tsn(), "tsn", "Bundle 2", All)
    ensures !Keep(Tsn(), "", "bundle 1", All)
  {
    TsnByName();
    assert SearchPasses(Tsn(), "") by {
      assert NormalizedQuery("") == "";
    }
    TsnInBundles();
  }

  lemma TsnInBundles()
    ensures BundlePasses(Tsn(), "Bundle 1")
    ensures BundlePasses(Tsn(), "Bundle 3")
    ensures !BundlePasses(Tsn(), "Bundle 2")
    ensures !BundlePasses(Tsn(), "bundle 1")
  {
    TsnBundleText();
  }

  lemma TsnBundleText()
    ensures Contains("Bundle 1,Bundle 3", "Bundle 1")
    ensures Contains("Bundle 1,Bundle 3", "Bundle 3")
    ensures !Contains("Bundle 1,Bundle 3", "Bundle 2")
    ensures !Contains("Bundle 1,Bundle 3", "bundle 1")
  {
    BundleTextOf("Bundle 1,Bundle 3");
  }

  lemma BundleTextOf(s: string)
    requires s == "Bundle 1,Bundle 3"
    ensures Contains(s, "Bundle 1")
    ensures Contains(s, "Bundle 3")
    ensures !Contains(s, "Bundle 2")
    ensures !Contains(s, "bundle 1")
  {
    ContainsAt(s, "Bundle 1", 0);
    ContainsAt(s, "Bundle 3", 9);
    NotContained(s, "Bundle 2", 7);
    NotContained(s, "bundle 1", 0);
  }

  /** The category test is exact equality, not containment. */
  lemma TsnCategory()
    ensures Keep(Tsn(), "", All, "Sports")
    ensures !Keep(Tsn(), "", All, "Sport")
    ensures !Keep(Tsn(), "", All, "sports")
  {
    assert NormalizedQuery("") == "";
  }
}
