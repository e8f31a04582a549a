/**
 * What the page shows for the filtered list: the result-count line, the
 * "no channels" state, and per card the bundle badges, the a-la-carte cell and
 * the add-on row. Only the show/hide decisions and the shown values are modelled.
 */
module Display {
  import opened Wrappers
  import opened Text
  import opened Channels
  import opened Directory
  import opened Categories

  // ---------------------------------------------------------------------
  // Result count
  // ---------------------------------------------------------------------

  /** The line under the filters. */
  function CountLabel(loading: bool, count: nat): string {
    if loading then "Connecting to Database..."
    else "Showing " + NatToDecimal(count) + " channel" + (if count != 1 then "s" else "")
  }

  /** The longest prefix of `s` made of decimal digits. */
  function LeadingDigits(s: string): (r: string)
    ensures r <= s
    ensures forall i :: 0 <= i < |r| ==> IsDigit(r[i])
    decreases |s|
  {
    if s != [] && IsDigit(s[0]) then [s[0]] + LeadingDigits(s[1..]) else []
  }

  lemma {:induction false} LeadingDigitsOf(d: string, rest: string)
    requires forall i :: 0 <= i < |d| ==> IsDigit(d[i])
    requires rest == [] || !IsDigit(rest[0])
    ensures LeadingDigits(d + rest) == d
    decreases |d|
  {
    if d != [] {
      assert (d + rest)[1..] == d[1..] + rest;
      LeadingDigitsOf(d[1..], rest);
    }
  }

  /**
   * Once loaded, the line starts with "Showing ", the number after it reads back as
   * the count, and it ends in the plural "s" exactly when the count is not 1.
   */
  lemma CountLabelMeaning(count: nat)
    ensures "Showing " <= CountLabel(false, count)
    ensures DecimalValue(LeadingDigits(CountLabel(false, count)[8..])) == count
    ensures var r := CountLabel(false, count); r[|r| - 1] == 's' <==> count != 1
    ensures count == 1 ==> CountLabel(false, count) == "Showing 1 channel"
  {
    var d := NatToDecimal(count);
    var tail := " channel" + (if count != 1 then "s" else "");
    var r := CountLabel(false, count);
    assert r == "Showing " + (d + tail);
    assert r[8..] == d + tail;
    LeadingDigitsOf(d, tail);
    DecimalRoundTrip(count);
  }

  /** The "No channels found" panel: loaded, and nothing passes the filter. */
  predicate ShowsNoResults(loading: bool, shown: seq<Channel>) {
    !loading && |shown| == 0
  }

  /** The panel appears exactly when no loaded channel passes the current filter. */
  lemma NoResultsIff(cs: seq<Channel>, q: string, b: string, cat: string)
    ensures ShowsNoResults(false, Filter(cs, q, b, cat)) <==> forall c :: c in cs ==> !Keep(c, q, b, cat)
  {
    var r := Filter(cs, q, b, cat);
    forall c ensures c in r <==> c in cs && Keep(c, q, b, cat) {
      FilterMembership(cs, q, b, cat, c);
    }
    if r != [] {
      assert r[0] in r;
    }
  }

  /** A failed load leaves the list empty: the panel shows whatever the selections. */
  lemma FailedLoadShowsNoResults(q: string, b: string, cat: string)
    ensures ShowsNoResults(false, Filter([], q, b, cat))
    ensures CountLabel(false, |Filter([], q, b, cat)|) == "Showing 0 channels"
  {
  }

  // ---------------------------------------------------------------------
  // Bundle badges
  // ---------------------------------------------------------------------

  datatype Badge = B1 | B2 | B3 | AddOnOnly

  /** The badges of a card, in the order they are rendered. */
  function Badges(c: Channel): seq<Badge> {
    (if Contains(c.bundles, "Bundle 1") then [B1] else [])
    + (if Contains(c.bundles, "Bundle 2") then [B2] else [])
    + (if Contains(c.bundles, "Bundle 3") then [B3] else [])
    + (if c.bundles == "" then [AddOnOnly] else [])
  }

  /**
   * Each of B1, B2, B3 is shown exactly when the bundle text contains the literal
   * "Bundle 1", "Bundle 2" or "Bundle 3"; "Add-on Only" exactly when the text is
   * empty, and then alone. No badge is shown twice.
   */
  lemma BadgesSpec(c: Channel)
    ensures B1 in Badges(c) <==> IsSubstring("Bundle 1", c.bundles)
    ensures B2 in Badges(c) <==> IsSubstring("Bundle 2", c.bundles)
    ensures B3 in Badges(c) <==> IsSubstring("Bundle 3", c.bundles)
    ensures AddOnOnly in Badges(c) <==> c.bundles == ""
    ensures c.bundles == "" ==> Badges(c) == [AddOnOnly]
    ensures NoDuplicates(Badges(c))
  {
    ContainsIff(c.bundles, "Bundle 1");
    ContainsIff(c.bundles, "Bundle 2");
    ContainsIff(c.bundles, "Bundle 3");
  }

  /** The bundle selector's choices other than "All". */
  predicate IsBundleChoice(b: string) {
    b == "Bundle 1" || b == "Bundle 2" || b == "Bundle 3"
  }

  function BadgeOf(b: string): Badge
    requires IsBundleChoice(b)
  {
    if b == "Bundle 1" then B1 else if b == "Bundle 2" then B2 else B3
  }

  /**
   * Selecting a bundle keeps exactly the channels whose card carries that
   * bundle's badge; an add-on-only channel is hidden under every bundle choice.
   */
  lemma BundleSelectionMatchesBadge(c: Channel, b: string)
    requires IsBundleChoice(b)
    ensures Keep(c, "", b, All) <==> BadgeOf(b) in Badges(c)
    ensures c.bundles == "" ==> !Keep(c, "", b, All)
  {
    BlankSearchPasses(c);
    BadgeShown(c);
    assert Keep(c, "", b, All) <==> Contains(c.bundles, b);
  }

  lemma BlankSearchPasses(c: Channel)
    ensures SearchPasses(c, "")
  {
    assert NormalizedQuery("") == [];
  }

  lemma BadgeShown(c: Channel)
    ensures B1 in Badges(c) <==> Contains(c.bundles, "Bundle 1")
    ensures B2 in Badges(c) <==> Contains(c.bundles, "Bundle 2")
    ensures B3 in Badges(c) <==> Contains(c.bundles, "Bundle 3")
    ensures c.bundles == "" ==> !Contains(c.bundles, "Bundle 1") && !Contains(c.bundles, "Bundle 2") && !Contains(c.bundles, "Bundle 3")
  {
  }

  // ---------------------------------------------------------------------
  // A la carte and add-on rows
  // ---------------------------------------------------------------------

  /** The a-la-carte cell: the price when the channel is sold a la carte, otherwise "N/A". */
  function AlaCarteCell(c: Channel): Option<int> {
    if c.isAlaCarte then Some(c.alaCartePrice) else None
  }

  /** The add-on row: the package name and, when positive, its monthly price. */
  datatype AddOnLine = AddOnLine(name: string, monthlyPrice: Option<int>)

  function AddOnRow(c: Channel): Option<AddOnLine> {
    if TruthyStr(c.addOnName) && c.addOnName.value != NoAddOn then
      Some(AddOnLine(c.addOnName.value, if c.addOnPrice > 0 then Some(c.addOnPrice) else None))
    else None
  }

  /**
   * The add-on row is shown exactly when the name is non-empty and not the
   * sentinel; it shows that name, and a price line exactly when the price is positive.
   */
  lemma AddOnRowSpec(c: Channel)
    ensures AddOnRow(c).Some? <==> c.addOnName.Some? && c.addOnName.value !in {"", NoAddOn}
    ensures AddOnRow(c).Some? ==> AddOnRow(c).value.name == c.addOnName.value
    ensures AddOnRow(c).Some? ==> (AddOnRow(c).value.monthlyPrice.Some? <==> c.addOnPrice > 0)
    ensures forall p :: AddOnRow(c).Some? && AddOnRow(c).value.monthlyPrice == Some(p) ==> p > 0
  {
  }

  /**
   * From a backend row to its card: a missing, empty or "N/A" add-on name all hide
   * the add-on row; the price line needs a present positive price; the a-la-carte
   * price is shown only for the boolean flag `true`.
   */
  lemma CardOfRow(row: Row)
    ensures AddOnRow(Normalize(row)).Some? <==> TruthyStr(row.addOnName) && row.addOnName.value != NoAddOn
    ensures AddOnRow(Normalize(row)).Some? ==>
      AddOnRow(Normalize(row)).value == AddOnLine(row.addOnName.value,
        if row.addOnPrice.Some? && row.addOnPrice.value > 0 then row.addOnPrice else None)
    ensures AlaCarteCell(Normalize(row)).Some? <==> row.alaCarte10 == JsBool(true)
    ensures AlaCarteCell(Normalize(row)).Some? ==> AlaCarteCell(Normalize(row)).value == row.alaCartePrice.GetOr(0)
  {
  }

  /** An add-on row of "Sports Pack" at price 0 renders the name without a price line. */
  lemma SportsPackWithoutPrice(c: Channel)
    requires c.addOnName == Some("Sports Pack") && c.addOnPrice == 0
    ensures AddOnRow(c) == Some(AddOnLine("Sports Pack", None))
  {
  }

  /** The sentinel hides the row. */
  lemma SentinelHidesAddOn(c: Channel)
    requires c.addOnName == Some(NoAddOn)
    ensures AddOnRow(c) == None
  {
  }
}
