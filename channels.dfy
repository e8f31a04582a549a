/**
 * The channel record and the mapping of an already-fetched backend row into it
 * (the body of the `data.map` in `fetchChannels`).
 */
module Channels {
  import opened Wrappers
  import opened Text

  /**
   * A JavaScript value as an untyped column of a row may hold it.
   * Numbers are modelled as integers.
   */
  datatype JsValue = Undefined | Null | JsBool(b: bool) | JsNum(n: int) | JsStr(s: string)

  /** `String(v)`. */
  function JsString(v: JsValue): string {
    match v
    case Undefined => "undefined"
    case Null => "null"
    case JsBool(b) => if b then "true" else "false"
    case JsNum(n) => IntToDecimal(n)
    case JsStr(s) => s
  }

  /**
   * One row of the `channels` table as the backend returns it. Text and price
   * columns may be null (`None`); the channel number and the a-la-carte flag are
   * untyped.
   */
  datatype Row = Row(
    index: int,
    channelName: Option<string>,
    channelNumber: JsValue,
    category: Option<string>,
    includedBundles: Option<string>,
    alaCarte10: JsValue,
    alaCartePrice: Option<int>,
    addOnName: Option<string>,
    addOnPrice: Option<int>)

  /**
   * The `Channel` record. `name` and `category` are copied from the row without a
   * default, so they may be null at run time even though the declared type says
   * `string`; `addOnName` is declared nullable.
   */
  datatype Channel = Channel(
    id: int,
    name: Option<string>,
    number: string,
    category: Option<string>,
    bundles: string,
    isAlaCarte: bool,
    alaCartePrice: int,
    addOnName: Option<string>,
    addOnPrice: int)

  /** The sentinel stored for "no add-on package". */
  const NoAddOn: string := "N/A"

  /** A nullable string is truthy when it is present and non-empty. */
  predicate TruthyStr(v: Option<string>) {
    v.Some? && v.value != ""
  }

  /** A nullable integer is truthy when it is present and non-zero. */
  predicate TruthyNum(v: Option<int>) {
    v.Some? && v.value != 0
  }

  /** `v || d` on a nullable string. */
  function StrOr(v: Option<string>, d: string): string {
    if TruthyStr(v) then v.value else d
  }

  /** `v || d` on a nullable integer. */
  function NumOr(v: Option<int>, d: int): int {
    if TruthyNum(v) then v.value else d
  }

  /** The row mapping: copies the row and substitutes the defaults for falsy columns. */
  function Normalize(row: Row): (c: Channel)
    ensures c.id == row.index
    ensures c.name == row.channelName && c.category == row.category
    ensures c.number == JsString(row.channelNumber)
    // missing bundle text becomes the empty string; present text is kept
    ensures row.includedBundles.Some? ==> c.bundles == row.includedBundles.value
    ensures row.includedBundles.None? ==> c.bundles == ""
    // the flag holds only for the boolean `true`
    ensures c.isAlaCarte <==> row.alaCarte10 == JsBool(true)
    // a missing price becomes 0; a present one is kept (`0 || 0` is 0)
    ensures c.alaCartePrice == row.alaCartePrice.GetOr(0)
    ensures c.addOnPrice == row.addOnPrice.GetOr(0)
    // the add-on name is never null or empty; missing and empty become the sentinel
    ensures c.addOnName.Some? && c.addOnName.value != ""
    ensures c.addOnName == Some(NoAddOn) <==> row.addOnName in {None, Some(""), Some(NoAddOn)}
    ensures TruthyStr(row.addOnName) ==> c.addOnName == row.addOnName
  {
    Channel(
      row.index,
      row.channelName,
      JsString(row.channelNumber),
      row.category,
      StrOr(row.includedBundles, ""),
      row.alaCarte10 == JsBool(true),
      NumOr(row.alaCartePrice, 0),
      Some(StrOr(row.addOnName, NoAddOn)),
      NumOr(row.addOnPrice, 0))
  }

  /** `data.map(...)`: every row, in the order the backend returned them. */
  function NormalizeAll(rows: seq<Row>): (cs: seq<Channel>)
    ensures |cs| == |rows|
    ensures forall i :: 0 <= i < |rows| ==> cs[i] == Normalize(rows[i])
  {
    seq(|rows|, i requires 0 <= i < |rows| => Normalize(rows[i]))
  }

  /** Rows ordered by ascending `index` give channels ordered by ascending `id`; no row is dropped. */
  lemma NormalizeAllKeepsOrder(rows: seq<Row>)
    requires forall i, j :: 0 <= i < j < |rows| ==> rows[i].index < rows[j].index
    ensures |NormalizeAll(rows)| == |rows|
    ensures forall i, j :: 0 <= i < j < |rows| ==> NormalizeAll(rows)[i].id < NormalizeAll(rows)[j].id
  {
  }

  /** The number text of a numeric column reads back as that number. */
  lemma NumberTextRoundTrip(row: Row, n: int)
    requires row.channelNumber == JsNum(n) && n >= 0
    ensures forall i :: 0 <= i < |Normalize(row).number| ==> IsDigit(Normalize(row).number[i])
    ensures DecimalValue(Normalize(row).number) == n
  {
    IntToDecimalMeaning(n);
  }

  /** A null number column becomes the text "null", as `String(null)` does. */
  lemma NullNumberText(row: Row)
    requires row.channelNumber == Null
    ensures Normalize(row).number == "null"
  {
  }
}
