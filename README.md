# Bell TV channel lookup: a Dafny model of the channel directory

The Bell TV channel lookup page loads every row of the `channels` table once,
ordered by `index`. It turns each row into a `Channel` record with defaults for
missing columns. Then, on every keystroke or selection, it re-filters the full
list by a free-text search, a bundle (`All`, `Bundle 1`, `Bundle 2`,
`Bundle 3`) and a category (`All` or any category found in the data). It also
derives the category list that feeds the category selector. For each card it
decides which bundle badges, a-la-carte cell and add-on row to show, and it
shows a result-count line.

This project models that computation in `app/page.tsx` as pure Dafny functions
over `seq` and `string`, with lemmas about them:

- `wrappers.dfy`: `Option`, used for nullable columns.
- `text.dfy` (module `Text`): the string operations the page relies on.
  - `toLowerCase`, restricted to ASCII.
  - `trim`, which strips the ECMAScript whitespace and line-terminator code points.
  - `includes`, checked against a reference definition of "substring".
  - The lexicographic order used by the default `sort()`, proved to be a total order.
  - `String(n)` for integers, with its read-back.
- `channels.dfy` (module `Channels`): the untyped backend row, the `Channel`
  record, and row normalisation (the body of `data.map`). JavaScript
  truthiness is written out for each column:
  - `|| ''` and `|| 'N/A'` treat null and `""` alike;
  - `|| 0` treats null and `0` alike;
  - the flag is tested with `=== true`;
  - the channel number goes through `String(...)`.
- `directory.dfy` (module `Directory`): the filter predicate, written with the
  same three early rejections as the source, and `channels.filter`.
- `categories.dfy` (module `Categories`): `[...new Set(...)]`, then
  `.filter(Boolean)`, then `.sort()`.
- `display.dfy` (module `Display`): the count line, the "No channels found"
  state, the badges, the a-la-carte cell and the add-on row.

Modelling notes:

- `name` and `category` are `Option<string>` in `Channel`. The declared type
  says `string`, but the mapping copies those columns unchanged, so they can
  be null at run time. The filter's `(channel.name || '')` and the category
  list's `.filter(Boolean)` exist to handle that.
- `addOnName` is `Option<string>`, as declared (`string | null`).
  Normalisation alone never leaves it null or empty.
- The search lower-cases the channel number's text as well as the name
  (`app/page.tsx:64`). For digit text this changes nothing.
- `|| 'N/A'` also replaces an empty add-on name, not only a null one, and
  `|| 0` maps a null price and a price of `0` alike to `0`
  (`app/page.tsx:49-51`).
- A category whose value is literally `"All"` would be offered in the
  selector, but choosing it turns the category test off. The model keeps
  this behaviour; `OfferedCategoryShowsChannels` assumes the chosen category
  is not `"All"`.

## Model

| member | source | states |
|---|---|---|
| Channels.Normalize | app/page.tsx:42-52 | id, name, category copied. Number is `String(...)` of the column. Missing bundles become `""`, present ones are kept. `isAlaCarte` holds exactly for boolean `true`. Missing prices become 0. The add-on name is never null or empty: it is the sentinel `"N/A"` exactly when the column is null, empty or `"N/A"`, otherwise the column's text |
| Channels.NormalizeAll | app/page.tsx:42-52 | one channel per row, none dropped, each the normalised row at the same position |
| Channels.NormalizeAllKeepsOrder | app/page.tsx:33-52 | rows in ascending `index` order give channels in ascending `id` order |
| Channels.NumberTextRoundTrip | app/page.tsx:45 | a non-negative numeric channel number becomes all-digit text that reads back as that number |
| Channels.NullNumberText | app/page.tsx:45 | a null number column becomes the text `"null"`, as `String(null)` does |
| Channels.JsString | app/page.tsx:45 | `String(v)` of the number column: `"undefined"`, `"null"`, `"true"`/`"false"`, the decimal text of a number, a string unchanged; NumberTextRoundTrip and NullNumberText state its meaning |
| Text.ToLowerMeaning | app/page.tsx:62-64 | lower-casing keeps the length, leaves no ASCII capital, changes only ASCII capitals, each by +32 |
| Text.ToLowerIdempotent | app/page.tsx:62-64 | lower-casing twice is lower-casing once |
| Text.TrimShape | app/page.tsx:62 | trim removes a whitespace prefix and a whitespace suffix only; what remains starts and ends with non-whitespace |
| Text.TrimExact | app/page.tsx:62 | given where the whitespace prefix ends and the suffix starts, trim returns exactly the text between them |
| Text.TrimEmptyIff | app/page.tsx:62 | trim gives `""` exactly for an all-whitespace string |
| Text.TrimIdempotent | app/page.tsx:62 | trimming twice is trimming once |
| Text.TrimLowerCommute | app/page.tsx:62 | lower-case-then-trim equals trim-then-lower-case |
| Text.ContainsIff | app/page.tsx:67-70 | `includes` holds exactly when the needle occurs at some position (both directions) |
| Text.ContainsAt | app/page.tsx:67-70 | an occurrence at a known position makes `includes` true |
| Text.NotContained | app/page.tsx:67-70 | a needle with a character absent from the text is not included |
| Text.LexReflexive | app/page.tsx:78 | the sort order is reflexive |
| Text.LexAntisymmetric | app/page.tsx:78 | the sort order is antisymmetric |
| Text.LexTransitive | app/page.tsx:78 | the sort order is transitive |
| Text.LexTotal | app/page.tsx:78 | any two strings are comparable |
| Text.NatToDecimal | app/page.tsx:164 | decimal text is non-empty, all digits, with no leading zero |
| Text.DecimalRoundTrip | app/page.tsx:164 | the decimal text of `n` reads back as `n` |
| Text.DecimalInjective | app/page.tsx:164 | distinct counts give distinct texts |
| Text.IntToDecimalMeaning | app/page.tsx:45 | for an integer `n` of magnitude below 2^53 (exact in a JavaScript number, and printed without an exponent), the text is the digits of `n` for `n >= 0`, and `"-"` before the digits of `-n` otherwise |
| Text.ToLower | app/page.tsx:62-64 | `toLowerCase` on ASCII: same length, each character lower-cased on its own; ToLowerMeaning states which characters change |
| Text.Trim | app/page.tsx:62 | `trim`: never longer than its input, and a non-empty result starts and ends with non-whitespace; TrimShape and TrimExact state exactly what it removes |
| Text.Contains | app/page.tsx:67-70 | `includes`, trying each start position in turn; ContainsIff ties it to the substring definition |
| Text.LexLessEq | app/page.tsx:78 | the comparison of the default `sort()`, character by character with a prefix first; LexReflexive, LexAntisymmetric, LexTransitive and LexTotal make it a total order |
| Text.IntToDecimal | app/page.tsx:45 | `String(n)` of an integer: non-empty, a leading `-` exactly for negatives, digits elsewhere; IntToDecimalMeaning and DecimalRoundTrip state its value |
| Directory.KeepIff | app/page.tsx:61-76 | a channel passes exactly when all three hold. (1) The trimmed, lower-cased query is empty, or is a substring of the lower-cased name (null read as `""`) or of the lower-cased number. (2) The bundle is `"All"` or a case-sensitive substring of `bundles`. (3) The category is `"All"` or equals the channel's category exactly |
| Directory.NormalizedQuery | app/page.tsx:62 | `searchQuery.toLowerCase().trim()`: no longer than the query, no ASCII capital, no outer whitespace; QueryBlankIff says when it is empty |
| Directory.SearchPasses | app/page.tsx:62-67 | the search test (the normalised query is empty, or occurs in the lower-cased name or number); KeepIff states it by the substring definition |
| Directory.BundlePasses | app/page.tsx:70 | the bundle test (`All`, or a case-sensitive substring of `bundles`); KeepIff and TsnBundles state its meaning |
| Directory.CategoryPasses | app/page.tsx:73 | the category test (`All`, or exact equality with the channel's category); KeepIff and TsnCategory state its meaning |
| Directory.Keep | app/page.tsx:61-76 | the filter callback with its three early returns; KeepIff states it as a conjunction of three conditions, KeepSplits as three single-test filters |
| Directory.FilterBy | app/page.tsx:61 | `Array.filter` returns no more elements than it was given, each taken from the input and passing the callback |
| Directory.Filter | app/page.tsx:61-76 | the filtered list is no longer than the input; every channel in it comes from the input and passes the filter |
| Directory.FilterPositions | app/page.tsx:61-76 | the result is the input at strictly increasing positions, exactly the positions whose channel passes: original order, nothing reordered, nothing lost |
| Directory.FilterCounts | app/page.tsx:61-76 | each passing channel occurs in the result as often as in the input, others never: no duplication |
| Directory.FilterMembership | app/page.tsx:61-76 | a channel is in the result exactly when it is in the input and passes |
| Directory.FilterKeepsAllPassing | app/page.tsx:61-76 | a list whose channels all pass is returned unchanged |
| Directory.FilterIdempotent | app/page.tsx:61-76 | filtering the filtered list again with the same selections gives the same list |
| Directory.FilterComposes | app/page.tsx:66-73 | filtering by all three tests equals filtering by search, then bundle, then category |
| Directory.KeepSplits | app/page.tsx:66-73 | the filter predicate is the conjunction of its search-only, bundle-only and category-only instances |
| Directory.BlankQueryMatchesAll | app/page.tsx:62-67 | an empty or whitespace-only query normalises to `""` and passes every channel when both selectors are `"All"` |
| Directory.BlankFilterShowsEverything | app/page.tsx:61-76 | with a blank query and both selectors on `"All"` the output equals the input |
| Directory.QueryBlankIff | app/page.tsx:62-67 | the normalised query is empty exactly when the raw query is all whitespace |
| Directory.SearchIgnoresQueryCase | app/page.tsx:62-67 | lower-casing the query first never changes the outcome |
| Directory.SearchIgnoresNameCase | app/page.tsx:63-67 | lower-casing a channel's name never changes the outcome |
| Directory.PlainQuery | app/page.tsx:62 | a query with no capital and no surrounding whitespace is compared unchanged |
| Directory.TsnSearch | app/page.tsx:62-67 | TSN (number 502) is found by `tsn`, by `  TsN ` and by `50`, and not by `cnn` |
| Directory.TsnBundles | app/page.tsx:70 | with bundles `"Bundle 1,Bundle 3"`: `Bundle 1` and `Bundle 3` match, `Bundle 2` and the lower-case `bundle 1` do not |
| Directory.TsnCategory | app/page.tsx:73 | category `Sports` matches `Sports` but not `Sport` or `sports` |
| Categories.Distinct | app/page.tsx:78 | `[...new Set(xs)]` has no duplicates and exactly the values of `xs` |
| Categories.Present | app/page.tsx:78 | `.filter(Boolean)` keeps exactly the present, non-empty strings and keeps a duplicate-free list duplicate-free |
| Categories.Sort | app/page.tsx:78 | the sorted list is in lexicographic order and is a permutation of the input |
| Categories.Insert | app/page.tsx:78 | inserting into a sorted list keeps it sorted and adds exactly one copy of the value |
| Categories.SortedUnique | app/page.tsx:78 | two sorted lists with the same multiset are equal, so any correct sort gives `Sort`'s result |
| Categories.SortKeepsDistinct | app/page.tsx:78 | sorting a duplicate-free list keeps it duplicate-free |
| Categories.DerivedCategoriesSpec | app/page.tsx:78 | the category list is strictly ascending and duplicate-free, has no `""`, and holds a string exactly when it is non-empty and some loaded channel has that category |
| Categories.CategoryValues | app/page.tsx:78 | `channels.map((c) => c.category)`: one value per channel, in order |
| Categories.DerivedCategories | app/page.tsx:78 | `[...new Set(...)].filter(Boolean).sort()` over the categories; DerivedCategoriesSpec and SortedUnique pin the result down completely |
| Categories.SharedCategoryListedOnce | app/page.tsx:78 | a category shared by several channels appears exactly once |
| Categories.DerivedCategoriesIgnoreOrder | app/page.tsx:78 | the category list depends only on which channels are loaded, not on their order |
| Categories.OfferedCategoryShowsChannels | app/page.tsx:147-154 | choosing an offered category (not `"All"`) with a blank query and all bundles shows at least one channel, and exactly the channels of that category |
| Display.CountLabelMeaning | app/page.tsx:164 | once loaded, the line starts with `Showing `, the number after it reads back as the count, and it ends in `s` exactly when the count is not 1 |
| Display.CountLabel | app/page.tsx:164 | the result-count line, or the connecting message while loading; CountLabelMeaning states what it says |
| Display.NoResultsIff | app/page.tsx:178 | the "No channels found" panel appears exactly when no loaded channel passes the filter |
| Display.FailedLoadShowsNoResults | app/page.tsx:178 | with an empty list (a failed load) the panel appears and the line reads `Showing 0 channels` |
| Display.ShowsNoResults | app/page.tsx:178 | the condition for the "No channels found" panel; NoResultsIff states it in terms of the filter |
| Display.BadgesSpec | app/page.tsx:211-230 | B1, B2 and B3 are each shown exactly when `bundles` contains `Bundle 1`, `Bundle 2` or `Bundle 3`. "Add-on Only" is shown exactly when `bundles` is empty, and then alone. No badge is shown twice |
| Display.Badges | app/page.tsx:211-230 | the card's badges in rendering order; BadgesSpec states which appear |
| Display.BundleSelectionMatchesBadge | app/page.tsx:211-225 | selecting `Bundle k` (blank query, all categories) keeps exactly the channels whose card shows badge Bk; add-on-only channels are hidden under every bundle choice |
| Display.AlaCarteCell | app/page.tsx:238-250 | the a-la-carte cell: the price exactly when the flag is set, otherwise the `N/A` cell; CardOfRow carries it back to the raw row |
| Display.AddOnRow | app/page.tsx:254-262 | the add-on row, if shown: the package name and a price line; AddOnRowSpec and CardOfRow state when each part appears |
| Display.AddOnRowSpec | app/page.tsx:254-262 | the add-on row is shown exactly when the name is non-empty and not `"N/A"`. It shows that name, and a price line exactly when the price is positive |
| Display.CardOfRow | app/page.tsx:238-262 | from row to card: a missing, empty or `"N/A"` add-on name hides the add-on row, and the price line needs a present positive price. The a-la-carte price is shown only for the flag `true`, with a missing price shown as 0 |
| Display.SportsPackWithoutPrice | app/page.tsx:254-262 | add-on `Sports Pack` at price 0 renders the name with no price line |
| Display.SentinelHidesAddOn | app/page.tsx:254 | the sentinel `"N/A"` hides the add-on row |

## Left out

- The backend query and the asynchronous effect around it (`app/page.tsx:28-58`): network I/O through a client library that is not part of this model. Only the mapping of rows already fetched is modelled. On an error the list stays empty, and that case is covered through the empty list.
- React state, the loading flag's lifecycle and re-rendering (`app/page.tsx:21-25`, `app/page.tsx:171-176`). The loading flag is a parameter of the count line and the no-results predicate.
- JSX markup, styling, icons and price formatting (`$5`, `/mo`). Only the show/hide decisions and the values shown are modelled.
- `app/layout.tsx`: static metadata and a root layout with no logic.
- Unicode case mapping. `toLowerCase` is modelled on ASCII letters only.
- UTF-16 code-unit comparison. The default `sort()` is modelled as lexicographic order on code points, which differs only for characters outside the Basic Multilingual Plane.
- Floating-point numbers. Prices and numeric channel numbers are unbounded integers. So `String(n)` of a fraction, `NaN` (also falsy) and `-0` are not modelled. Neither are the exponent form `String(n)` uses from magnitude 10^21 on (`"1e+21"`) and the rounding of integers above 2^53; `IntToDecimal` writes every digit.
- Backend columns of unexpected types. Text and price columns are either null or of their type; only the number and the a-la-carte flag are untyped.
- The uniqueness of `id` as a React key is not modelled.
