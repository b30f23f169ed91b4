# Thali combo platter, modelled in Dafny

This is a model of the "thali combo" library (`src/12-thali-combo.js`). A thali is a meal
record `{name, items, price, isVeg}`. The library has four functions over thalis:

- `createThaliDescription(thali)` renders one thali on one line. Anything that is not an
  object owning all four properties gives `""`.
- `getThaliStats(thalis)` aggregates a list: the count, the veg and non-veg counts, the
  average price, the cheapest and costliest price, and the names. It returns `null` unless
  the list is a non-empty array in which at least one element owns all four properties.
- `searchThaliMenu(thalis, query)` keeps the thalis whose name, or whose items joined by
  `","`, contain the query, ignoring case. A non-array, a non-string or an empty query
  gives `[]`.
- `generateThaliReceipt(customerName, thalis)` renders a receipt. It gives `""` unless the
  name is a non-empty string and the list is a non-empty array whose every element owns
  `name`, `items` and `price`.

Layout:

- `wrappers.dfy`, module `Wrappers`: `Option`, used to say whether an object owns a property.
- `strings.dfy`, module `Strings`: the JavaScript string built-ins the library calls.
  These are ASCII `toUpperCase`/`toLowerCase`, `join`, `includes`, and rendering an integer
  in decimal. `toFixed(2)` is modelled on an integer number of paise. Each rendering has a
  parser that reads it back.
- `sequences.dfy`, module `Sequences`: the array built-ins. These are `filter`, the summing
  `reduce`, and `Math.min`/`Math.max` over a spread array.
- `thali_combo.dfy`, module `ThaliCombo`: the data model and the four functions.

Modelling choices:

- A value passed as a thali is `NonObject` or a `Record` with four `Option` fields. A field
  is `None` when the object does not own that property. A `JsArray` is `NotArray` or an
  `Array`. A `JsString` is `NotString` or a `Str`. These three types carry the source's
  `typeof`, `Array.isArray` and `hasOwnProperty` checks.
- A price is an integer number of paise, so JavaScript's `250` is `25000`. `ToFixed2`
  writes rupees, a point and two decimals, with a minus sign for a negative amount.
- `createThaliDescription` and `searchThaliMenu` are pure, so they are functions.
- `getThaliStats` and `generateThaliReceipt` are methods. Each keeps the source's loops: the
  `pass` check loop, and the `forEach` that accumulates `itemsstr`. Each is proved against a
  specification function (`Aggregate`, `Receipt`), and lemmas state the properties of that
  function.
- Once its check passes, the source reads properties without guarding them. A missing
  `name` or `price` then throws or yields `NaN`/`undefined`. The model gives this an
  explicit outcome instead: `StatsOutcome.FieldFault` for `getThaliStats`, `SearchOutcome.SearchThrows` for
  `searchThaliMenu`. The search case is exact, short-circuit of `||` included: a thali
  whose name matches is never asked for its items.
- `avgPrice` is kept as the exact pair `Average(sum, count)`.
- Inverse functions serve as partners for the text output. They are `ReadDescribedPrice`,
  `ReadTotal` and `ReadItemCount`, plus `ParseFixed2` and `ParseNat`. Each finds the
  number after the last marker (`"Rs."`, `"Total: Rs."`, `"Items: "`) and parses it. The
  lemmas show that each number reads back, whatever the names and items hold.

Where the comments at the top of the source disagree with its code, the model follows the
code:

- For `getThaliStats`, the comment promises `null` only for a non-array or an empty array.
  The code also returns `null` when no element owns all four properties. (The code checks
  that ANY element owns them, not that every element does.)
- For `searchThaliMenu`, the comment says a thali matches when its name or any one item
  contains the query. The code searches the items joined by `","`, which matches more.
  `SearchFindsItem` proves that every thali the comment promises is found.
  `SearchMatchesAcrossItems` exhibits a query that matches across the comma although no
  single item contains it.
- For `createThaliDescription`, the comment lists types for the required fields. The code
  checks only that the properties are present.

## Model

| member | source | states |
|---|---|---|
| ThaliCombo.CreateThaliDescription | src/12-thali-combo.js:55-74 | the description is `""` exactly when the argument is not an object owning `name`, `items`, `price` and `isVeg` (both directions) |
| ThaliCombo.DescriptionStartsWithName | src/12-thali-combo.js:64-71 | a valid description starts with the upper-cased name followed by `" (Veg)"` when `isVeg` holds, else `" (Non-Veg)"` |
| ThaliCombo.DescriptionListsItems | src/12-thali-combo.js:71 | every item of a valid thali appears in its description |
| ThaliCombo.DescriptionPriceReadsBack | src/12-thali-combo.js:71 | the amount after the last `"Rs."` of a description parses back to the thali's price, whatever its name and items contain |
| ThaliCombo.GetThaliStats | src/12-thali-combo.js:76-117 | `null` exactly when the input is not an array, is empty, or has no element owning all four properties; a field fault exactly when it passes that any-element check but some element is not an object or lacks `name` or `price`; otherwise the aggregate of the whole list |
| ThaliCombo.Aggregate | src/12-thali-combo.js:93-102 | `totalThalis` is the length, `vegCount` is at most the length and adds up with `nonVegCount` to it, the average is taken over the length, `cheapest` is at most `costliest`, and there is one name per thali |
| ThaliCombo.StatsCounts | src/12-thali-combo.js:95-96 | `vegCount` is the number of thalis whose `isVeg` is true, every copy of a repeated thali included, and `nonVegCount` the number of the others, a missing `isVeg` among them |
| ThaliCombo.StatsWithoutItems | src/12-thali-combo.js:93-102 | a list whose second thali lacks `items` and `isVeg` passes the check and gets ordinary stats, that thali counted as non-veg |
| ThaliCombo.StatsPriceRange | src/12-thali-combo.js:99-101 | every price lies between `cheapest` and `costliest`, and both are prices of thalis in the list |
| ThaliCombo.StatsAverage | src/12-thali-combo.js:97-98 | the average is the sum of the prices over the length, and that sum lies between `cheapest * length` and `costliest * length` |
| ThaliCombo.StatsNames | src/12-thali-combo.js:102 | `names` has one entry per thali: the thali's name, in input order |
| ThaliCombo.SearchThaliMenu | src/12-thali-combo.js:119-132 | a non-array list, a non-string query or an empty query gives `[]`; every thali found is in the list and matches the query; a throw happens only on a non-empty string query over an array |
| ThaliCombo.SearchResult | src/12-thali-combo.js:127-131 | the result is a subsequence of the input (order kept) and holds exactly the thalis whose lower-cased name or lower-cased comma-joined items contain the lower-cased query, each as many times as it occurs in the input |
| ThaliCombo.SearchThrowsIff | src/12-thali-combo.js:127-131 | the search throws exactly when some element is not an object, lacks a name, or lacks items while its name does not match |
| ThaliCombo.SearchCaseInsensitive | src/12-thali-combo.js:129-130 | two queries that lower-case to the same string give the same outcome |
| ThaliCombo.SearchUpperQuery | src/12-thali-combo.js:129-130 | upper-casing the query does not change the outcome |
| ThaliCombo.SearchFindsItem | src/12-thali-combo.js:130 | a listed thali with one item that contains the query, ignoring case, is in the result |
| ThaliCombo.SearchMatchesAcrossItems | src/12-thali-combo.js:130 | the comma-joined items `["a","b"]` match the query `"a,b"` although neither item contains it |
| ThaliCombo.GenerateThaliReceipt | src/12-thali-combo.js:134-169 | the receipt is `""` exactly when the name is not a non-empty string, the list is not an array, the list is empty, or some element lacks `name`, `items` or `price`; otherwise it is title, upper-cased customer, line items, total and count |
| ThaliCombo.LineItemsAppend | src/12-thali-combo.js:162-165 | the line items of a concatenated list are those of the first part followed by those of the second |
| ThaliCombo.ReceiptLineOrder | src/12-thali-combo.js:162-165 | thali `k` has exactly one line, `"- {name} x Rs.{price}\n"`, after the lines of the thalis before it and before the lines of those after it |
| ThaliCombo.Receipt | src/12-thali-combo.js:161-168 | the receipt begins `"THALI RECEIPT\n---\nCustomer: "` followed by the upper-cased customer name and a newline |
| ThaliCombo.ReceiptItemCount | src/12-thali-combo.js:168 | the number after the last `"Items: "` of a receipt reads back as the number of thalis |
| ThaliCombo.ReceiptTotal | src/12-thali-combo.js:166-168 | the amount on the `"Total: Rs."` line of a receipt reads back as the sum of the prices |
| Strings.ToFixed2 | src/12-thali-combo.js:164 | an amount written to two decimals has at least four characters, each a digit, the point or the minus sign |
| Strings.NatToString | src/12-thali-combo.js:168 | a count written in decimal is non-empty and all digits |
| Strings.ParseToFixed2 | src/12-thali-combo.js:164 | a price written to two decimals parses back to the same number of paise, negative amounts included |
| Strings.ParseNatToString | src/12-thali-combo.js:168 | a count written in decimal parses back to the count |
| Strings.LowerOfUpper | src/12-thali-combo.js:129-130 | lower-casing an upper-cased string equals lower-casing the original |
| Strings.IncludesIff | src/12-thali-combo.js:129-130 | the left-to-right `includes` scan succeeds exactly when the query occurs at some index of the text (both directions) |
| Strings.IncludesTransitive | src/12-thali-combo.js:130 | a string inside a string inside a text is inside the text |
| Strings.IncludesLower | src/12-thali-combo.js:129-130 | lower-casing both text and query keeps an occurrence |
| Strings.JoinIncludesItem | src/12-thali-combo.js:130 | every item is contained in the items joined by any separator |
| Strings.ConcatAppend | src/12-thali-combo.js:163-165 | accumulating two lists of lines one after the other gives the two accumulated texts concatenated |
| Sequences.Filter | src/12-thali-combo.js:127-131 | the filter result is no longer than its input and holds exactly the input elements that pass the test, each as many times as it occurs in the input |
| Sequences.FilterIsSubsequence | src/12-thali-combo.js:127-131 | the filter keeps the input order |
| Sequences.FilterCongruent | src/12-thali-combo.js:127-131 | two tests that agree on every element keep the same elements |
| Sequences.FilterComplement | src/12-thali-combo.js:95-96 | the elements a test keeps and those its negation keeps add up to the input length |
| Sequences.SumBounds | src/12-thali-combo.js:97-98 | a sum of n numbers between lo and hi lies between `lo * n` and `hi * n` |
| Sequences.MinOf | src/12-thali-combo.js:100 | `Math.min` over a non-empty list is an element of the list and no greater than any element |
| Sequences.MaxOf | src/12-thali-combo.js:101 | `Math.max` over a non-empty list is an element of the list and no smaller than any element |

## Left out

- IEEE-754 doubles: prices are integer paise. Fractional paise, `NaN`, infinities and `-0` are not modelled.
- ToFixed2: does not model the float rounding of `toFixed` (a double such as `1.005` rounds to `"1.00"`). It also does not model the exponent notation `toFixed` uses from 10^21 up. Prices are whole paise, so the rendering is exact.
- Aggregate: `avgPrice` is kept as the exact pair (sum, count). The source's two-decimal rounding of a non-integral average goes through float arithmetic.
- GetThaliStats: after a passing check, a list with an element that is not an object or lacks `name` or `price` gives `FieldFault`. The source then throws a `TypeError` (a `null` or `undefined` element), or it returns stats holding `NaN` prices or `undefined` names. The model does not say which. An element that lacks only `items` or `isVeg` gets ordinary stats, as in the source.
- Dynamic typing: a property that is present is taken to have its documented type (string name, array of string items, number price, boolean `isVeg`). The model does not cover a truthy non-boolean `isVeg`, non-string items inside `join`, or inherited versus own properties.
- Upper, Lower: ASCII case mapping only. The Unicode case mapping of `toUpperCase`/`toLowerCase` is not modelled.
- SearchThaliMenu: the result holds the matching records as values. The source returns the caller's own objects, so aliasing is not captured.
- Engine limits, such as spreading a very large array into `Math.min`/`Math.max`, are not modelled.
