# Quote page core, modelled in Dafny

The page (`dom-manipulation/script.js`) keeps a list of quotes in a
module-level array. Each quote is a `{ text, category }` record. The page:

- loads the list from localStorage at start-up;
- lets the user add a quote, rejecting it when either field is blank once trimmed;
- saves the whole list after every add and every import;
- replaces the list from an imported JSON file, but only when that file holds an array;
- builds a drop-down of the distinct categories, sorted, after an "all" entry;
- shows a random quote, optionally limited to one category;
- stores the chosen category, and restores it when the drop-down is rebuilt.

The model has six modules. `Wrappers` holds the `Option` type; the other five follow the parts of that behaviour:

- `JsString`: JavaScript strings as sequences of UTF-16 code units (`CodeUnit`, `Str`).
  - `Trim` is `String.prototype.trim` over the ECMAScript WhiteSpace and LineTerminator code points.
  - `Below` is the default comparison of `Array.prototype.sort`: lexicographic by code unit, with a proper prefix first.
- `Quotes`: the `Quote` record, the seed list, the storage key, and the `"all"` sentinel.
  - `Parsed` is what `JSON.parse` makes of a text: it throws (`ParseFail`), it gives a non-array (`NotArray`), or it gives an array of quotes (`IsArray`).
- `CategoryIndex`: `[...new Set(quotes.map(q => q.category))].sort()`, written as `Distinct`, then `Sort` (insertion), then `Categories`.
- `Selection`: the filter pools of `showRandomQuote` and `filterQuotes`, and the random pick `pool[Math.floor(Math.random() * pool.length)]`.
  - The draw `r` of `Math.random()` is an input with `0 <= r < 1`. The index is computed exactly as `floor(r * n)`.
- `QuotePage`: the class `Page` holds the page's state in three fields:
  - `quotes`;
  - `storage`, the localStorage entries that are read back through `JSON.parse`. Each entry maps to its `Parsed` value;
  - `selectedCategory`, the "selectedCategory" entry, which is read back verbatim.

  Its methods are `Add`, `Save`, `Load`, `ReplaceIfArray`, `Import`, `PopulateCategories`, `ShowRandomQuote` and `FilterQuotes`. The DOM and the browser stay outside. An input box or the drop-down that may be missing is passed in as an `Option`, and the random draw as a real number.

Behaviour of the code, as modelled:

- A load or import replaces the list with any array, even an empty one. The entries are not validated. Only `addQuote` checks that fields are non-blank.
- `showRandomQuote` treats an empty drop-down value like "all". `filterQuotes` filters by the empty category instead (`Selection.FilterPoolSpec`).
- A quote whose category is literally `all` gets its own option, but choosing that option shows every quote, because the value equals the sentinel.
- Quotes have no identifier, and the page talks to no server, so there is nothing to reconcile.

## Model

| member | source | states |
|---|---|---|
| `QuotePage.Page.constructor` | dom-manipulation/script.js:2-21 | The page starts with the three seed quotes. They are replaced by the saved snapshot exactly when it parses as an array. Storage and the saved selection are left as found. |
| `QuotePage.Page.Save` | dom-manipulation/script.js:9-11 | The snapshot entry becomes the current list. Every other storage entry is unchanged. |
| `QuotePage.Page.ReplaceIfArray` | dom-manipulation/script.js:16-17 | The list is replaced by the parsed value exactly when it is an array. Otherwise the list is unchanged. |
| `QuotePage.Page.Load` | dom-manipulation/script.js:12-20 | A missing entry, a text that does not parse and a non-array all leave the list unchanged. An array becomes the list. |
| `QuotePage.Candidate` | dom-manipulation/script.js:60-66 | No quote exactly when the text or the category is all whitespace. Otherwise the quote is the trimmed text with the trimmed category, and it is well formed: both fields are non-empty, with no whitespace at either end. |
| `QuotePage.Page.Add` | dom-manipulation/script.js:57-69 | Accepted exactly when both trimmed fields are non-empty. If rejected, the list and storage are unchanged. If accepted, the list grows by exactly the trimmed quote at the end, all earlier quotes are untouched, and the snapshot equals the new list. |
| `QuotePage.Page.Import` | dom-manipulation/script.js:132-146 | An array replaces the list and is saved. A non-array or a parse failure changes nothing. Each case gives its own alert outcome. |
| `QuotePage.Page.PopulateCategories` | dom-manipulation/script.js:81-97 | The options are "all" followed by the category list. That list is strictly ascending, has no duplicates, and holds exactly the categories that occur. The saved selection is restored exactly when it is set and non-empty. |
| `QuotePage.Page.ShowRandomQuote` | dom-manipulation/script.js:31-43 | "No quotes" exactly when the pool is empty. Otherwise the quote shown belongs to the pool and to the list. |
| `QuotePage.Page.FilterQuotes` | dom-manipulation/script.js:99-114 | The drop-down value is saved before anything is shown. The display is the pick from the `filterQuotes` pool. With no drop-down, nothing is saved or shown. |
| `QuotePage.ReloadAfterSave` | dom-manipulation/script.js:9-21 | Saving and then starting a new page from the same storage restores the same list and selection. |
| `QuotePage.ReloadRestoresFilter` | dom-manipulation/script.js:95-102 | A value chosen with `filterQuotes` is restored after a reload, unless it was empty. |
| `JsString.TrimStart` | dom-manipulation/script.js:60-61 | The result is a suffix of the input. Only whitespace was cut. It does not start with whitespace. |
| `JsString.TrimEnd` | dom-manipulation/script.js:60-61 | The result is a prefix of the input. Only whitespace was cut. It does not end with whitespace. |
| `JsString.Trim` | dom-manipulation/script.js:60-61 | The result has no whitespace at either end. |
| `JsString.TrimStartCuts` | dom-manipulation/script.js:60-61 | A whitespace run up to the first other code unit is exactly what is cut at the start. |
| `JsString.TrimEndCuts` | dom-manipulation/script.js:60-61 | A whitespace run after the last other code unit is exactly what is cut at the end. |
| `JsString.TrimIsCore` | dom-manipulation/script.js:60-61 | Reference definition: a non-empty slice with no whitespace at its ends, and only whitespace around it, is what `trim` returns. |
| `JsString.TrimEmptyIff` | dom-manipulation/script.js:60-63 | `trim` gives "" if and only if the input is all whitespace. This is what makes `!text` reject blank input. |
| `JsString.TrimIdempotent` | dom-manipulation/script.js:60-61 | Trimming twice gives the same result as trimming once. |
| `JsString.BelowIrreflexive` | dom-manipulation/script.js:85 | No string sorts before itself. |
| `JsString.BelowAsymmetric` | dom-manipulation/script.js:85 | Two strings are never each before the other. |
| `JsString.BelowTransitive` | dom-manipulation/script.js:85 | The sort order is transitive. |
| `JsString.BelowTotal` | dom-manipulation/script.js:85 | Any two different strings are ordered one way or the other. |
| `JsString.BelowProperPrefix` | dom-manipulation/script.js:85 | A proper prefix sorts first. |
| `JsString.BelowFirstDifference` | dom-manipulation/script.js:85 | At the first differing position, the smaller code unit sorts first. |
| `CategoryIndex.DistinctSpec` | dom-manipulation/script.js:85 | `new Set` keeps every category exactly once and adds none. |
| `CategoryIndex.InsertSpec` | dom-manipulation/script.js:85 | Inserting a new string keeps a list strictly ascending and adds exactly that string. |
| `CategoryIndex.SortSpec` | dom-manipulation/script.js:85 | Sorting distinct strings gives a strictly ascending permutation of them. |
| `CategoryIndex.AscendingNoDuplicates` | dom-manipulation/script.js:85 | A strictly ascending list has no repeats. |
| `CategoryIndex.CategoriesSpec` | dom-manipulation/script.js:85 | The category list is strictly ascending, has no duplicates, and contains a label if and only if some quote has that category. |
| `CategoryIndex.AscendingUnique` | dom-manipulation/script.js:85 | Two strictly ascending lists with the same members are equal. |
| `CategoryIndex.CategoriesCharacterized` | dom-manipulation/script.js:85 | Reference definition: any strictly ascending list of exactly the occurring categories is the page's list. |
| `CategoryIndex.CategoriesAfterAppend` | dom-manipulation/script.js:68-70 | After a quote is appended, the list holds the old categories plus the new quote's category, and nothing else. |
| `CategoryIndex.IndexExample` | dom-manipulation/script.js:85 | Categories "b", "a", "a" give the list "a", "b". |
| `QuotePage.InputValue` | dom-manipulation/script.js:60-61 | The value of an input box, read as "" when the box is missing, as `?.value` with the `""` fallback does. No contract of its own; `QuotePage.Candidate` states what is built from it. |
| `JsString.IsWhitespace` | dom-manipulation/script.js:60-61 | The code units `trim` removes, the ECMAScript WhiteSpace and LineTerminator sets written out. No contract of its own; `JsString.TrimStart`, `JsString.TrimEnd` and `JsString.TrimIsCore` state what is cut with it. |
| `JsString.Below` | dom-manipulation/script.js:85 | The default comparison of `.sort()`. No contract of its own; `JsString.BelowIrreflexive`, `JsString.BelowAsymmetric`, `JsString.BelowTransitive` and `JsString.BelowTotal` prove it a strict total order, and `JsString.BelowProperPrefix` and `JsString.BelowFirstDifference` fix how it decides. |
| `CategoryIndex.Labels` | dom-manipulation/script.js:85 | `quotes.map(q => q.category)`. No contract of its own; `CategoryIndex.CategoriesSpec` states what the list built from it holds. |
| `CategoryIndex.Distinct` | dom-manipulation/script.js:85 | `new Set(...)` in its iteration order. No contract of its own; `CategoryIndex.DistinctSpec` describes it. |
| `CategoryIndex.Insert` | dom-manipulation/script.js:85 | One insertion step of the sort. No contract of its own; `CategoryIndex.InsertSpec` describes it. |
| `CategoryIndex.Sort` | dom-manipulation/script.js:85 | `.sort()` with the default comparison. No contract of its own; `CategoryIndex.SortSpec` describes it. |
| `CategoryIndex.Categories` | dom-manipulation/script.js:85 | `[...new Set(quotes.map(q => q.category))].sort()`. No contract of its own; `CategoryIndex.CategoriesSpec` and `CategoryIndex.CategoriesCharacterized` describe it. |
| `Selection.Filter` | dom-manipulation/script.js:35 | `quotes.filter(q => q.category === c)`, also used at line 107. No contract of its own; `Selection.FilterSpec` and `Selection.FilterCharacterized` describe it. |
| `Selection.RandomPool` | dom-manipulation/script.js:33-36 | The pool of `showRandomQuote`. No contract of its own; `Selection.RandomPoolSpec` describes it. |
| `Selection.FilterPool` | dom-manipulation/script.js:104-107 | The pool of `filterQuotes`. No contract of its own; `Selection.FilterPoolSpec` describes it. |
| `Selection.SubsequenceMultiset` | dom-manipulation/script.js:35 | A subsequence never holds more copies of a quote than the list it comes from. |
| `Selection.FilterIsSubsequence` | dom-manipulation/script.js:35 | The filter's result is a subsequence of the list, and only of quotes of category `c`. |
| `Selection.FilterCounts` | dom-manipulation/script.js:35 | The filter keeps as many copies of each category-`c` quote as the list has. |
| `Selection.FilterSpec` | dom-manipulation/script.js:35 | The filter is a subsequence of the list and contains only quotes of category `c`. It keeps every occurrence of every quote of category `c`. |
| `Selection.FilterCharacterized` | dom-manipulation/script.js:35 | Reference definition: any pool with the properties `FilterSpec` states is the filter's result. |
| `Selection.FilterAppend` | dom-manipulation/script.js:35 | Filtering distributes over concatenation. |
| `Selection.FilterAfterAppend` | dom-manipulation/script.js:68 | An appended quote joins the end of the pool of its own category and no other pool. |
| `Selection.RandomPoolSpec` | dom-manipulation/script.js:33-36 | With no drop-down, an empty value or "all", the pool is the whole list. Otherwise it is exactly the quotes of that category, in order. |
| `Selection.FilterPoolSpec` | dom-manipulation/script.js:104-107 | For "all" the pool is the whole list. For any other value it is exactly that category's quotes. For every non-empty value it equals the `showRandomQuote` pool. |
| `Selection.DrawIndex` | dom-manipulation/script.js:41 | `floor(r * n)` is a valid index below `n`. |
| `Selection.DrawUniform` | dom-manipulation/script.js:41 | Index `k` is drawn exactly for draws in `[k/n, (k+1)/n)`, an interval of width `1/n`. |
| `Selection.Pick` | dom-manipulation/script.js:37-41 | An empty pool gives "no quotes". Any other pool gives an element of the pool. |
| `Selection.PickReachesEvery` | dom-manipulation/script.js:41 | Every position of a non-empty pool is shown for its `1/n` share of the draws. |

## Left out

- The DOM is not modelled. That covers `renderQuote`, the `innerHTML` writes, `createAddQuoteForm` and the event listeners (lines 24-28, 153-196). Blanking the input boxes after an add is also left out.
- The alerts are not shown. `Add` reports only accepted or rejected. `Import` reports which of its three alerts would appear.
- The sessionStorage `lastQuote` entry and `restoreLast` (lines 27, 45-54) are a side channel for display only. The start-up call to `showRandomQuote` is the `ShowRandomQuote` method.
- `exportToJsonFile` (lines 119-128) builds a download and changes no state.
- The `FileReader` read of `importFromJsonFile` is asynchronous browser I/O, including the case with no file (lines 131, 148-149). `Import` starts from the parsed content of the file.
- JSON text is not modelled, only what `JSON.parse` makes of it. Storing an array and reading it back is taken to give the same quotes. An array whose elements are not `{text, category}` records, for example with numbers or missing fields, cannot be written in this model.
- The page's re-rendering after an add or an import is not part of `Add` and `Import`: the calls to `populateCategories` and `showRandomQuote` at lines 70, 75 and 138-139. Those calls change no modelled state. They are the separate read-only methods `PopulateCategories` and `ShowRandomQuote`.
- `Selection.DrawIndex`: it computes `floor(r * n)` in exact real arithmetic. Floating-point rounding of `Math.random() * pool.length` is not modelled.
- `QuotePage.Page.PopulateCategories`: it always returns the option list. The early return when the page has no drop-down (line 83) is not modelled because it only skips rendering. What the browser does when `sel.value` is set to a label that is not among the options is also not modelled.
- `JsString.Lit` writes the page's string constants as code units. It maps characters outside the Basic Multilingual Plane to U+FFFD, and the page has none.
- `QuotePage.Page.Save`: every localStorage call is taken to succeed. In the code, `setItem` can throw, for example when the quota is exceeded, and the model does not capture what follows:
  - in `addQuote` the quote has already been pushed (line 68) when `saveQuotes()` throws at line 69, so the list grows, the snapshot stays old and nothing after line 69 runs, whereas `QuotePage.Page.Add` promises the snapshot equals the new list;
  - in `importFromJsonFile` the `try` at lines 133-146 also covers `saveQuotes()` at line 137, so a throw there shows "Invalid JSON file." with the list already replaced, whereas `QuotePage.Page.Import` promises `Imported` and an updated snapshot;
  - the `getItem` at line 13 lies outside the `try`, so storage that refuses access stops the whole script at start-up, which the constructor does not capture.
- Remote synchronisation, quote identifiers and conflict resolution are not in this code, so they are not modelled.
