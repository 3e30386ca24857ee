# Noodle catalog: the detail screen's list controller, in Dafny

This project models the one stateful screen of a small React Native app for browsing noodle products. That screen is `DetailScreen` in `App.js`, and it has four parts:

- A product collection and a displayed list derived from it.
- Search by brand while typing.
- Two sorts by rating, ascending and descending.
- The completion of the data fetch that fills both lists.

It also models the progressive image cell shown in every row, plus the two small expressions a row and the empty list render: the default rating and the empty-list caption.

Modules, one file each:

- `jstext.dfy` (`JsText`): the JavaScript string operations the screen uses.
  - `trim`, using the WhiteSpace and LineTerminator code points of the ECMAScript Language Specification.
  - `toUpperCase` and `toLowerCase`, on ASCII letters.
  - `indexOf`.
  - The string operator `<` (code-unit lexicographic order). It is proved to be a strict total order.
- `catalog.dfy` (`Catalog`): the product record, the brand match and the filter.
- `ratingorder.dfy` (`RatingOrder`):
  - the rating key;
  - the two comparators;
  - what the model requires of `Array.prototype.sort` with them (`AdmissibleSort`);
  - the in-place sort of the copied array, and the lemmas about sorted results.
- `screen.dfy` (`Screen`): the class `DetailScreen`. Its fields are the component's state (`isLoading`, `noodleData`, `filterNoodleData`, `noodleImageData`, `searchQuery`). Each handler is a method that updates them.
- `imagecell.dfy` (`ImageCell`): the class `ProgressiveImage`, with its `showDefault` and `error` flags and their event handlers. A pure model of the same flags over event traces.
- `scenarios.dfy` (`Scenarios`): runs of the handlers on concrete data.
- `wrappers.dfy` (`Wrappers`): `Option`, standing for `undefined`.

The comparators never return 0 (`App.js:62`, `App.js:71`), not even for an item compared with itself. So they are not consistent comparators in the sense of section 23.1.3.30 of the ECMAScript Language Specification, on any non-empty array, and the standard leaves the order of the sort implementation-defined in every case. The sort's contract states this:

- the result is always a permutation, which the standard guarantees;
- it is strictly ordered when the keys are pairwise distinct. This is assumed of the engine: it holds for any comparison sort that never compares an item with itself, since on distinct keys the comparators then answer like a consistent one.

From that, the lemmas derive three consequences:

- with distinct keys the sorted list is fully determined;
- descending is the reverse of ascending;
- sorting again is a no-op.

The body of `SortInPlace` is one admissible algorithm: an insertion sort driven by the same comparator.

The fetch in `getDataFromApi` is split at its `await`s into `BeginFetch` (lines 80-81), `ReceiveImages` (line 85) and `ReceiveProducts` (lines 89-91). Other handlers can run between these steps. `Refresh` is the three steps run back to back.

## Model

| member | source | states |
|---|---|---|
| JsText.Trim | App.js:47 | the result neither starts nor ends with white space, and the input is the result with only white space before and after it |
| JsText.Upper | App.js:47-48 | same length; every character is upper-cased (ASCII letters), the rest kept |
| JsText.Lower | App.js:62 | same length; every character is lower-cased (ASCII letters), the rest kept |
| JsText.IndexOf | App.js:49 | the result is -1 when the needle occurs nowhere, and otherwise the least index at which it occurs |
| JsText.IndexOfEmpty | App.js:49 | the empty string is found at index 0 of every string |
| JsText.TrimUnpadded | App.js:47 | a string with no white space at either end is its own trimmed form |
| JsText.IndexOfMissingFirst | App.js:49 | a needle whose first character is nowhere in the haystack is not found |
| JsText.LessThanIrreflexive | App.js:62 | no string is `<` itself |
| JsText.LessThanAsymmetric | App.js:62 | `a < b` and `b < a` never both hold |
| JsText.LessThanTransitive | App.js:62 | `<` on strings is transitive |
| JsText.LessThanTotal | App.js:62 | two distinct strings are always ordered one way or the other |
| JsText.LessThanIff | App.js:62 | the string `>` of the comparators is code-unit order: one string is below another exactly when it is a proper prefix of it or has the smaller code unit where the two first differ |
| Catalog.ItemData | App.js:47 | the searched text is the trimmed brand upper-cased character by character plus one final space: it has no lower-case ASCII letter and starts with no white space unless it is only that space |
| Catalog.Matches | App.js:46-50 | a product matches exactly when the upper-cased query occurs at some position in its item data |
| Catalog.FilterByBrand | App.js:45-51 | the result is an order-preserving subsequence of the collection, and each product occurs in it as often as in the collection if it matches, otherwise not at all |
| Catalog.FilterMembership | App.js:46-50 | a product is in the result if and only if it is in the collection and matches |
| Catalog.FilterEmptyQuery | App.js:44-53 | filtering with the empty query returns the whole collection in order, just like the empty-query branch |
| Catalog.FilterIdempotent | App.js:46-50 | filtering a filtered list again with the same query changes nothing |
| Catalog.QueryCaseInsensitive | App.js:48 | two queries with the same upper-case form match the same products |
| Catalog.TrailingSpaceMatches | App.js:47-49 | because a space is appended to the brand, a query ending in one space matches a brand that ends with the rest of the query |
| Catalog.LeadingSpaceDoesNotMatch | App.js:47-49 | the query is not trimmed: a space in front of the full brand makes it fail to match |
| RatingOrder.KeyIsLowerCased | App.js:62 | the sort key is the rating text with each ASCII letter lower-cased and every other character kept |
| RatingOrder.KeyCaseInsensitive | App.js:62 | ratings that differ only in letter case, such as "NAN" and "nan", have the same key and so tie |
| RatingOrder.Compare | App.js:62-71 | the comparators give only 1 or -1, never 0, even for an item compared with itself. Ascending gives 1 exactly when the first key is greater; descending gives -1 exactly then |
| RatingOrder.CompareSound | App.js:62-71 | a positive answer means the swapped pair is in order, any other answer means the pair as given is |
| RatingOrder.CompareInconsistentOnTies | App.js:62-71 | on equal keys both argument orders get the same answer (-1 ascending, 1 descending), so the comparator is not consistent |
| RatingOrder.CompareAntisymmetricOnDistinct | App.js:62-71 | on distinct keys the answers are antisymmetric |
| RatingOrder.InOrderTransitive | App.js:62 | "not inverted" is transitive, for either direction |
| RatingOrder.DistinctKeysPermutation | App.js:63 | a permutation keeps lower-cased ratings pairwise distinct |
| RatingOrder.InOrderDistinctStrict | App.js:63 | a list with no inverted pair and distinct keys is strictly ordered |
| RatingOrder.StrictlyOrderedUnique | App.js:63 | two strictly ordered permutations of one another are equal: with distinct keys the sort's outcome is determined |
| RatingOrder.ReverseAscendingIsDescending | App.js:62-71 | reversing a strictly ascending list gives a strictly descending one |
| RatingOrder.DescendingIsReverseOfAscending | App.js:59-76 | with distinct keys, any descending result is the reverse of any ascending result of the same list |
| RatingOrder.SortAgainIsNoOp | App.js:59-66 | with distinct keys, sorting a sorted result again in the same direction leaves it unchanged |
| RatingOrder.TextNotNumericOrder | App.js:62 | ratings compare as text: "10" is before "2", "2" is before "NAN" (key "nan") |
| RatingOrder.AscendingExample | App.js:59-65 | the ratings "10", "2", "NAN" can only sort ascending into exactly that order |
| RatingOrder.DigitSortsBeforeNan | App.js:62 | any rating starting with a digit sorts before the sentinel in ascending order |
| RatingOrder.SortInPlace | App.js:63 | `tempA.sort(sorter)`: the array ends as a permutation of its old contents, strictly ordered when the keys are distinct |
| Screen.RowRating | App.js:109 | the rating widget gets 0 exactly for the exact text "NAN", and otherwise the `Stars` text itself |
| Screen.EmptyCaption | App.js:126 | an empty list shows "Fetching Items" while loading and "No Items Found" otherwise; a non-empty list shows no caption |
| Screen.RowImageUri | App.js:100 | a row's image address is one of the fetched image addresses, chosen independently of the row, and undefined when there are none |
| Screen.FilteredIsDrawn | App.js:46 | a filtered list is a sub-multiset of the collection it filters |
| Screen.DetailScreen.Caption | App.js:126 | the screen shows no caption while rows are displayed; with none, "Fetching Items" while loading and "No Items Found" otherwise |
| Screen.DetailScreen.constructor | App.js:35-41 | a mounted screen is loading and has empty collections and an empty query |
| Screen.DetailScreen.OnChangeSearch | App.js:42-55 | records the query; the displayed list becomes the filter of the full collection (any earlier sort is discarded), exactly the full collection for the empty query; nothing else changes |
| Screen.DetailScreen.SortBy | App.js:59-76 | the displayed list becomes an admissible sort of itself; loading is false; the full collection, images and query are unchanged; a displayed list drawn from the full collection stays so |
| Screen.DetailScreen.SortAscending | App.js:59-66 | as `SortBy` with the ascending comparator |
| Screen.DetailScreen.SortDescending | App.js:68-76 | as `SortBy` with the descending comparator |
| Screen.DetailScreen.BeginFetch | App.js:80-81 | loading, and the full collection emptied; the displayed list is kept, so it is drawn from the full collection only if it is empty |
| Screen.DetailScreen.ReceiveImages | App.js:85 | the image collection is replaced; nothing else changes |
| Screen.DetailScreen.ReceiveProducts | App.js:89-91 | the full and the displayed collections both become the fetched products and loading ends; the query is kept and not applied |
| Screen.DetailScreen.Refresh | App.js:79-92 | after a successful fetch the state is determined by the responses alone: no stale rows, loading false, query kept |
| ImageCell.ChooseSource | App.js:18 | placeholder exactly while `showDefault`; otherwise the warning image exactly when `error`; otherwise the remote address |
| ImageCell.Step | App.js:22-23 | one event: a load end clears `showDefault` and nothing else, an error sets `error` and nothing else |
| ImageCell.Run | App.js:15-23 | after any events, `showDefault` holds exactly if it held and no load-end came, and `error` holds exactly if it held or an error came |
| ImageCell.RunAppend | App.js:22-23 | running two event sequences one after the other is running their concatenation |
| ImageCell.NeverGoesBack | App.js:18-23 | later events never return the cell to an earlier source, whatever address each render passes: placeholder, then remote, then warning |
| ImageCell.ErrorIsFinal | App.js:18-23 | after a load end and an error, the warning image is shown whatever the address |
| ImageCell.LoadedShowsRemote | App.js:18-23 | after a load end and no error, the current address is shown |
| ImageCell.ProgressiveImage.constructor | App.js:15-16 | a new cell has `showDefault` set, `error` clear, and shows the placeholder |
| ImageCell.ProgressiveImage.OnLoadEnd | App.js:22 | clears `showDefault`, keeps `error` |
| ImageCell.ProgressiveImage.OnError | App.js:23 | sets `error`, keeps `showDefault` |
| ImageCell.ProgressiveImage.Rerender | App.js:18-21 | new props change the address only; the flags are not reset |
| Scenarios.FilterMar | App.js:46-50 | searching Nissin and Maruchan for "mar" keeps only Maruchan |
| Scenarios.SearchSortClear | App.js:42-66 | "mar" shows only Maruchan; sorting that one row leaves it; clearing the query shows both products in their fetched order |
| Scenarios.SearchDuringRefresh | App.js:42-55 | while a refresh is in flight the old rows stay visible with an empty full collection; a search for "mar" then empties the list, whose caption is "Fetching Items", and clearing the search leaves it empty |
| Scenarios.FailedFetchThenSort | App.js:59-92 | after a fetch that never completes the empty list says "Fetching Items"; a sort then clears the loading flag and the caption becomes "No Items Found" |
| Scenarios.OverlappingRefreshes | App.js:79-92 | with two overlapping fetches, the first completion already clears the loading flag, and the products that arrive last are shown |
| Scenarios.QueryKeptListUnfiltered | App.js:89-90 | a completed fetch shows the whole collection even though the search box still holds "mar" |

## Behaviour of the code worth noting

- A refresh empties only the full collection (`App.js:81`). The displayed list keeps its rows until the products arrive. Until then, the displayed list is not drawn from the full collection (`BeginFetch`, `SearchDuringRefresh`). A search typed in that window, or clearing the search, empties the list.
- When a fetch or its JSON parsing fails, the `await` rejects and `getDataFromApi` stops before `setLoading(false)`. `getDataFromApi` leaves the loading flag set, and it stays set until a sort handler (`App.js:65`, `App.js:74`) or a later successful fetch (`App.js:91`) clears it. Until then an empty list shows "Fetching Items" (`FailedFetchThenSort`). In the model this is a `BeginFetch`, possibly followed by a `ReceiveImages`, with no `ReceiveProducts`.
- The image cell leaves the placeholder only on a load-end event (`App.js:22`). An error alone sets `error`; the warning image appears only once a load end has also been seen.
- The brand is matched after trimming, upper-casing and appending one space. The query is upper-cased but not trimmed.
- Re-sorting is a no-op, and descending is the reverse of ascending, only when the lower-cased ratings are pairwise distinct. With ties, the engine may order the items in any way.

## Left out

- The network requests and JSON parsing (`App.js:83-88`) are I/O. Their results are the parameters of `ReceiveImages` and `ReceiveProducts`. The rejection path is modelled only as a fetch that never completes.
- Concurrency is modelled only as interleavings of the handler steps, which run one at a time on the UI thread. Last write wins.
- The random pick `Math.floor(Math.random() * length)` (`App.js:100`) involves floating point and randomness. `RowImageUri` takes the resulting index as a parameter, constrained to the range that expression can produce.
- Case mapping covers ASCII letters only; full Unicode `toUpperCase` and `toLowerCase` (which can change a string's length) are not modelled. `trim` uses the full set of ECMAScript white-space and line-terminator code points.
- A string is a sequence of Dafny characters. Each character stands for one UTF-16 code unit, so surrogate pairs and the code-unit order of characters outside the Basic Multilingual Plane are not modelled.
- `Stars.toString()` is taken to be the rating text itself. A rating held as a JSON number is not modelled.
- React's batching of the state setters is not modelled. The sort handlers set the loading flag and clear it again within one handler, so only the cleared flag is ever rendered.
- The `filterNoodleData || []` guard (`App.js:173`) and optional chaining on missing records are not modelled. The model's collections are never undefined.
- SortInPlace: the strict order with distinct keys is assumed of the engine, not guaranteed by ECMAScript. The comparators are never consistent, so section 23.1.3.30 of the ECMAScript Language Specification leaves the order implementation-defined for every non-empty array. The assumption is that the engine runs a comparison sort that never compares an item with itself, as the insertion sort in the body does. With two equal lower-cased ratings the contract says nothing about the order.
- Rendering, navigation, styling and the library widgets are not modelled: `HomeScreen`, `App`, the bottom sheet, the search bar, the list view, the rating widget's reading of its default rating, and the dark-mode colours (`App.js:96-221`). `Screen.EmptyCaption` and `Screen.RowRating` model only the values these widgets receive.
