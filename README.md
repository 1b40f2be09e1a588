# Inventory view query engine

This project models the query engine of the `InventoryManagerApp` React component, the
single screen of the InventoryManagerApp repository, and proves properties of it.

The screen keeps a list of stock items (products) in component state, together with a search
query, a category filter, a status filter, a sort key and direction, a page size and a current
page. From that state it derives:

- **Stock status.** `statusOf` labels a product "Agotado" (out of stock), "Bajo" (low) or
  "OK".
- **Summary metrics.** These are computed over the unfiltered list: how many items are low, how
  many are out of stock, how many items there are, and the stock value (the sum of price times
  quantity).
- **Category options.** The sentinel "Todas" comes first, followed by each category once, in
  order of first appearance.
- **The view.** A copy of the list goes through up to three filters in turn: text, category and
  status. It is then sorted in place by price, by quantity or by name, ascending or descending.
- **Pagination.** There is a page count, the slice shown for the current page, and an effect.
  Whenever the page count changes, the effect sends a page past the last one back to page 1.

Modules:

- `JsText`: the JavaScript string built-ins the engine uses.
  - `trim` uses the exact ECMAScript white-space and line-terminator set.
  - `toLowerCase` uses the ASCII case mapping.
  - `includes` is modelled, together with a characterisation as "occurs at some index".
  - `localeCompare` is lexicographic character order, proved antisymmetric and transitive.
- `Products`:
  - the product record and `StatusOf`;
  - the metrics, proved equal to an independent count of products per status;
  - the category options, with their first-seen order.
- `ViewQuery`:
  - the three filters and the fact that applying them in turn equals one pass by their
    conjunction;
  - the comparator, proved to be a total preorder;
  - an in-place insertion sort on an array;
  - `ApplyView`, the filter-then-sort computation.
- `Paging`:
  - `Math.max(1, Math.ceil(n / perPage))`;
  - `Array.prototype.slice` with its index clamping;
  - the page window;
  - the reset rule.
- `InventoryApp`:
  - a class holding the component's state;
  - its memoised view and page-reset effect;
  - the three setters the screen wires to its inputs: search box, category selector and status
    selector.

Behaviour kept as the code has it:

- **Untrimmed query.** The text filter is switched on when the trimmed query is non-empty.
  However, it searches for the lower-cased query as typed, surrounding white space included.
- **Unknown filter values.** A category or status value that is neither the sentinel nor a real
  value still filters by equality. An unknown status therefore empties the view
  (`UnknownStatusEmptiesView`).
- **Unknown sort key.** Any sort key other than "price" or "quantity" sorts by name.
- **Any direction but "asc".** Any direction other than "asc" sorts descending.

## Model

| member | source | states |
|---|---|---|
| JsText.TrimStart | src/App.jsx:49 | drops only leading white space: the result is a suffix, what was dropped is all white, and the result does not start with white space |
| JsText.TrimEnd | src/App.jsx:49 | drops only trailing white space: the result is a prefix, what was dropped is all white, and the result does not end with white space |
| JsText.Trim | src/App.jsx:49 | the trimmed query is a contiguous piece of the query with no white space at either end |
| JsText.TrimCutsWhite | src/App.jsx:49 | `trim` cuts off white space only: the trimmed query sits at some index k of the query, and everything before k and after the trimmed piece is white space |
| JsText.TrimEmptyIff | src/App.jsx:49 | `query.trim()` is falsy exactly when every character of the query is white space |
| JsText.LowerChar | src/App.jsx:50 | a capital ASCII letter becomes the small letter 32 code points on, every other character is unchanged, and the result is never a capital letter |
| JsText.LowerCharWhite | src/App.jsx:49-50 | lower-casing a character neither creates nor removes white space |
| JsText.AllWhiteToLower | src/App.jsx:49-50 | a query is all white space exactly when its lower-cased form is |
| JsText.ToLower | src/App.jsx:50-55 | lower-casing keeps the length and maps each character on its own |
| JsText.ToLowerIdempotent | src/App.jsx:50-55 | lower-casing an already lower-cased field changes nothing |
| JsText.Includes | src/App.jsx:52-55 | `includes` as a search from each start position in turn: true when the field starts with the needle there; its meaning is stated by `IncludesIff` |
| JsText.IncludesIff | src/App.jsx:52-55 | `includes` holds exactly when the needle occurs in the field at some index |
| JsText.LocaleCompare | src/App.jsx:65 | the name comparison is negative, zero or positive, and zero exactly for equal names |
| JsText.LocaleCompareFlip | src/App.jsx:65 | swapping the two names negates the comparison |
| JsText.LocaleCompareTrans | src/App.jsx:65 | "sorts no later than" on names is transitive |
| Products.StatusOf | src/App.jsx:75-79 | "Agotado" iff quantity <= 0, "Bajo" iff 0 < quantity <= minStock, "OK" iff quantity > 0 and quantity > minStock |
| Products.CountLow | src/App.jsx:38 | the low count never exceeds the number of products |
| Products.CountOut | src/App.jsx:39 | the out-of-stock count never exceeds the number of products |
| Products.StockValue | src/App.jsx:41 | when every price and quantity is non-negative the stock value is non-negative |
| Products.MetricsOf | src/App.jsx:37-43 | the total is the number of products, and an empty list gives all-zero metrics |
| Products.MetricsCountStatuses | src/App.jsx:38-39 | the low count is the number of products whose status is "Bajo", and the out count the number whose status is "Agotado" |
| Products.StatusesPartition | src/App.jsx:38-40 | every product has exactly one of the three statuses, so low + out <= total |
| Products.StockValueSplit | src/App.jsx:41 | the stock value adds up over any split of the list: every row counts, zero and negative quantities included |
| Products.CategoriesOf | src/App.jsx:45 | `products.map(p => p.category)`: one entry per product, in list order |
| Products.Distinct | src/App.jsx:45 | spreading a Set built from the categories gives each value once, and nothing else |
| Products.DistinctFirstSeenOrder | src/App.jsx:45 | the distinct values come in the order of their first occurrence |
| Products.CategoryOptions | src/App.jsx:45 | "Todas" comes first, and a category is among the other options exactly when some product has it |
| Products.CategoryOptionsOrder | src/App.jsx:45 | the options after "Todas" repeat nothing and follow first appearance in the product list |
| ViewQuery.TextHit | src/App.jsx:52-55 | the text test: the needle is included in the lower-cased name, sku, category or location; its meaning is stated by `IncludesIff` and `CriteriaAdmit` |
| ViewQuery.Keep | src/App.jsx:51-59 | one filter call never lengthens the list; what it keeps is stated by `KeepCount` |
| ViewQuery.KeepCount | src/App.jsx:51-59 | one filter call keeps each product that satisfies its test, as often as it occurs, and drops every other product |
| ViewQuery.Criteria | src/App.jsx:49-59 | at most three filters are switched on, and none exactly when the trimmed query is empty, the category is "Todas" and the status is "Todos" |
| ViewQuery.CriteriaAdmit | src/App.jsx:49-59 | passing every switched-on filter means: the query is all white space or the lower-cased query is in one of the four fields; the category is "Todas" or equal; the status is "Todos" or equal |
| ViewQuery.QueryCaseIgnored | src/App.jsx:49-55 | the search ignores the query's letter case: lower-casing the query first admits exactly the same products |
| ViewQuery.KeepAllSnocItem | src/App.jsx:48-59 | a product appended to the list survives the chain of filters exactly when it passes them all, and lands after the other survivors |
| ViewQuery.FiltersInTurn | src/App.jsx:48-59 | applying the active filters one after another gives the same list, in the same order, as one pass keeping the admitted products |
| ViewQuery.KeepAllCount | src/App.jsx:48-59 | after a chain of filters each product occurs as often as in the list if it passes them all, and not at all otherwise |
| ViewQuery.SelectionCount | src/App.jsx:47-59 | before sorting, the view holds exactly the admitted products, each as often as in the list |
| ViewQuery.UnknownStatusEmptiesView | src/App.jsx:59 | a status filter other than "Todos", "OK", "Bajo" or "Agotado" leaves the view empty |
| ViewQuery.NoFilterKeepsAll | src/App.jsx:48-59 | with a blank query, "Todas" and "Todos", the view before sorting is the whole list |
| ViewQuery.Narrow | src/App.jsx:51-59 | one `list = list.filter(...)` step extends the chain of applied filters by one |
| ViewQuery.FilterCopy | src/App.jsx:48-59 | the copied list after the conditional filter calls is the chain of exactly the switched-on filters, in source order |
| ViewQuery.KeyCompare | src/App.jsx:62-65 | the sign of the key comparison compares prices for "price", quantities for "quantity", and it is zero exactly for equal names for any other key |
| ViewQuery.Direction | src/App.jsx:61 | the direction factor is +1 or -1, and +1 exactly for "asc" |
| ViewQuery.Compare | src/App.jsx:60-66 | for "asc" the comparator is the key comparison, and for any other direction it is the key comparison with the two products swapped |
| ViewQuery.KeyCompareFlip | src/App.jsx:62-66 | the key comparison is antisymmetric for price, quantity and name |
| ViewQuery.KeyCompareTrans | src/App.jsx:62-66 | the key comparison is transitive for price, quantity and name |
| ViewQuery.InOrderTotal | src/App.jsx:60-67 | the comparator relates any two products, in one order or the other |
| ViewQuery.InOrderTrans | src/App.jsx:60-67 | the comparator is transitive in either direction, so it is a total preorder and a valid sort comparator |
| ViewQuery.SortedMeaning | src/App.jsx:60-67 | in a sorted view, prices, quantities or names (any other key) are non-decreasing for "asc" and non-increasing for any other direction |
| ViewQuery.SortInPlace | src/App.jsx:60-67 | the in-place sort leaves the array ordered by the comparator, with the same products |
| ViewQuery.SortCopy | src/App.jsx:60-67 | sorting the filtered copy gives an ordered permutation of it |
| ViewQuery.ApplyView | src/App.jsx:47-69 | the view is a permutation of exactly the products every active filter admits, ordered by the chosen key and direction; the product list is a value and stays as it was |
| Paging.CeilDiv | src/App.jsx:71 | `Math.ceil(n / d)` is the fewest d-sized pieces that cover n |
| Paging.PageCount | src/App.jsx:71 | the page count is at least 1, its pages hold the whole view, it is 1 for an empty view, and for a non-empty view its last page is not empty |
| Paging.SliceIndex | src/App.jsx:73 | a non-negative slice bound is clamped to the length; a negative one counts back from the end, and is 0 when it reaches back past the start |
| Paging.JsSlice | src/App.jsx:73 | `slice(start, end)` is the piece between the clamped bounds, or empty when they cross |
| Paging.PageItems | src/App.jsx:73 | a page from 1 on shows at most perPage items, and only items of the view |
| Paging.PageItemsWindow | src/App.jsx:73 | page p shows at most perPage items, namely the run starting at (p-1)*perPage, and nothing once that start is past the end |
| Paging.ItemOnItsPage | src/App.jsx:71-73 | item k of the view is shown on page k / perPage + 1 at offset k % perPage, and that page is within the page count |
| Paging.PageStartInRange | src/App.jsx:71 | a page between 1 and the page count starts before the end of a non-empty view |
| Paging.InRangePageNotEmpty | src/App.jsx:71-73 | every page between 1 and the page count of a non-empty view shows at least one item |
| Paging.SettledPage | src/App.jsx:72 | after the reset rule the page lies between 1 and the page count; it is the old page when that was in range, and 1 otherwise |
| InventoryApp.Inventory.constructor | src/App.jsx:29-35 | the initial state: the given products, empty query, "Todas", "Todos", name ascending, 10 per page, page 1, with the view computed and the effect run |
| InventoryApp.Inventory.Recompute | src/App.jsx:47-69 | the memoised view is recomputed as the view of the current products and parameters |
| InventoryApp.Inventory.RunPageEffect | src/App.jsx:72 | the effect acts only when the page count changed since its last run, and then applies the reset rule; the view is untouched |
| InventoryApp.Inventory.SetQuery | src/App.jsx:116 | typing a query updates only the query, keeps the view current, and leaves a page inside the new page count (the old page if it fits, else 1) |
| InventoryApp.Inventory.SetCategory | src/App.jsx:120 | choosing a category updates only the category, keeps the view current, and leaves a page inside the new page count |
| InventoryApp.Inventory.SetStatus | src/App.jsx:123 | choosing a status updates only the status, keeps the view current, and leaves a page inside the new page count |
| InventoryApp.Inventory.Summary | src/App.jsx:37-43 | the cards count every product as the total, count the products whose status is "Bajo" and "Agotado", and low + out never exceeds the total |
| InventoryApp.Inventory.CategoryList | src/App.jsx:45 | "Todas" comes first, and a category is among the other options exactly when some product has it |
| InventoryApp.Inventory.PageCount | src/App.jsx:71 | the page count of the current view is at least 1 and its pages hold the whole view |
| InventoryApp.Inventory.PageItems | src/App.jsx:73 | the table shows at most perPage rows, all of them from the current view |
| InventoryApp.Inventory.SettledPageNotEmpty | src/App.jsx:71-73 | once the effect has caught up, a non-empty view shows at least one row |
| InventoryApp.SampleProducts | src/App.jsx:19-26 | the six sample items the screen starts with, each stamped with its own clock reading |
| InventoryApp.SampleSummary | src/App.jsx:37-43 | for the sample items the cards read two low, one out of stock, six items and a stock value of 475732 |

## Left out

- Rendering is not modelled. This covers the JSX and the components `MetricCard`, `Th`, `Td`,
  `StatusBadge` and `IconBtn` (src/App.jsx:81-223), which are presentation only.
- Currency and date formatting are not modelled. `Intl.NumberFormat` and `toLocaleString` are
  locale library calls.
- `cryptoRandomId` and `new Date()` are not modelled: they draw on randomness and the clock.
  `SampleProducts` takes the six identifiers and the six timestamps as parameters instead.
- Create, edit, delete, move and export are not modelled: their buttons have no handlers, so
  there is no logic behind them.
- React scheduling is replaced by explicit calls.
  - `useMemo` becomes `Recompute`, and `useEffect` becomes `RunPageEffect`. Each setter calls
    both, in that order.
  - The render between a state change and the effect is not a separate step of the setters.
    During that render an out-of-range page shows no rows.
- `setSort`, `setPerPage` and `setProducts` are declared in the component but never called, so
  the model has no setters for them.
  - The sort stays name ascending, the page size stays 10, and the products stay as given.
  - `setPage` is called only by the reset effect (src/App.jsx:72), which writes 1; the model
    has it inside `RunPageEffect` and no setter of its own. So in reachable states the page is
    always 1.
- JsText.LocaleCompare: the comparison is lexicographic order on characters, returning -1, 0 or
  1. Real `localeCompare` uses locale collation and may return any negative or positive number;
  the sort only uses the sign.
  - The stand-in is a total order that is zero only for equal strings. `KeyCompare`'s zero case
    for names ("zero exactly for equal names") and the exact negation of `LocaleCompareFlip`,
    which `Compare`'s contract relies on, depend on that.
  - Real collation can return 0 for distinct names, such as the canonically equivalent "\u00E9"
    and "e\u0301". The program treats such names as a tie, and its stable sort keeps them in list
    order; the model orders them by code point instead.
- JsText.ToLower: the case mapping covers the ASCII letters only. Unicode case mapping is not
  modelled.
- Strings are sequences of characters, not UTF-16 code units. This matters for `trim`,
  `includes` and `localeCompare` only outside the Basic Multilingual Plane.
- Prices, quantities and the stock value are unbounded integers, not floating-point numbers, so
  there is no rounding in `price * quantity`, in the sum, or in the comparator's differences.
- ViewQuery.SortInPlace: the contract does not state stability. Ties keep their relative order
  under `Array.prototype.sort`, and the insertion sort does keep them, but the contract states
  only the order and the permutation.
- ViewQuery.SortCopy: the ordering among products the comparator ties is not stated, for the
  same reason.
- ViewQuery.ApplyView: the ordering among products the comparator ties is not stated, for the
  same reason. The memoised view of `InventoryApp.Inventory` is likewise held to the admitted
  products as a multiset, ordered by the comparator.
