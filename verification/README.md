# Storefront filter engine and cart controller, in Dafny

This project models the two pieces of logic in a storefront theme's browser scripts.

- **Facet filter engine** (`assets/all-products.js`). It builds product records from the rendered product cards. It reads the active filters: ticked facet inputs grouped by name, plus an optional inclusive price range. It picks a matcher for each filter name by substring precedence. A product stays visible when it is inside the price range and every non-empty facet group has a value it matches. The module also covers the reset (`clearAllFilters`) and the query-string grouping (`getUrlParams`).
- **Cart quantity controller** (`assets/cart-page.js`). It is a state machine over minus, plus and remove clicks, debounce timers firing, change requests settling and cart-section re-fetches settling. The state is each rendered line's displayed quantity, a per-key pending-update slot (last write wins), and the disabled markers on the controls.

Modules:

- `JsStrings` (`js_strings.dfy`): the JavaScript string operations the scripts use (`toLowerCase`, `trim`, `split`, `includes`, `replace(/:/g, "-")`).
- `Options` (`options.dfy`): the optional-value type.
- `Entries` (`entries.dfy`): the values ordered (key, value) entries give one key, the reference both grouping loops are measured against.
- `Products` (`products.dfy`): the card data, product records and slider bounds.
- `Matchers` (`matchers.dfy`): the matcher table and its precedence list.
- `Filters` (`filters.dfy`): active filters, the keep predicate, filtering, display and the page reset.
- `UrlParams` (`url_params.dfy`): query-string grouping.
- `Cart` (`cart.dfy`): the cart controller.

Prices are exact `real`s that have already been parsed. A `parseInt` result is an `Option<int>`, with `None` standing for NaN. Timers and network calls are events. The outcome of a request is a parameter of the event that settles it.

## Model

| member | source | states |
|---|---|---|
| JsStrings.Lower | assets/all-products.js:119-128 | lower-casing keeps the length, turns each upper-case ASCII letter into its lower-case letter (code point plus 32) and keeps every other character, so the result has no upper-case letter |
| JsStrings.LowerIdempotent | assets/all-products.js:199-202 | lower-casing a value a second time (as the filter pass does with grouped values) changes nothing |
| JsStrings.Trim | assets/all-products.js:238-239 | `trim` gives a slice of its input that is cut only at whitespace and has no whitespace at either end |
| JsStrings.TrimOfTrimmed | assets/all-products.js:119-119 | a string with no whitespace at either end is unchanged by `trim` |
| JsStrings.Split | assets/all-products.js:117-119 | `split(",")` gives one piece more than there are commas, no piece contains a comma, and joining the pieces with commas gives the input back |
| JsStrings.SplitJoin | assets/all-products.js:117-119 | splitting a comma-join of comma-free pieces gives those pieces back |
| JsStrings.Includes | assets/all-products.js:166-166 | `includes` is true exactly when the needle occurs at some position of the string |
| JsStrings.SubstringTransitive | assets/all-products.js:169-175 | a name that contains a key also contains every string that key contains |
| JsStrings.ReplaceAll | assets/cart-page.js:32-35 | every `:` becomes `-`, every other character stays where it is, and the result has no `:` |
| Products.CardTitle | assets/all-products.js:122-126 | the title is the data attribute when it is non-empty, else the title element's text, else the empty string |
| Products.MakeProduct | assets/all-products.js:110-130 | a record keeps its card's price; its tags are the comma-separated pieces of the tags attribute, in order, each trimmed and lower-cased (so trimmed, lower-case and comma-free); vendor, type and title are the lower-cased attribute texts, the title chosen as in Products.CardTitle; it is available exactly when the lower-cased attribute is one of "true", "instock", "in_stock", "available" |
| Products.NormaliseTags | assets/all-products.js:117-119 | a tags attribute gives one tag per comma-separated piece, the i-th tag being the i-th piece trimmed and lower-cased |
| Products.EmptyTagsGiveOneEmptyTag | assets/all-products.js:117-119 | a card with no tags attribute gets exactly one tag, the empty string |
| Products.NormalTagsRoundTrip | assets/all-products.js:117-119 | a tag attribute made by comma-joining already normal tags gives back exactly those tags |
| Products.InitializeProducts | assets/all-products.js:107-133 | there is one record per card, in page order: the record at position i is the one Products.MakeProduct builds from card i, with i as its element |
| Products.ElementsArePositions | assets/all-products.js:107-133 | each record refers to the card at its own position and carries that card's price |
| Products.MinPrice | assets/all-products.js:135-136 | `Math.min` over the prices is at most every price and equals one of them |
| Products.MaxPrice | assets/all-products.js:135-137 | `Math.max` over the prices is at least every price and equals one of them |
| Products.Ceil | assets/all-products.js:137-137 | `Math.ceil` gives the least integer that is not below its argument |
| Products.SliderBounds | assets/all-products.js:134-138 | with no products the bounds stay 0 and 1000; otherwise every price lies within the bounds, and both bounds are within 1 of some price |
| Matchers.SelectFrom | assets/all-products.js:169-175 | the chosen matcher is that of the first key, from the given position on, that occurs in the name, or the default matcher exactly when no such key occurs |
| Matchers.Select | assets/all-products.js:194-196 | the matcher for a filter name is that of the first precedence key that occurs in the name as a substring, or the default matcher exactly when none occurs |
| Matchers.AvailabilityMatches | assets/all-products.js:147-156 | the availability matcher can only accept a value that is one of the recognised "in stock" or "out of stock" spellings |
| Matchers.AvailabilityTriState | assets/all-products.js:147-156 | an "in stock" spelling matches exactly the available products, an "out of stock" spelling matches exactly the unavailable ones, and any other value matches neither |
| Matchers.DefaultMatches | assets/all-products.js:162-166 | a value equal to a tag, the product type or the vendor is accepted, and the empty value is accepted by every record because every title contains it; DefaultIsDisjunction gives the exact condition |
| Matchers.Matches | assets/all-products.js:143-166 | whatever the product-type, vendor or tag matcher accepts the default matcher accepts too; the availability matcher accepts only a recognised spelling; the default matcher accepts the empty value |
| Matchers.DefaultIsDisjunction | assets/all-products.js:162-166 | the default matcher accepts exactly when the tag, product-type or vendor matcher accepts or the title contains the value |
| Matchers.SpecificImpliesDefault | assets/all-products.js:143-166 | whatever the product-type, vendor or tag matcher accepts, the default matcher accepts too |
| Matchers.AvailabilityIffMentioned | assets/all-products.js:158-175 | a name resolves to the availability matcher exactly when it contains "availability", because the namespaced key contains the plain one |
| Matchers.ExamplePrefixedAvailability | assets/all-products.js:169-175 | "my_availability" resolves to the availability matcher |
| Matchers.ExampleUnrelatedName | assets/all-products.js:194-196 | "size" contains no precedence key and resolves to the default matcher |
| Filters.MapFilter | assets/all-products.js:234-239 | the result is the images of the accepted elements in their original order, one per accepted position (the j-th is the image of the j-th kept position); it holds exactly the images of accepted elements, and nothing when none is accepted |
| Filters.IntOr | assets/all-products.js:228-229 | the falsy-or-fallback read of `parseInt`: a parsed non-zero number is kept; NaN and 0 give the fallback; the result is 0 only when the fallback is |
| Filters.Normalise | assets/all-products.js:238-239 | the pair is the input's name and value, each trimmed and then lower-cased; both components therefore have no whitespace at either end and no upper-case letter |
| Filters.Ticked | assets/all-products.js:234-239 | the j-th pair is the trimmed, lower-cased (name, value) of the j-th ticked input in page order, repeated inputs included; a pair is collected exactly when some ticked input normalises to it; every pair is trimmed and lower-case; with nothing ticked nothing is collected |
| Entries.ValuesOfNonEmpty | assets/all-products.js:241-244 | a name has grouped values exactly when some ticked input carries that name |
| Filters.Group | assets/all-products.js:237-245 | the grouped keys are exactly the names that occur; each key holds its values in input order |
| Filters.GetActiveFilters | assets/all-products.js:217-248 | a price range exists exactly when both price inputs exist; a falsy minimum reads as 0 and a falsy maximum as the slider maximum; the list groups the ticked values by their normalised name, in input order |
| Filters.GroupedValuesAreNormal | assets/all-products.js:239-239 | every grouped value is lower-case |
| Filters.AnyValueMatches | assets/all-products.js:200-202 | `values.some(...)` is true exactly when some value, lower-cased, is accepted by the matcher |
| Filters.Keep | assets/all-products.js:180-208 | the `filter` callback; its meaning is stated by Filters.KeepIff: inside the inclusive price range (when there is one) and matched by every non-empty group |
| Filters.KeepIff | assets/all-products.js:180-208 | a product is kept exactly when it lies in the inclusive price range (when there is one) and every non-empty group has a value its selected matcher accepts |
| Filters.RelowerIsHarmless | assets/all-products.js:199-202 | for grouped (already lower-case) values, lower-casing them again before matching changes no verdict |
| Filters.KeptPositions | assets/all-products.js:180-208 | the kept positions strictly increase, and a position is among them exactly when its product passes |
| Filters.FilterProducts | assets/all-products.js:177-208 | the filtered list is the products at the kept positions, in page order, each at most once; a record is in it exactly when it is in the original list and passes the keep test |
| Filters.KeptAll | assets/all-products.js:180-180 | when every element passes, the kept positions are all positions in order |
| Filters.NoFiltersKeepAll | assets/all-products.js:180-208 | with no price range and only empty groups, filtering returns the whole list unchanged |
| Filters.SingleTypeGroup | assets/all-products.js:190-203 | with one product-type group and no price range, exactly the products whose type equals a selected value are kept |
| Filters.ProductTypeNameSelects | assets/all-products.js:169-175 | the name "product_type" resolves to the product-type matcher |
| Filters.SingleTypeValue | assets/all-products.js:190-203 | with one lower-case value selected under a product-type name, exactly the products of that type are kept |
| Filters.FilteredElementsIncrease | assets/all-products.js:109-111 | the filtered records of a page have strictly increasing element positions, so no card appears twice |
| Filters.UpdateProductDisplay | assets/all-products.js:289-301 | a card is shown exactly when its element is among the shown records, and the counter is the number of shown records |
| Filters.VisibleIffKept | assets/all-products.js:289-301 | after a filter pass, a card is visible exactly when its record passes the filters |
| Filters.LoadPage | assets/all-products.js:134-139 | on load the records are InitializeProducts of the cards, the slider bounds are SliderBounds of those records, the inputs are the page's own, every record is shown and every price lies within the bounds |
| Filters.LoadClearFilterShowsAll | assets/all-products.js:134-139 | right after load, a reset followed by a filter pass shows the record of every card, since the bounds load computes are those the reset writes back |
| Filters.ApplyFilters | assets/all-products.js:177-208 | a filter pass replaces only the shown records, with the filtered list of the page's current active filters; records, bounds, facet inputs and price inputs are unchanged |
| Filters.ClearAllFilters | assets/all-products.js:449-471 | on a page whose price inputs exist whenever it has a slider, a reset unticks every input and keeps its name and value; the slider, when present, writes its bounds into the price inputs; every record is shown |
| Filters.ClearThenFilterShowsAll | assets/all-products.js:449-471 | on a page with a slider, both price inputs and bounds computed from its records, a filter pass right after a reset shows every record, so the reset agrees with filtering |
| Filters.AllInBoundsKept | assets/all-products.js:182-187 | when every price lies inside the range and no group is active, every product is kept |
| UrlParams.GetUrlParams | assets/all-products.js:19-35 | the corrected loop (existence test at line 23): the keys are exactly the keys that occur; each holds all its values in order of appearance; an entry is a plain string exactly when its key occurs once |
| UrlParams.GetUrlParamsAsWritten | assets/all-products.js:19-35 | the loop as written: the keys are exactly the keys that occur; each entry holds its key's values in order without their leading run of empty strings, the last value always kept (so `a, "", b` keeps all three); it is a plain string exactly when one value is kept |
| UrlParams.AsWrittenDropsEmptyFirstValue | assets/all-products.js:23-31 | in the loop as written, `?q=&q=x` yields `{q: "x"}` although `q` occurs with values "" and "x" |
| UrlParams.AsWrittenAgreesWithoutEmptyValues | assets/all-products.js:19-35 | when no value is empty, the loop as written and the corrected loop give the same object |
| UrlParams.NoEmptyEntry | assets/all-products.js:23-23 | without empty values every stored entry is truthy |
| Cart.DisableButtons | assets/cart-page.js:1-19 | the checkout button, every remove button and every quantity control get disabled marker `flag`; keys, quantities and everything else are unchanged |
| Cart.LoaderIds | assets/cart-page.js:30-36 | the ids are "item-loader-" and "item-loader-mobile-" followed by the key with every `:` replaced by `-`; they contain no `:` |
| Cart.LoaderIdKeepsPlainKey | assets/cart-page.js:31-33 | a key without colons appears verbatim after the prefix |
| Cart.StartUpdate | assets/cart-page.js:63-70 | starting an update shows the item's loader, disables every control, and issues exactly one request `{id: key, quantity}` |
| Cart.MinusClick | assets/cart-page.js:91-103 | above 1 only the line's displayed quantity (down by one) and the key's pending slot (set to that quantity, at least 1) change: no request, loader, re-fetch, notice or marker moves; at 1 or below the state is unchanged |
| Cart.PlusClick | assets/cart-page.js:106-116 | only the line's displayed quantity (up by one) and the key's pending slot (set to that quantity, replacing any earlier one) change; no request leaves and no loader, re-fetch, notice or marker moves |
| Cart.RemoveClick | assets/cart-page.js:121-126 | when the remove button is marked disabled nothing changes; otherwise a request with quantity 0 for the key leaves at once, the key's loader shows, every control is disabled, and items, quantities, pending updates, re-fetches and notices are untouched |
| Cart.TimerFire | assets/cart-page.js:96-101 | a firing timer empties its key's slot and issues the update it carried: one request with that quantity, the key's loader shown, every control disabled; items, quantities, other slots, re-fetches and notices are untouched |
| Cart.ChangeSettled | assets/cart-page.js:71-77 | exactly the settled request j leaves the in-flight list, the others keeping their order; a re-fetch always starts; a failure shows a notice and hides that key's loader, a success keeps the loader until its re-fetch settles; lines, markers, requests and pending updates are untouched |
| Cart.RefetchSettled | assets/cart-page.js:45-60 | exactly re-fetch j leaves the in-flight list; whatever the outcome the controls are enabled again; a rendered section replaces the lines, otherwise items and quantities stay; on the awaited path the loader it holds hides, and a failure there shows a notice and starts one more re-fetch |
| Cart.Step | assets/cart-page.js:45-126 | each event runs its handler or promise callback, and an event naming a line or key that is not there changes nothing; StepKeepsControlsAgree, StepKeepsQuantitiesSane and SubUnitRequestsAreRemovals state what every step keeps |
| Cart.StepKeepsControlsAgree | assets/cart-page.js:1-19 | every event keeps all disabled markers equal to the checkout button's |
| Cart.RunKeepsControlsAgree | assets/cart-page.js:1-19 | any run of events keeps all disabled markers equal to the checkout button's |
| Cart.StepKeepsQuantitiesSane | assets/cart-page.js:92-116 | from a state whose displayed quantities are non-negative and whose pending updates carry at least 1, and given that a re-rendered section shows no negative quantity, every event keeps both facts |
| Cart.SubUnitRequestsAreRemovals | assets/cart-page.js:90-126 | from a state with non-negative displayed quantities and pending updates of at least 1, an event only appends to the sent requests, and any request it sends with quantity below 1 comes from a remove click and carries 0 |
| Cart.PlusClicksCoalesce | assets/cart-page.js:106-116 | after n plus clicks on a line it shows n more, its key has one pending update carrying that quantity, and no request has left |
| Cart.PlusClicksThenFire | assets/cart-page.js:96-116 | when the timer then fires, exactly one request leaves, carrying the latest displayed quantity |
| Cart.ClicksTouchOnlyTheirKey | assets/cart-page.js:27-27 | a minus or plus click leaves every other key's pending update as it was |
| Cart.FailedChangeStillResyncs | assets/cart-page.js:73-76 | after a failed change request, its re-fetch still brings in the server's lines and enables the controls, and one notice has been shown |
| Cart.OverlappingUpdatesReenableEarly | assets/cart-page.js:58-65 | two overlapping updates on one line: the first re-fetch to settle enables the controls while the second change request is still in flight |

## Left out

- DOM plumbing is not modelled: element lookup, `style.display`, showing and hiding the filter loader, facet expand/collapse, and creating the clear button. Visibility is one boolean per card (`Filters.UpdateProductDisplay`). Loaders are the set `Cart.State.loading`: the keys the script last marked as loading.
- The no-results branch of `updateProductDisplay` is not modelled. When the message element is missing it dereferences null, so its behaviour there is undefined.
- Filters.UpdateProductDisplay: the counter claim assumes the no-results message element exists. When nothing is shown and that element is missing, the script throws at line 309 before it writes the counter, so the counter keeps its old value.
- Cart.DisableButtons: assumes the cart wrapper and the checkout button exist. Without the wrapper (assets/cart-page.js:3) the script marks nothing. Without the checkout button (assets/cart-page.js:5) it throws before any other control is marked. In `updateCartItem` that throw comes after the loader shows and before the request leaves (assets/cart-page.js:64-66), so no request is sent. In the re-fetch's `finally` (assets/cart-page.js:59) it turns a successful re-fetch into a failure, which on the awaited path shows a notice and starts one more re-fetch. A re-rendered section without a checkout button, such as a cart emptied by a remove, reaches this path.
- Cart.RefetchSettled: a rendered section replaces the whole cart wrapper, loader elements included, so after it the loader of another key still in flight shows whatever the server rendered. `loading` keeps recording the keys the script last marked; the loader state of a rendered section is not modelled.
- `applyUrlParamsToFilters` is not modelled. It walks the DOM, and it calls `toLowerCase` on a list when a key repeats. Only the `getUrlParams` grouping is modelled.
- `updateUrlWithFilters` and `history.replaceState` are not modelled. They are browser I/O, and most of that code is commented out.
- The noUiSlider setup and its rounding are not modelled. They are an external widget and floating-point display code.
- Filters.ClearAllFilters: assumes the slider's `set([min, max])` writes exactly those bounds into the two price inputs through its update handler. It requires both price inputs to exist when there is a slider, because otherwise that handler writes to a missing element and throws (assets/all-products.js:424-427).
- `parseFloat`, `parseInt` and the regular-expression price extraction are not modelled. Prices arrive as exact reals. `parseInt` results arrive as `Option<int>`.
- The displayed cart quantity is an `int`. A non-numeric quantity text (NaN) is not modelled.
- Timer delays (100, 300 and 400 ms) and the debounce of the filter pass are not modelled. Debouncing is the schedule, replace and fire steps of `Cart.State.pending`. A filter pass is `Filters.ApplyFilters`.
- `fetch`, `/cart/change.js`, the server's section HTML, `window.handleFetchResponse`, `window.showToast` and `window.updateCartCount` are not modelled. A change request's outcome is the `ok` flag of its settling event, and `handleFetchResponse` is taken to reject on any failure. A re-fetch's outcome is the rendered lines, or none on failure. A notice is a counter. An exception thrown by `updateCartCount` is not modelled.
- Re-attaching listeners after a re-render is implicit: events always act on the current lines.
- The terms-checkbox checkout gating is not modelled. It is not in either script.
- JsStrings.Lower: folds only the ASCII letters A-Z. JavaScript's `toLowerCase` also folds non-ASCII letters, by the Unicode case tables.
- Object-prototype property names are not modelled. In the scripts, a filter name or query key such as `constructor` reads an inherited property. The model's maps have no inherited entries.
- Key order in the active-filter object is not modelled. The list is a map; the order of groups never changes which products are kept.
- `disableButtons` marks the elements with id `cart-item-remove-btn`, while the remove handler tests the `.cart-remove-btn` element it is bound to. The model takes these to be the same button.
- In three places the model follows the code where one might expect otherwise:
  - matcher selection uses substring containment only, not a prefix test;
  - the minus and plus handlers do not look at the disabled markers (only remove does), so updates can overlap (`Cart.OverlappingUpdatesReenableEarly`);
  - a remove click does not cancel a pending quantity update for the same key (`Cart.RemoveClick`).

## Findings

| source | as written | input that shows it | evidently intended | confidence | as-written member | corrected member |
|---|---|---|---|---|---|---|
| assets/all-products.js:23 | `if (params[key])` tests truthiness, so a stored empty string counts as absent and the next occurrence overwrites it | the query `?q=&q=x` gives `{q: "x"}` | `{q: ["", "x"]}`: the comment beside the test says it checks whether the parameter already exists, so every occurrence should be kept | medium, not executed | UrlParams.GetUrlParamsAsWritten, UrlParams.AsWrittenDropsEmptyFirstValue | UrlParams.GetUrlParams |
