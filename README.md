# Fitprice product-selection form, modelled in Dafny

This project models the product-selection form of the Fitprice storefront
(`MultiStepAccordion`, in `components/MultistepAccordian.tsx`). The form has
three steps: product, then weight, then flavor. It keeps a growing list of
steps `{id, selected}` that starts as `[{1, ""}]`. Choosing an option on step
`id` records the option. If `id < 3` and step `id + 1` is not open yet, the
choice also opens that step at the end. The options each step lists come from
a constant catalog (`optionsMap`) and from what step 1 holds. The Search
button appears once three steps all hold a choice. `handleSearch` checks the
three choices again and builds the request path
`/api/search?product=…&weight=…&flavor=…` from them. It then moves the
component's `isLoading`, `error` and `results` through a fixed pattern.

Modules:

- `Wrappers` (wrappers.dfy): `Option`. Its `None` stands for JavaScript's `undefined`.
- `Catalog` (catalog.dfy): the catalog as an ordered sequence of pairs, `Object.keys`, and lookup by key.
- `Steps` (steps.dfy): the step list and the `handleSelection` updater (`Select`). It also has `steps.find` (`Find`), `getOptionsForStep` (`OptionsForStep`) and `isSelectionComplete`.
- `Search` (search.dfy): the guard of `handleSearch` (`SearchSelection`) and the request path (`SearchPath`). As a partner for the path there is a reader (`ParseSearchPath`) that splits the query on `&`.
- `Invariants` (invariants.dfy): the invariant of every step list the form can reach. Reachable lists start from `Initial` and change only by clicks on offered option buttons (`Replay`).
- `Accordion` (accordion.dfy): the component as a class. Its fields are `steps`, `isLoading`, `error` and `results`. It has the two event handlers. `handleSearch` is split at its `await` into `BeginSearch` and `Settle`, and `HandleSearch` runs the two in a row.

The result of `fetch` and `response.json()` is a parameter, `FetchOutcome`.
It is either `Fetched(data)` or `Failed`. `Failed` covers a non-ok status, a
network error and a parse error, because the source handles all three in the
same `catch`.

The path is built by concatenation only. Nothing is percent-encoded.
`SearchPathNotEscaped` shows two different queries that produce the same path.
`SearchPathExample` shows that "Fruit Punch" enters the path with its space
unchanged. A percent-encoded path would write that space as `%20`, but the
code does not produce one. Any encoding the browser applies inside `fetch` is
not part of this model.

## Model

| member | source | states |
|---|---|---|
| Catalog.Keys | components/MultistepAccordian.tsx:58 | The product names of the table, one per entry, in table order. |
| Catalog.Lookup | components/MultistepAccordian.tsx:63 | The catalog holds an entry for `key` exactly when `key` is a product name, and the entry is one stored under `key`. This is what `optionsMap[key]?.weights` and `?.flavors` read. |
| Catalog.LookupAt | components/MultistepAccordian.tsx:20-39 | When keys are unique, looking up the name at position `i` gives the entry at position `i`. |
| Catalog.ProductsUniqueKeys | components/MultistepAccordian.tsx:20-39 | The catalog's keys are unique. In order they are Protein, Creatine, Peanut Butter. |
| Catalog.ProductPlain | components/MultistepAccordian.tsx:20-39 | Every product name, weight and flavor of each product is non-empty and has no `&`. |
| Catalog.CatalogPlain | components/MultistepAccordian.tsx:20-39 | Every string the catalog offers is non-empty and has no `&`. |
| Steps.SetSelected | components/MultistepAccordian.tsx:43-45 | The `map` keeps length, order and every id. It sets `selected` to the new value on each step with that id and keeps every other choice. |
| Steps.Select | components/MultistepAccordian.tsx:41-54 | The list grows by one exactly when `id < 3` and no step `id + 1` exists, and the new last step is `{id + 1, ""}`. Otherwise the length is unchanged. Every old position keeps its step, except that the steps numbered `id` now hold the new value. |
| Steps.SelectKeepsOthers | components/MultistepAccordian.tsx:48-52 | A selection never removes a step and never clears another step's choice. |
| Steps.Find | components/MultistepAccordian.tsx:62 | `find(...)?.selected` is defined exactly when a step with that id exists. It is then the choice of the FIRST such step: every earlier step has another id. |
| Steps.HasStep | components/MultistepAccordian.tsx:48 | `some(step => step.id === id)`. `Invariants.HasStepWellFormed` pins it down: on a well-formed list it holds exactly when `1 <= id <= n`. |
| Steps.OptionsForStep | components/MultistepAccordian.tsx:56-72 | `getOptionsForStep`. Four lemmas pin it down: `Steps.OptionsFixedSteps` (step 1, and ids outside 1..3), `Steps.OptionsForProduct` (steps 2 and 3 for a product), `Steps.OptionsWithoutProduct` (no product chosen) and `Steps.OptionsUnknownProduct` (a non-product string). |
| Steps.OptionsFixedSteps | components/MultistepAccordian.tsx:57-58 | Step 1 lists the product names in catalog order. Any id other than 1, 2 or 3 lists nothing. |
| Steps.OptionsForProduct | components/MultistepAccordian.tsx:61-68 | When step 1 holds product `i`, step 2 lists exactly its weights and step 3 exactly its flavors, in catalog order. |
| Steps.OptionsWithoutProduct | components/MultistepAccordian.tsx:61-68 | When step 1 is absent or holds "", steps 2 and 3 list nothing. |
| Steps.OptionsUnknownProduct | components/MultistepAccordian.tsx:63 | When step 1 holds a non-empty string that is not a product name, steps 2 and 3 get `undefined`. |
| Steps.IsSelectionComplete | components/MultistepAccordian.tsx:74-75 | The Search button condition. `Invariants.CompleteIffGuard` pins it down: on a well-formed list it holds exactly when the `handleSearch` guard passes. |
| Search.SearchSelection | components/MultistepAccordian.tsx:78-85 | The guard passes exactly when the first steps numbered 1, 2 and 3 all exist and all hold a non-empty choice. |
| Search.SearchPath | components/MultistepAccordian.tsx:93 | The template literal. `Search.SearchPathRoundTrip` and `Search.SearchPathInjective` pin it down: an `&`-free query is read back from its path, and different such queries give different paths. |
| Search.SearchPathRoundTrip | components/MultistepAccordian.tsx:92-94 | A query whose three choices contain no `&` is read back unchanged from its request path. |
| Search.SearchPathInjective | components/MultistepAccordian.tsx:92-94 | For such queries, different queries give different paths. |
| Search.SearchPathNotEscaped | components/MultistepAccordian.tsx:93 | Choices are not escaped: two different queries whose choices contain `&` give the same path. |
| Search.SearchPathExample | components/MultistepAccordian.tsx:93 | Creatine / 250g / Fruit Punch gives `/api/search?product=Creatine&weight=250g&flavor=Fruit Punch`, with the space kept as it is. |
| Invariants.WellFormedIdsUnique | components/MultistepAccordian.tsx:14 | In a well-formed list (step `k` has id `k + 1`, 1 to 3 steps) no two steps share an id. |
| Invariants.HasStepWellFormed | components/MultistepAccordian.tsx:48 | In a well-formed list, step `id` exists exactly when `1 <= id <= n`. |
| Invariants.FindWellFormed | components/MultistepAccordian.tsx:78-80 | In a well-formed list, `find(id)` is the choice of step `id`. |
| Invariants.SelectPreservesWellFormed | components/MultistepAccordian.tsx:48-49 | Selecting on an existing step keeps ids equal to `1..n` with `n <= 3`. |
| Invariants.CompleteIffGuard | components/MultistepAccordian.tsx:74-85 | On a well-formed list, `isSelectionComplete` holds exactly when the `handleSearch` guard passes. The query is then the three choices in step order. |
| Invariants.OfferedInCatalog | components/MultistepAccordian.tsx:116-119 | Every option an option button carries is a catalog string. |
| Invariants.SelectKeepsChoices | components/MultistepAccordian.tsx:43-49 | Choosing a non-empty catalog string on an existing step keeps every step but the last chosen, and keeps every choice "" or a catalog string. |
| Invariants.OfferedClickKeepsInvariant | components/MultistepAccordian.tsx:116-119 | A click on an offered option keeps the reachable-state invariant. The list stays well formed, every step but the last is chosen, every choice is "" or a catalog string, and step 1 holds "" or a product name. |
| Invariants.ReplayKeepsInvariant | components/MultistepAccordian.tsx:41-54 | Any run of clicks keeps that invariant. |
| Invariants.ReachableWellFormed | components/MultistepAccordian.tsx:14 | Every reachable list has ids `1..n` with `n <= 3`. None of its steps gets `undefined` options. |
| Invariants.ReachableSearch | components/MultistepAccordian.tsx:74-94 | On every reachable list, the Search button shows exactly when the guard passes. The query sent is read back unchanged from its path. |
| Accordion.MultiStepAccordion.constructor | components/MultistepAccordian.tsx:14-17 | Starts with `[{1, ""}]`, not loading, no error and no results. This start state satisfies the invariant. |
| Accordion.MultiStepAccordion.HandleSelection | components/MultistepAccordian.tsx:41-54 | The steps become `Select` of the old steps, and nothing else changes. An offered click keeps the invariant. |
| Accordion.MultiStepAccordion.BeginSearch | components/MultistepAccordian.tsx:77-94 | If the guard fails, nothing changes and no request is made. Otherwise loading is on, the error and the results are cleared, and the request path is returned. |
| Accordion.MultiStepAccordion.Settle | components/MultistepAccordian.tsx:96-106 | Loading always ends. On success the data replaces the results verbatim. On failure the error becomes the fixed message. |
| Accordion.MultiStepAccordion.HandleSearch | components/MultistepAccordian.tsx:77-108 | If the guard fails, the state is unchanged. Otherwise loading ends false, with either the data and no error or the fixed message and no results. On a reachable list a request is made exactly when the Search button is shown. A click on the enabled button (shown and not loading) always issues a request. |

## Left out

- `components/HeroCarousel.tsx`: a constant list of images handed to a third-party carousel. It has no logic.
- Rendering: JSX, the Accordion and Button components, CSS classes and the "No results found" text. `SearchShown` and `SearchEnabled` keep only the two conditions that decide the Search button.
- `fetch`, `response.json()` and the URL handling inside `fetch`: foreign code. Their result is the `FetchOutcome` parameter.
- `alert` and `console.error`: host calls with no effect on the state. The alert path is modelled as "no request, no change".
- Overlapping searches: there is no cancellation, so the last request to settle wins. The model does not interleave events. `BeginSearch` and `Settle` are separate methods, but no schedule of them is analysed.
- React batching: clicks between renders are modelled as applied one after another.
- Catalog.Lookup: it answers for product names only. The object `optionsMap[key]` that JavaScript returns for a name inherited from `Object.prototype` ("toString", "constructor", "__proto__") is not modelled. The form reads only `?.weights` and `?.flavors` of it, and those are `undefined` for such names, as `Lookup` gives.
- Ids as JavaScript numbers: ids are integers here. Fractional or non-finite ids cannot arise from the form.
- Server-side reading of the query: `ParseSearchPath` splits the query on `&` and strips the field names. It does not model percent-decoding, `+` as space, or `#`.
