# BSS Fashion storefront: cart and catalogue model

A Dafny model of the logic of a small React storefront for a thrift shop:

- the static catalogue of four product categories (`productCategories`), the
  product count `totalProducts` and the badge helper `getTagForProduct`,
  which the page defines but never calls (module `Catalog`, `catalog.dfy`);
- the cart engine of the `useCart` hook: line items keyed by
  `${id}__${size ?? ""}`, add / remove / update quantity / clear, the
  derived `cartCount` and `cartTotal`, and the restore of a saved cart
  (module `Cart`, `cart.dfy`);
- the second, inline copy of that engine in the storefront page, which adds
  on the key `${id}-${size || ""}` but removes and updates by strict equality
  of id and stored size (module `InlineCart`, `inline_cart.dfy`);
- the product browser: the normalised search query, `filteredCategories`
  and the category buttons that toggle the selection (module `Filtering`,
  `filtering.dfy`).

Supporting modules: `Optional` (an `Option` type for the optional fields
and sizes), `Text` (decimal rendering of integers as in `${id}`,
`includes`, `trim` and an ASCII `toLowerCase`) and `Sequences` (`find`,
`filter` and the subsequence relation).

Every setter is a pure function from the previous cart to the next one. An
optional size `size?: string` is an `Option<string>`. On strings `size ?? ""`
and `size || ""` agree: both read a missing size as "". The cart keys are
modelled as the actual strings. `Cart.CartKeyInjective` and
`InlineCart.InlineKeyInjective` prove that two keys are equal exactly when
the product ids are equal and the normalised sizes are equal. Every contract
about lines is therefore stated on the pair (id, normalised size), `Cart.LineOf`.

The two reductions `cart.reduce(...)` are left folds. They are proved equal
to the reference right-recursive sums `QuantitySum` and `LineTotalSum`, and
the aggregate lemmas are stated on those sums.

## Model

| member | source | states |
|---|---|---|
| Catalog.GenerateProducts | src/ThriftStore.tsx:30-39 | one category line has `count` products; product i has id idBase + i + 1 and carries the line's category name and price |
| Catalog.ShirtCategory | src/ThriftStore.tsx:24-40 | the shirt line is "Contrast T-Shirt" at 999 with sizes M, L, XL and 12 products numbered 1..12, each carrying that name and price |
| Catalog.JacketCategory | src/ThriftStore.tsx:41-57 | the jacket line is "Faux Jacket" at 2499 with sizes L, XL and 14 products numbered 101..114, each carrying that name and price |
| Catalog.ShoeCategory | src/ThriftStore.tsx:58-74 | the shoe line is "Shoes" at 2999 with sizes UK 43, UK 44, UK 45 and 32 products numbered 201..232, each carrying that name and price |
| Catalog.ToteCategory | src/ThriftStore.tsx:75-87 | the tote line is "Tote Bag" at 1999 with no sizes and no description, and 28 products numbered 301..328, each carrying that name and price |
| Catalog.ProductCategories | src/ThriftStore.tsx:23-88 | the catalogue is the shirt, jacket, shoe and tote lines in that order, with those names, prices, product counts and ids |
| Catalog.ShopIds | src/ThriftStore.tsx:23-88 | in any four lines shaped as the shop's, product i of line k has id 100k + i + 1 and ids increase through the list, so none repeats |
| Catalog.CatalogueIds | src/ThriftStore.tsx:23-88 | the catalogue has 4 categories of 12, 14, 32 and 28 products; product i of category k has id 100k + i + 1; ids increase through the catalogue, so no two products share one |
| Catalog.ShopShape | src/ThriftStore.tsx:23-88 | in any four lines shaped as the shop's, every product carries the name and price of its line |
| Catalog.CatalogueShape | src/ThriftStore.tsx:23-88 | every product carries the name and the price of the category it is listed under |
| Catalog.CountProducts | src/ThriftStore.tsx:196-199 | the left fold over categories adds exactly the number of products the catalogue lists |
| Catalog.TotalProducts | src/ThriftStore.tsx:196-199 | `totalProducts` is the number of products across all categories |
| Catalog.CatalogueTotal | src/ThriftStore.tsx:196-199 | `totalProducts` of the shop is 86 |
| Catalog.TagForProduct | src/ThriftStore.tsx:92-97 | the badge pair (of a helper the page never calls) always has two entries and includes "Vintage"; "Vintage" comes first exactly when the category includes none of "Jacket", "Shoes", "Tote" |
| Catalog.ShirtTags | src/ThriftStore.tsx:92-97 | a product of category "Contrast T-Shirt" gets the fallback pair ["Vintage", "Last piece"] |
| Catalog.JacketTags | src/ThriftStore.tsx:92-97 | a "Faux Jacket" product gets ["Premium", "Vintage"] |
| Catalog.ShoeTags | src/ThriftStore.tsx:92-97 | a "Shoes" product gets ["Rare", "Vintage"] |
| Catalog.ToteTags | src/ThriftStore.tsx:92-97 | a "Tote Bag" product gets ["Classic", "Vintage"] |
| Catalog.ShopTags | src/ThriftStore.tsx:92-97 | in any four lines shaped as the shop's, the badge pair of a product is decided by its line |
| Catalog.CatalogueTags | src/ThriftStore.tsx:92-97 | over the whole catalogue: shirts get the fallback pair, jackets "Premium", shoes "Rare", tote bags "Classic" |
| Cart.CartKeyOf | src/useCart.ts:19-21 | the key is the decimal id, then "__", then the normalised size; the first "_" after the leading character ends the id, so the key splits back into id text and size |
| Cart.NormalSize | src/useCart.ts:19-21 | a missing size and the empty size both read as ""; any other size reads as itself |
| Cart.CartKeyInjective | src/useCart.ts:19-21 | two keys are equal if and only if the ids are equal and the normalised sizes are equal |
| Cart.ItemKeyMatches | src/useCart.ts:47 | an item matches a key exactly when it is on the line (id, normalised size) the key names |
| Cart.MissingSizeIsEmptySize | src/useCart.ts:19-21 | no size and the empty size give the same key |
| Cart.CountFrom | src/ThriftStore.tsx:171-174 | the page's left fold of quantities from an accumulator equals the accumulator plus the reference sum |
| Cart.CartCount | src/useCart.ts:41 | `cartCount` is the sum of quantities; with positive quantities it is at least the number of lines |
| Cart.TotalFrom | src/ThriftStore.tsx:167-170 | the page's left fold of price times quantity equals the accumulator plus the reference sum |
| Cart.CartTotal | src/useCart.ts:42 | `cartTotal` is the sum over lines of captured price times quantity |
| Cart.AddToCart | src/useCart.ts:44-57 | on an existing line, every item on that line gets one more piece and nothing else changes; otherwise a line of quantity 1 with the given size is appended after the unchanged items |
| Cart.RemoveFromCart | src/useCart.ts:59-60 | the result is a subsequence of the cart holding every copy of each item not on the line and no item on it, so it is exactly the cart with that line's items taken out, in order; it is the cart itself when the line is absent |
| Cart.UpdateQuantity | src/useCart.ts:62-72 | a quantity of 0 or less gives the subsequence of the cart holding every copy of each item not on the line and none of the items on it; a positive one replaces (does not add to) the quantity of the line's items and keeps everything else |
| Cart.ClearCart | src/useCart.ts:74 | the cleared cart is empty |
| Cart.RestoreCart | src/useCart.ts:24-31 | the initial cart is the parsed snapshot or the fallback; a missing or empty stored string gives the fallback |
| Cart.RestoreAfterSave | src/useCart.ts:24-39 | a non-empty snapshot that parses back to the cart it was written from restores that cart |
| Cart.AddNewLine | src/useCart.ts:55 | adding an absent line appends exactly one item of quantity 1 |
| Cart.AddExistingLine | src/useCart.ts:47-53 | with unique lines, adding a present line increments that item alone and keeps length and order |
| Cart.AddMissingThenEmptySize | src/useCart.ts:19-21 | adding with no size and then with the empty size (or the reverse) does not create a second line |
| Cart.AddTwiceMerges | src/useCart.ts:44-57 | adding the same product and size twice to an empty cart gives one line of quantity 2 |
| Cart.AddTwoSizesSeparates | src/useCart.ts:44-57 | the same product in two different sizes gives two lines of quantity 1 |
| Cart.AddAggregates | src/useCart.ts:41-57 | adding raises `cartCount` by 1 and `cartTotal` by the price captured on the line that grew (the product's price for a new line) |
| Cart.AddGrowsLine | src/useCart.ts:47-53 | growing an existing line adds one piece and that line's captured price to the sums |
| Cart.RemoveExistingLine | src/useCart.ts:59-60 | with unique lines, removing a present line drops exactly that item |
| Cart.RemoveIdempotent | src/useCart.ts:59-60 | removing the same line twice is removing it once |
| Cart.RemoveAggregates | src/useCart.ts:59-60 | removing a line takes its quantity out of `cartCount` and price times quantity out of `cartTotal` |
| Cart.UpdateNonPositiveRemoves | src/useCart.ts:62-66 | an update to 0 or less is exactly a removal |
| Cart.UpdateAbsentLine | src/useCart.ts:67-71 | updating a line the cart does not have changes nothing |
| Cart.UpdateExistingLine | src/useCart.ts:67-71 | with unique lines, a positive update sets that item's quantity and leaves every other item as it was |
| Cart.UpdateAggregates | src/useCart.ts:62-72 | a positive update moves `cartCount` by the quantity difference and `cartTotal` by price times that difference |
| Cart.ClearAggregates | src/useCart.ts:74 | after clearing, count and total are 0 |
| Cart.AddPreservesValid | src/useCart.ts:44-57 | adding keeps lines unique and quantities at least 1 |
| Cart.RemovePreservesValid | src/useCart.ts:59-60 | removing keeps lines unique and quantities at least 1 |
| Cart.UpdatePreservesValid | src/useCart.ts:62-72 | updating keeps lines unique and quantities at least 1 |
| Cart.SessionScenario | src/useCart.ts:41-72 | a 999 item in size M added twice is one line of 2 pieces costing 1998; set back to 1 it costs 999; removed, the cart is empty with count and total 0 |
| InlineCart.InlineKeyOf | src/ThriftStore.tsx:99-101 | the page's key is the decimal id, then "-", then the normalised size; the first "-" after the leading character ends the id, so the key splits back into id text and size |
| InlineCart.InlineKeyInjective | src/ThriftStore.tsx:99-101 | the page's keys are equal exactly when ids and normalised sizes are equal, that is exactly when the hook's keys are |
| InlineCart.AllInlineKeysMatch | src/ThriftStore.tsx:130-135 | an item matches the page's key exactly when it is on the line the key names |
| InlineCart.AddToCart | src/ThriftStore.tsx:127-145 | on an existing line every item on it gets one more piece; otherwise a line of quantity 1 with the given size is appended |
| InlineCart.AddAgreesWithHook | src/ThriftStore.tsx:127-145 | the page's add and the hook's add give the same cart on every input |
| InlineCart.RemoveFromCart | src/ThriftStore.tsx:147-151 | the result is a subsequence of the cart holding every copy of each item whose id or stored size differs strictly, and no strictly matching item |
| InlineCart.UpdateQuantity | src/ThriftStore.tsx:153-165 | 0 or less gives the subsequence holding every copy of each item not strictly matching and no strictly matching item; a positive quantity is set on the strictly matching items and nothing else changes |
| InlineCart.AddMergesOnKey | src/ThriftStore.tsx:127-145 | the same product and size added twice is one line of 2; two sizes are two lines |
| InlineCart.AddAggregatesInline | src/ThriftStore.tsx:127-145 | the page's add raises the count by 1, and the total by the price for a new line |
| InlineCart.RemoveKeepsMoreThanHook | src/ThriftStore.tsx:147-151 | everything the hook's remove keeps, the page's remove keeps too |
| InlineCart.RemoveAgreesOnNamedSize | src/ThriftStore.tsx:147-151 | for a non-empty size, the page's remove and the hook's remove give the same cart |
| InlineCart.RemoveMissesOtherEmptySize | src/ThriftStore.tsx:149 | a line added without a size is not removed by passing "", nor one added with "" by passing no size, where the hook removes both |
| InlineCart.RemoveMissesSize | src/ThriftStore.tsx:149 | of the two stored sizes that read as "" (none and ""), passing the other one leaves a one-line cart unchanged, where the hook empties it |
| InlineCart.UpdateMissesOtherEmptySize | src/ThriftStore.tsx:160 | a line added without a size is left alone by an update passing "", where the hook sets it |
| InlineCart.RemoveOwnLine | src/ThriftStore.tsx:147-151 | removing with an item's own id and stored size drops exactly that item, as the hook does |
| InlineCart.UpdateOwnLine | src/ThriftStore.tsx:153-165 | a positive update with an item's own id and stored size sets that item alone |
| InlineCart.UpdateNonPositiveRemoves | src/ThriftStore.tsx:154-157 | an update to 0 or less is exactly the page's removal |
| InlineCart.InlinePreservesValid | src/ThriftStore.tsx:127-165 | the page's add, remove and update keep lines unique and quantities at least 1 |
| Text.Trim | src/ThriftStore.tsx:177 | `trim` gives an infix s[i..j] with only whitespace before i and from j on, whose ends are not whitespace; it is empty exactly when s is all whitespace |
| Text.TrimUnique | src/ThriftStore.tsx:177 | any non-empty infix with only whitespace around it and no whitespace at its ends is the trimmed string, so that infix is unique |
| Text.ContainsAtOffset | src/ThriftStore.tsx:183-184 | `includes` holds exactly when the needle occurs in the text at some offset, so the recursive definition used for `includes` agrees with the offset-based one |
| Filtering.NormaliseQuery | src/ThriftStore.tsx:177 | the normalised query is the lower-cased infix query[i..j] with only whitespace before i and from j on; it has no upper-case ASCII letter and no whitespace at either end, and is empty exactly when the input is all whitespace |
| Filtering.NormaliseIdempotent | src/ThriftStore.tsx:177 | normalising twice is normalising once |
| Filtering.ProductMatches | src/ThriftStore.tsx:181-186 | a product matches exactly when its lower-cased name or the lower-cased category name includes the query; the early return for an empty query agrees with that |
| Filtering.CategoryNameMatchKeepsAll | src/ThriftStore.tsx:184-185 | a query the lower-cased category name includes keeps the whole category |
| Filtering.NarrowCategory | src/ThriftStore.tsx:179-188 | the narrowed category keeps its other fields; its products are a subsequence of the category's holding every copy of each matching product and no other; an empty query keeps it whole |
| Filtering.NarrowAll | src/ThriftStore.tsx:178-188 | narrowing every category keeps the list's length, order and names; each category keeps every field but its products, which become the in-order subsequence of products matching the query (by product or category name), with every copy of a matching product kept and no other product |
| Filtering.SelectShown | src/ThriftStore.tsx:189-193 | the selection step keeps a subsequence holding every copy of each shown category and no other |
| Filtering.FilteredCategories | src/ThriftStore.tsx:176-194 | the result is the subsequence of the narrowed categories holding every copy of each one that is non-empty and admitted by the selection, and no other |
| Filtering.FilteredProductsExact | src/ThriftStore.tsx:176-194 | a product is shown under its category if and only if it belongs to it, matches the query, and the selection admits the category |
| Filtering.SelectedCategoryOnly | src/ThriftStore.tsx:189-193 | with distinct names, selecting a category shows that category alone, narrowed, or nothing when none of its products matches |
| Filtering.UnknownSelectionShowsNothing | src/ThriftStore.tsx:189-193 | selecting a name no category carries shows nothing |
| Filtering.BlankSearchShowsAll | src/ThriftStore.tsx:176-194 | a blank search with no selection shows exactly the non-empty categories, whole and in order |
| Filtering.NoEmptyCategoryShowsAll | src/ThriftStore.tsx:176-194 | when no category is empty, a blank search with no selection shows the list unchanged |
| Filtering.CatalogueUnfiltered | src/ThriftStore.tsx:176-194 | the shop opens on the whole catalogue |
| Filtering.ToggleCategory | src/ThriftStore.tsx:560 | a category button selects its category, or clears the selection when it was already selected |
| Filtering.ToggleTwice | src/ThriftStore.tsx:560 | from "All" or from the button's own category, pressing it twice returns to where it started |
| Filtering.Apply | src/ThriftStore.tsx:542-560 | after one press the selection is "All" or the pressed button's category; a button with a non-empty name selects its category exactly when it was not selected |
| Filtering.Run | src/ThriftStore.tsx:542-560 | after any presses the selection is the start, "All", or the category of a button that was pressed |
| Filtering.RunAppend | src/ThriftStore.tsx:542-560 | pressing one sequence of buttons and then another is pressing them all in turn |
| Filtering.RunLastPress | src/ThriftStore.tsx:542-560 | pressing "All" last clears the selection; pressing a category button last selects that category exactly when it was not selected before |
| Filtering.RunKeepsKnown | src/ThriftStore.tsx:542-560 | "All" and buttons named after categories keep the selection "All" or one of those categories |
| Filtering.SelectionShowsOneOrAll | src/ThriftStore.tsx:176-194 | with distinct category names and buttons named after categories, the selection is "All" (every non-empty category the search leaves) or at most one category is shown |
| Filtering.CatalogueNamesDistinct | src/ThriftStore.tsx:23-88 | the four category names of the shop are distinct |
| Filtering.CatalogueSelectionShowsOneOrAll | src/ThriftStore.tsx:542-560 | whatever buttons are pressed, the selection is "All" (every non-empty category the search leaves) or at most one category is shown |

## Left out

- Reading and writing `localStorage` and `JSON.parse` / `JSON.stringify`. The stored string and the parser are parameters of `Cart.RestoreCart`, and the write effect is not modelled.
- React state, `useMemo`, `useEffect`, rendering and styles. The Escape key listener only closes the product modal and the mobile cart drawer, which are view state.
- The product modal's `setSelectedProduct(null)` and `setSelectedSize("")` after an add, and `toFixed` price formatting.
- `src/Header.tsx`, `src/MarqueeHeader.tsx`, `src/main.tsx` and `types.ts`: presentation or type declarations only.
- Catalog.GenerateProducts: the image path and the display name use the decimal form of i + 1; the contract speaks of ids, categories and prices only.
- Text.ToLower: lower-cases the ASCII letters A-Z only. JavaScript's `toLowerCase` maps every Unicode letter; all catalogue names are ASCII.
- Text.IntToString: renders integers in plain decimal. JavaScript switches to exponent form at 10^21, which the catalogue's ids never reach.
- Cart.RestoreCart: `JSON.parse(raw) as CartItem[]` is only a type cast. Valid JSON that is not an item array, such as `null` or `{}`, becomes the cart, and the later `cart.reduce` then throws. The model's parser answers an item list or nothing, so it cannot represent such a value. A restored cart is therefore not promised to satisfy `Cart.Valid`.
- Cart.CartItem: ids, prices and quantities are unbounded integers, where JavaScript has 64-bit floats. The page only produces whole quantities from +1 and -1 steps.
- The hook's `CartItem` is the product record spread with `quantity` and `selectedSize`. Here the product is a field of the item.
- The catalogue descriptions contain "â€”" (U+00E2 U+20AC U+201D), an em dash read in the wrong encoding. The model keeps those three characters as the source text has them (`Catalog.Dash`).

## Notes

- The page's remove and update compare the stored size with strict equality, so a line added with no size is not touched by a call that passes "". The hook normalises both. `InlineCart.RemoveMissesOtherEmptySize` and `InlineCart.UpdateMissesOtherEmptySize` exhibit this. The page cannot reach the gap: its add button always passes the modal's size string, and its remove and update buttons pass back `item.selectedSize`. `InlineCart.RemoveOwnLine` and `InlineCart.UpdateOwnLine` show that the two copies agree on those calls.
- A quantity update on the hook's cart is not validated beyond `quantity <= 0`. A positive quantity is stored as given.
