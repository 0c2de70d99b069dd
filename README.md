# Storefront cart and catalogue, modelled in Dafny

This project models the logic at the centre of the "Pao Deco's" storefront script (`script.js`). It covers four parts:

- **The shopping cart (`CartManager`)**: a list of lines, one per product, each a snapshot of the product's id, name, price, category and image plus a quantity.
  - `addToCart` is a guarded upsert. It refuses a product without stock, refuses when the line already holds as many units as the stock, and otherwise adds one unit to the existing line or appends a new line.
  - `removeFromCart` splices the line out.
  - `updateQuantity` sets a quantity, or removes the line when the new quantity is not positive.
  - `clearCart` empties the cart.
  - `getCartTotal` and `getCartItemCount` are left-to-right sums.
  - `checkout` refuses an empty cart, and otherwise builds one summary line per cart line plus the total.
- **The image normaliser (`Utils.convertGoogleDriveUrl`)**. A bare Drive file id, or a Drive link naming its file id through `id=` or `/file/d/`, becomes a 400×400 thumbnail URL. Anything else is returned as it came.
- **The catalogue helpers (`ProductManager`)**:
  - the product record built from each sheet row, with its defaults;
  - the list of categories offered as filter buttons;
  - the category filter;
  - the stock badge on each product card.

## Layout

- `strings.dfy`, module `Strings`: the JavaScript string primitives the normaliser relies on (`includes`, and `split` with a non-empty separator), both built on one first-occurrence search, `Strings.IndexOf`, with the lemmas about them.
- `drive_url.dfy`, module `DriveUrl`: `convertGoogleDriveUrl` and what it does to each kind of input.
- `catalog.dfy`, modules `Wrappers` and `Catalog`:
  - the `Product` record and `loadProducts`'s row defaults;
  - `getCategories`, `getFilteredProducts` and the stock badge.
- `cart.dfy`, module `Cart`: the cart as values.
  - Every operation is a function from the old lines to the new ones.
  - Lemmas cover the invariant, totals, round trips and the order summary.
- `store.dfy`, module `Store`: `CartManager` as a class whose `cart` field the methods update in place. Each method is proved to leave exactly the cart the matching `Cart` function describes, and to keep the invariant.

Design decisions:

- **Prices and stock are integers.** Read a price as whole currency units or as cents. The code does not clamp either value: a negative number read from the sheet is kept. `parseFloat(x) || 0` maps only an unparsable value, or 0, to 0.
- **The cart invariant is stated as an implication.** The invariant is: at most one line per product id, and every quantity at least 1. A saved cart read back from storage can hold anything, so each operation is proved to keep the invariant when the cart already has it.
- **`find` and `findIndex` are modelled by `Cart.Find`**, which returns the first matching line. The methods use it directly, as the script calls the library functions.
- **`getCartTotal` and `getCartItemCount` are `Cart.Total` and `Cart.ItemCount`.** They are defined, like `reduce`, as left folds. The class reads them through `CartTotal` and `CartItemCount`.

Edge cases of the code that the model keeps:

- A 20-character id such as `"1A2b3C4d5E6f7G8h9I0j"` is not rewritten, because the bare-id test is `length > 20` (`DriveUrl.TwentyCharacterIdPassesThrough`). A 21-character id is rewritten (`DriveUrl.TwentyOneCharacterIdRewritten`).
- Nothing keeps a price or a stock from being negative. `Catalog.FromRow` keeps whatever number the sheet gives. So the cart total is non-negative only when every line's price and units are (`Cart.Total`).
- Any `id=` in a Drive link takes precedence over its path. A share link whose query has a parameter ending in `id`, such as `ouid`, is rewritten to the thumbnail of that parameter's value, not of the file in its path (`DriveUrl.ShareLinkWithOwnerParameter`).

## Model

| member | source | states |
|---|---|---|
| Strings.IndexOf | script.js:50-65 | the first-occurrence search under `includes` and `split`: the index returned is an occurrence, and no occurrence starts before it; -1 means none at all |
| Strings.IncludesOccurs | script.js:50-65 | `includes` is true exactly when the pattern occurs in the string at some index |
| Strings.Split | script.js:62-66 | `split`: at least one piece, the first a prefix of the string; more than one exactly when the separator occurs; no piece contains the separator |
| Strings.JoinSplit | script.js:62-66 | joining the pieces of `split` with the same separator gives back the string |
| Strings.SplitExcludes | script.js:62-66 | a pattern absent from the string is absent from every piece of its split |
| DriveUrl.FileId | script.js:58-67 | the id is empty when the link has neither `id=` nor `/file/d/`; an id read after `id=` holds no `&` and no `id=` |
| DriveUrl.IsBareId | script.js:50 | a bare id is 21 to 49 characters long and holds no dot |
| DriveUrl.Thumbnail | script.js:52 | the thumbnail URL carries the file id, unchanged, between its fixed head and its fixed size parameter |
| DriveUrl.ConvertGoogleDriveUrl | script.js:46-77 | empty input is returned as it is; non-empty input gives non-empty output; a bare id becomes its thumbnail; a non-bare Drive link with a non-empty extracted id becomes the thumbnail of that id; a non-bare URL whose extracted id is empty, or that does not name the Drive host, is returned unchanged |
| DriveUrl.DriveHostIsNotBareId | script.js:50-56 | a URL naming the Drive host contains a dot, so it is never taken for a bare id |
| DriveUrl.QueryFileId | script.js:60-62 | the id read out of `…id=<id>` followed by nothing or by `&…` is `<id>`, whatever later parameters hold, `id=` included |
| DriveUrl.EmptyQueryFileId | script.js:60-62 | the id read out of `…id=` followed by nothing or by `&…` is empty, whatever later parameters hold |
| DriveUrl.EmptyQueryIdUnchanged | script.js:56-76 | a Drive link whose first `id=` is followed by nothing or by `&…` is returned unchanged, whatever later parameters hold |
| DriveUrl.EmptyQueryIdExample | script.js:56-76 | `https://drive.google.com/uc?id=&x` is returned unchanged |
| DriveUrl.ShareLinkWithOwnerParameter | script.js:60-72 | a share link `…/file/d/<id>/view?ouid=<other>` becomes the thumbnail of `<other>`, and so not of `<id>` when the two differ |
| DriveUrl.QueryLinkRewrite | script.js:60-72 | a Drive link `…id=<id>` followed by nothing or by `&…` becomes the thumbnail of `<id>`, even when a later parameter such as `ouid=` holds `id=` again |
| DriveUrl.PathSegment | script.js:64-66 | in `…/file/d/<id>` followed by nothing or `/…`, the segment after the first `/file/d/` up to the next `/` is `<id>` |
| DriveUrl.PathFileId | script.js:61-67 | without `id=`, the extracted id is the segment after `/file/d/` |
| DriveUrl.PathLinkFileId | script.js:64-67 | the extracted id of a path-form link is the id in its path |
| DriveUrl.PathLinkRewrite | script.js:64-72 | a Drive link of the path form, without `id=`, becomes the thumbnail of its path id |
| DriveUrl.ShareLink | script.js:64-72 | every share link `https://drive.google.com/file/d/<id>/…` becomes the thumbnail of `<id>` |
| DriveUrl.ShareLinkExample | script.js:64-71 | the share link of file `XYZ123` with `/view` becomes the thumbnail of `XYZ123` |
| DriveUrl.ThumbnailPrefixShape | script.js:52 | the thumbnail URL before its `id=` names the Drive host and holds no `id=` |
| DriveUrl.ThumbnailSizeRewrite | script.js:60-72 | a thumbnail URL of any other size is rewritten to the 400×400 thumbnail of the same file |
| DriveUrl.ThumbnailIsFixedPoint | script.js:60-72 | a thumbnail URL built from a clean id is mapped to itself |
| DriveUrl.ConvertIdempotent | script.js:46-77 | converting twice is converting once, for every URL except a bare id holding `&` or `id=` and a Drive link without `id=` whose path id holds `&` |
| DriveUrl.TwentyCharacterIdPassesThrough | script.js:50 | the 20-character id `1A2b3C4d5E6f7G8h9I0j` is not bare and is returned unchanged |
| DriveUrl.TwentyOneCharacterIdRewritten | script.js:50-52 | a 21-character id without `http` or `.` becomes its thumbnail |
| DriveUrl.ForeignUrlUnchanged | script.js:56-76 | `https://example.com/pic.png` is returned unchanged |
| Catalog.FromRow | script.js:349-358 | name, category, description and image are never empty; each falls back to its fixed default exactly when the cell is empty; the image is the converted cell, or the placeholder when the cell is empty; price and stock are the parsed numbers, or 0 when missing, and are not clamped |
| Catalog.FromRowOfProduct | script.js:349-358 | a loaded product whose image conversion leaves unchanged loads again, from its own values, to the same product: no default is applied twice |
| Catalog.ReloadKeepsThumbnail | script.js:356 | an image already converted to a thumbnail survives a second load |
| Catalog.LoadProducts | script.js:349-358 | one product per row, in row order, each built from its row and its generated id |
| Catalog.LoadedProductsComplete | script.js:349-358 | every loaded product has a name, a category, a description and an image |
| Catalog.CategoryColumn | script.js:374 | the category of each product, position by position |
| Catalog.Distinct | script.js:374 | `[...new Set(xs)]`: no value twice, and exactly the values of `xs` |
| Catalog.DistinctOrder | script.js:374 | the distinct values come in the order of their first appearance |
| Catalog.Categories | script.js:373-376 | `"all"` first; every product's category listed after it, even a category named `"all"`; every later entry is some product's category; none listed twice |
| Catalog.CategoriesOrder | script.js:373-376 | the categories after `"all"` follow the order of the first product of each |
| Catalog.OfCategory | script.js:383 | a product is kept exactly when it is in the list and of the category; nothing is duplicated |
| Catalog.OfCategoryAppend | script.js:383 | filtering distributes over concatenation, so it keeps the original order |
| Catalog.FilteredProducts | script.js:379-384 | `"all"` gives every product as it is; any other category gives exactly the products of that category |
| Catalog.OfferedCategoryNotEmpty | script.js:373-384 | for a category other than `"all"`: it is offered as a button exactly when filtering by it shows at least one product |
| Catalog.Level | script.js:470-486 | out of stock at 0 or less; low from 1 to 3; medium from 4 to 8; high from 9 |
| Catalog.LevelMonotonic | script.js:470-486 | more stock never shows a lower badge |
| Cart.Snapshot | script.js:146-153 | the appended line has the product's id, one unit, and costs the product's price |
| Cart.Find | script.js:163 | `findIndex`: the index found holds the id and no earlier line does; -1 means no line does |
| Cart.FindFound | script.js:163-164 | `findIndex` succeeds exactly when some line has the id |
| Cart.Add | script.js:129-159 | no stock: refused, cart unchanged; line already at the stock: refused with the stock, cart unchanged; otherwise added; a new product is appended as a snapshot with quantity 1; an existing line gains exactly one unit and nothing else changes |
| Cart.AddQuantity | script.js:136-154 | a successful add puts exactly one more unit of the product in the cart, never more than its stock, and leaves every other product's quantity as it was |
| Cart.AddWellFormed | script.js:136-154 | adding keeps one line per product and at least one unit on every line |
| Cart.Remove | script.js:162-171 | no line with the id: nothing changes; otherwise the first such line is spliced out and the rest keep their order |
| Cart.RemoveMultiset | script.js:166 | removal takes away exactly the line found |
| Cart.RemoveWellFormed | script.js:162-171 | removal keeps one line per product and at least one unit on every line |
| Cart.RemoveIsWithout | script.js:162-171 | in a cart with one line per product, removal equals keeping every line of other products, in order |
| Cart.SetQuantity | script.js:174-185 | absent id: nothing changes; `n <= 0`: the same as removal; otherwise only that line's quantity becomes `n`, whatever the stock |
| Cart.SetQuantityHolds | script.js:180 | after a positive update the cart holds exactly `n` units of the product |
| Cart.SetQuantityWellFormed | script.js:174-185 | updating keeps one line per product and at least one unit on every line |
| Cart.Total | script.js:196-198 | the total of a cart whose every line has a non-negative price and non-negative units is non-negative |
| Cart.ItemCount | script.js:201-203 | the item count of a cart with no negative units is non-negative |
| Cart.TotalAppend | script.js:196-198 | the total of two carts laid end to end is the sum of their totals |
| Cart.ItemCountAppend | script.js:201-203 | the item count of two carts laid end to end is the sum of their counts |
| Cart.ItemCountAtLeastLines | script.js:201-203 | a well-formed cart holds at least as many units as lines |
| Cart.CostIncrement | script.js:144 | one more unit on a line costs one more unit price |
| Cart.TotalUpdate | script.js:196-203 | replacing a line changes the total by the difference in cost and the count by the difference in units |
| Cart.AddEffect | script.js:129-159 | a successful add raises the count by 1 and the total by one unit price: the stored line's price, or the product's for a new line |
| Cart.RemoveEffect | script.js:162-171 | removal takes the line's units out of the count and its cost out of the total |
| Cart.SetQuantityEffect | script.js:174-185 | a positive update moves the count by the change in units and the total by the change in the line's cost |
| Cart.AddNewThenRemove | script.js:145-171 | adding a product not in the cart and then removing it restores the cart |
| Cart.AddTwiceStockOne | script.js:136-143 | with one unit in stock, the second add of the same product is refused and changes nothing |
| Cart.OutOfStockMatchesBadge | script.js:131-134 | adding is refused for lack of stock exactly when the card shows the out-of-stock badge |
| Cart.Summary | script.js:313-315 | one summary line per cart line, in cart order, with its name, units and cost |
| Cart.SummaryAddsUp | script.js:309-315 | the amounts of the summary lines add up to the cart total |
| Cart.Checkout | script.js:303-317 | nothing for an empty cart and an order otherwise; the order holds the summary lines, the item count and the total (the message shows the lines and the total; the item count is computed but not shown) |
| Cart.CheckoutAddsUp | script.js:309-317 | the order's amounts add up to the total it announces |
| Store.CartManager.constructor | script.js:4 | the cart starts empty |
| Store.CartManager.LoadCart | script.js:109-117 | the saved cart when one is read back, otherwise an empty cart |
| Store.CartManager.AddToCart | script.js:129-159 | the new cart and the outcome are those of `Cart.Add` on the old cart; a refusal leaves the cart unchanged; the invariant is kept |
| Store.CartManager.RemoveFromCart | script.js:162-171 | the new cart is `Cart.Remove` of the old; the removed line is returned exactly when there was one; the invariant is kept |
| Store.CartManager.UpdateQuantity | script.js:174-185 | the new cart is `Cart.SetQuantity` of the old; the invariant is kept |
| Store.CartManager.CartTotal | script.js:196-198 | the cart total equals the sum of the amounts on the checkout summary lines |
| Store.CartManager.CartItemCount | script.js:201-203 | a well-formed cart holds at least as many units as lines |
| Store.CartManager.ClearCart | script.js:188-193 | the cart is empty, with count and total 0 |
| Store.AddThenRemove | script.js:129-171 | on one object, adding a new product and removing it again leaves the cart, its total and its count as they were |

## Left out

- DOM rendering and user interface:
  - `renderCartPage`, the card markup of `renderProducts`, `renderCategoryFilter` and its display names, `setCategory`, `updateCartUI`, `Utils.showToast`;
  - the page and mobile-navigation managers and the start-up listeners.

  These produce markup and notifications with no other effect.
- The stock badge's text and icon. Only the level they are chosen by is modelled (`Catalog.Level`).
- Persistence. `saveCart`, and `localStorage` with `JSON.parse`/`JSON.stringify` in `loadCart`, are foreign storage and serialisation calls. `LoadCart` takes the result of reading back (a cart, or nothing after a missing entry or a parse error) as its parameter.
- Network and asynchrony: the `fetch` of the product sheet and the `isLoading`/`error` flags around it. `LoadProducts` starts from the rows already received.
- `Utils.generateId`, which depends on the clock and on randomness. The ids are a parameter of `LoadProducts`.
- `Utils.debounce`, which depends on timers.
- The text of the checkout message:
  - the `Intl.NumberFormat` price formatting;
  - the message layout;
  - `encodeURIComponent`, the WhatsApp number and `window.open`.

  `Cart.Checkout` returns a structured order. Its lines and total are what the message lists. Its item count is computed by `checkout` but does not appear in the message.
- `parseFloat`/`parseInt` and floating point. Rows carry the parsed numbers, with `None` for every value `|| 0` replaces. Prices are exact integers, so the rounding of sums of binary fractions is not modelled.
- JavaScript's loose typing. `updateQuantity` receives an integer, and string lengths count characters where JavaScript counts UTF-16 code units.
- Aliasing of line objects. `existingItem.quantity += 1` and `item.quantity = newQuantity` update an object shared with the array. The model replaces the line at its index, which is the same change as long as no other reference to the line is kept.
- DriveUrl.ShareLink: requires no `=` in the id or the rest of the link, which is more than the code needs (only `id=` must be absent).
- DriveUrl.ConvertIdempotent: does not cover a bare id containing `&` or `id=`, nor a Drive link without `id=` whose path id contains `&`. For those, the second pass extracts a different, shorter id, so conversion is in general not idempotent there.
