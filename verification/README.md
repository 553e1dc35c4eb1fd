# Storefront and admin panel bookkeeping, modelled in Dafny

This project models the bookkeeping of a small clothing shop that runs entirely in the browser.
There are two pages:

- The admin panel (`js/admin.js`) keeps a product catalogue in the browser's `localStorage`. It adds,
  edits and deletes products there. It merges the stored list with a static JSON catalogue fetched
  from the server, filters the list by a search term and a category, labels stock levels, computes
  discount percentages and shows dashboard counts.
- The storefront (`js/script.js`) shows the same two sources as two shelves of products. It keeps a
  shopping cart under the `cart` key and newsletter subscribers under `newsletter-subscribers`.

The model is split by concern:

| module | file | what it holds |
|---|---|---|
| `Wrappers` | `wrappers.dfy` | `Option` |
| `Text` | `text.dfy` | JavaScript's `trim`, `split`, `join`, `toLowerCase`, `includes` on strings |
| `Seqs` | `seqs.dfy` | `Array.prototype.filter` and the sub-sequence relation |
| `Products` | `products.dfy` | the product record and id uniqueness |
| `Pricing` | `pricing.dfy` | `Math.round` and the three discount computations |
| `ProductForm` | `product_form.dfy` | form normalisation, colour parsing, validation, filling the edit form |
| `Reconcile` | `reconcile.dfy` | merging stored and fetched products (admin), concatenating and slicing them (storefront) |
| `Cart` | `cart.dfy` | the cart as a list of lines, adding to it, the item count and the counter badge |
| `LocalStore` | `local_store.dfy` | `localStorage` as a `Store` object with three keys |
| `AdminCatalog` | `admin_catalog.dfy` | add, update and delete; the admin session; search; stock labels; dashboard |
| `Storefront` | `storefront.dfy` | the add-to-cart button and the cart counter |
| `Newsletter` | `newsletter.dfy` | the e-mail check and the subscriber list |

Code that changes state step by step is modelled as methods on classes:

- `LocalStore.Store` has one field per key. A key holds `Missing`, `Corrupt` (text that does not
  parse) or `Stored(items)`.
- `AdminCatalog.AdminSession` holds the admin page's module-level variables `allProducts` and
  `currentEditingId`.

Every method states its new state in terms of a pure function, and the properties are proved
about those functions. The browser's answer to a `setItem` call (success, or a thrown quota error)
is a `writeAccepted` parameter. The fetched catalogue is a `remote` parameter, which is empty when
the fetch fails. The clock (`Date.now()`, `toISOString()`) supplies parameters, and so does
`new URL(...)` (the `isValidUrl` function).

Prices are `Option<real>`, where `None` stands for `NaN` (what `parseFloat` gives for an empty or
non-numeric field). `Math.round(x)` is `Floor(x + 0.5)`, which is what JavaScript computes,
including for halves of negative numbers.

## Model

| member | source | states |
|---|---|---|
| `Text.TrimStart` | js/admin.js:163-166 | the result is a suffix of the input, the removed prefix is all white space, and the result does not start with white space |
| `Text.TrimEnd` | js/admin.js:163-166 | the result is a prefix of the input, the removed suffix is all white space, and the result does not end with white space |
| `Text.Trim` | js/admin.js:163-166 | `String.prototype.trim`: the result has no white space at either end and only holds characters of the input |
| `Text.TrimOfTrimmed` | js/admin.js:163-166 | trimming a string that is already trimmed changes nothing |
| `Text.TrimAfterSpace` | js/admin.js:204 | trimming `" " + s` gives `s` back for a trimmed non-empty `s` |
| `Text.Split` | js/admin.js:203 | `split(',')`: at least one part, no part holds the separator, and joining the parts with the separator gives the input back |
| `Text.SplitPrefix` | js/admin.js:203 | splitting `a + t`, where `a` has no separator, glues `a` onto the first part of `t`'s split |
| `Text.SplitJoin` | js/admin.js:203 | `split` inverts `join` for parts that hold no separator (also js/admin.js:421) |
| `Text.Join` | js/admin.js:421 | `join`: an empty list joins to the empty string and a single part to itself; `Text.JoinConcat` fixes the order and separators, and `Text.SplitJoin` states that `split` undoes it |
| `Text.JoinConcat` | js/admin.js:421 | joining two non-empty lists is the first join, one separator, then the second join, so parts appear in order with the separator between neighbours |
| `Text.ToLower` | js/admin.js:465 | `toLowerCase` keeps the length, turns each capital `A`-`Z` into its small letter, and keeps every other character (also js/admin.js:473-474) |
| `Text.Contains` | js/admin.js:473-474 | `includes(t)` holds exactly when `t` occurs at some position of `s` |
| `Seqs.Filter` | js/admin.js:205 | `filter` keeps exactly the elements the test accepts, each as often as before, in their old order (also js/admin.js:278, js/admin.js:326-328, js/admin.js:472-482) |
| `Seqs.FilterAll` | js/admin.js:278 | filtering with a test every element passes returns the same list |
| `Seqs.FilterFilter` | js/admin.js:471-482 | filtering twice is filtering once with both tests |
| `Products.IdsCons` | js/admin.js:326-328 | the ids of a list are the first id plus the ids of the rest |
| `Products.IdUniqueCard` | js/admin.js:326-328 | a list with distinct ids has as many ids as products |
| `Products.ConsIdUnique` | js/admin.js:278 | helper: putting a product with a new id before an id-unique list keeps it id-unique; it is the step of `Products.FilterIdUnique`, which the `filter` calls rely on |
| `Products.FilterIdUnique` | js/admin.js:276-280 | filtering keeps a list id-unique (also js/admin.js:326-328) |
| `Products.ConcatIdUnique` | js/admin.js:326-328 | two id-unique lists with disjoint ids concatenate to an id-unique list |
| `Pricing.Round` | js/admin.js:123 | `Math.round`: the result is the integer within half a unit, halves rounding up (also js/admin.js:361, js/admin.js:428, js/script.js:251) |
| `Pricing.CardDiscount` | js/script.js:250-252 | the card's discount is 0 when either price is 0 or missing, and otherwise the integer nearest to the percentage saved (also js/admin.js:360-362) |
| `Pricing.FormDiscount` | js/admin.js:118-128 | a discount is shown exactly when both prices (NaN read as 0) are positive and the sale price is the lower one |
| `Pricing.DiscountInRange` | js/admin.js:360-362 | for positive prices with the sale price lower, the card's discount lies between 0 and 100 (also js/script.js:250-252) |
| `Pricing.EqualPricesNoDiscount` | js/admin.js:360-362 | equal prices give a discount of 0 (also js/script.js:250-252) |
| `Pricing.BadgeOnlyWhenCheaper` | js/script.js:250-259 | for positive prices, the sale badge only appears when the sale price is lower |
| `Pricing.FormAgreesWithCard` | js/admin.js:118-128 | when the form shows a discount it is the card's discount and lies between 0 and 100 (also js/admin.js:360-362) |
| `Pricing.DiscountExamples` | js/script.js:250-259 | 100/75 gives 25, equal prices 0, an original price of 0 gives 0, and a higher sale price gives -50 with no badge and no form value |
| `ProductForm.TrimAll` | js/admin.js:204 | helper: `map(color => color.trim())` trims each part in place; it carries weight through `ProductForm.ColorsRoundTrip` |
| `ProductForm.ParseColors` | js/admin.js:200-206 | `parseColorsInput`: every colour is non-empty and trimmed and holds no comma |
| `ProductForm.SpaceEach` | js/admin.js:421 | helper: reads the `", "` separator as `","` plus a leading space on each later colour; it carries weight through `ProductForm.ColorsRoundTrip` |
| `ProductForm.JoinSpaceFirst` | js/admin.js:421 | a leading space on the first part moves to the front of the join |
| `ProductForm.JoinCommaSpace` | js/admin.js:421 | `join(", ")` equals `join(",")` over the colours with a space put in front of each later one |
| `ProductForm.SplitJoinedColors` | js/admin.js:203 | splitting the joined colours on `,` gives the first colour and the space-prefixed later ones (also js/admin.js:421) |
| `ProductForm.TrimJoinedColors` | js/admin.js:204 | trimming those parts gives the colours back (also js/admin.js:421) |
| `ProductForm.ColorsRoundTrip` | js/admin.js:200-206 | parsing the edit form's `join(", ")` of parsed colours gives the same colours (also js/admin.js:421) |
| `ProductForm.ColorsStableUnderEdit` | js/admin.js:200-206 | opening a product for editing and saving it again leaves its colours unchanged (also js/admin.js:421) |
| `ProductForm.NormalizeForm` | js/admin.js:162-171 | name, description and image URL are the trimmed inputs; the category is kept as chosen; both prices are kept as parsed; the colours are the parsed list; the stock is the parsed count, 0 when it does not parse |
| `ProductForm.ValidateProductData` | js/admin.js:208-238 | the data is valid exactly when every one of the seven checks passes; otherwise the message is one of the seven |
| `ProductForm.MessagesDistinct` | js/admin.js:208-238 | the seven messages differ, so a message identifies its check |
| `ProductForm.FailingCheck` | js/admin.js:208-238 | a rejection carries the message of a check that failed, and every check before it passed |
| `ProductForm.ValidateReportsFirstFailure` | js/admin.js:208-238 | the message reported is the one of the first failing check, in source order |
| `ProductForm.ValidatedDiscountInRange` | js/admin.js:226-234 | a product that passes validation gets a card discount between 0 and 100 (also js/admin.js:360-362) |
| `ProductForm.EditForm` | js/admin.js:415-422 | filling the edit form: name, category, description and image URL as stored; each price as stored when truthy and an empty field otherwise; the colours joined with `", "`; the stock reads back as the stored count |
| `ProductForm.EditResubmitRoundTrip` | js/admin.js:153-171 | a valid product opened in the edit form and submitted unchanged normalises to the same data (also js/admin.js:415-422) |
| `Reconcile.MergeProducts` | js/admin.js:326-328 | all local products come first in their order; then come the remote products whose id is not local, in remote order, each as often as the remote list has it |
| `Reconcile.MergeEmptyRemote` | js/admin.js:315-328 | when the fetch fails the list is the stored list |
| `Reconcile.MergeEmptyLocal` | js/admin.js:326-328 | with nothing stored the fetched list is shown as it is |
| `Reconcile.MergeIds` | js/admin.js:326-328 | the merged list carries exactly the ids of both sources |
| `Reconcile.MergeIdUnique` | js/admin.js:326-328 | id-unique sources give an id-unique merged list |
| `Reconcile.MergeLength` | js/admin.js:326-328 | the merged length is the local length plus the number of remote ids that are not local |
| `Reconcile.StorefrontProducts` | js/script.js:180 | helper: the storefront's list is the local list followed by the whole remote list; it carries weight through `Reconcile.MergeIsStorefrontIffDisjoint` and `Reconcile.LoadStorefront` |
| `Reconcile.MergeIsStorefrontIffDisjoint` | js/admin.js:326-328 | the admin and storefront lists agree exactly when no id is in both sources (also js/script.js:180) |
| `Reconcile.StorefrontShowsCollisions` | js/admin.js:326-328 | a shared id appears once in the admin panel and twice on the storefront (also js/script.js:180) |
| `Reconcile.Slice` | js/script.js:183-184 | `slice(start, end)`: the products from position `start` on, cut off at `end` and at the end of the list, with the length that gives |
| `Reconcile.LoadStorefront` | js/script.js:171-192 | with no products the empty message; otherwise up to 8 best sellers followed by up to 8 new products, and together they are the first 16 products |
| `Cart.TotalItems` | js/script.js:349 | `reduce` of the quantities: with no negative quantity the count is not negative (also js/admin.js:75) |
| `Cart.TotalItemsConcat` | js/script.js:349 | the item count of two carts put together is the sum of their counts |
| `Cart.TotalItemsAround` | js/script.js:349 | the count of a cart is the count before a line, plus that line's quantity, plus the count after it |
| `Cart.FindLine` | js/script.js:321 | `cart.find(item => item.productId === productId)`: the first line for the product, or none when no line has it |
| `Cart.CartAdd` | js/script.js:318-331 | adding keeps every existing line's product in its place and adds at most one line; `Cart.CartAddExisting` and `Cart.CartAddNew` give the exact result |
| `Cart.CartAddExisting` | js/script.js:323-324 | when the product has a line, adding it raises the first such line's quantity by one and changes nothing else |
| `Cart.CartAddNew` | js/script.js:325-331 | when the product has no line, adding it appends a line with quantity 1 dated now |
| `Cart.CartAddValid` | js/script.js:315-343 | adding keeps a cart with positive quantities and one line per product in that form |
| `Cart.CartAddExistingTotal` | js/script.js:323-324 | raising the first matching line's quantity raises the item count by one |
| `Cart.CartAddTotal` | js/script.js:315-343 | adding a product raises the item count by exactly one (also js/script.js:349) |
| `Cart.AddTwiceFromEmpty` | js/script.js:315-343 | adding the same product twice to an empty cart gives one line of quantity 2 dated at the first add |
| `Cart.TotalAtLeastLines` | js/script.js:349 | with positive quantities the item count is at least the number of lines |
| `Cart.CartBadge` | js/script.js:354-361 | the counter shows the item count and is hidden exactly when that count is 0 |
| `Cart.BadgeHiddenIffEmpty` | js/script.js:357-361 | for a valid cart, the counter is hidden exactly when the cart has no line |
| `LocalStore.ReadOrEmpty` | js/admin.js:282-290 | a missing key and an unreadable value both read as the empty list (also js/script.js:210-218) |
| `LocalStore.ParseOrEmpty` | js/admin.js:70-71 | reading a key with `JSON.parse` and an empty-list default throws exactly for an unreadable value, and otherwise reads like `getLocalProducts` (also js/script.js:318, js/script.js:348) |
| `LocalStore.Store.LocalProducts` | js/admin.js:282-290 | `getLocalProducts`: the stored list, or the empty list |
| `LocalStore.Store.SaveLocalProducts` | js/admin.js:292-298 | on success the key holds the list and reads back as it; on failure the outcome is `Fail` and the key is unchanged |
| `LocalStore.Store.SaveCart` | js/script.js:334 | the cart key holds the new lines on success and is unchanged on failure |
| `LocalStore.Store.SaveSubscribers` | js/script.js:419 | the subscriber key holds the new list on success and is unchanged on failure |
| `AdminCatalog.WithoutId` | js/admin.js:276-280 | no product with the id remains; every other product keeps its count and the order is kept |
| `AdminCatalog.DeleteAbsentId` | js/admin.js:276-280 | deleting an id that is not stored writes the same list back |
| `AdminCatalog.FirstIndexOf` | js/admin.js:264 | `findIndex`: the first position with the id, or none exactly when no product has it |
| `AdminCatalog.Edited` | js/admin.js:267-271 | the spread keeps the id and the creation time, replaces the form fields and sets the update time |
| `AdminCatalog.UpdatedProducts` | js/admin.js:262-274 | the length, ids and creation times of every position are kept; a missing id changes nothing |
| `AdminCatalog.UpdateOnlyFirstMatch` | js/admin.js:264-271 | only the first product with the id is edited |
| `AdminCatalog.UpdatePreservesIdUnique` | js/admin.js:262-274 | updating keeps the stored list id-unique |
| `AdminCatalog.DeletePreservesIdUnique` | js/admin.js:276-280 | deleting keeps the stored list id-unique |
| `AdminCatalog.AddPreservesIdUnique` | js/admin.js:250-259 | appending a product with a new id keeps the stored list id-unique |
| `AdminCatalog.AddProduct` | js/admin.js:250-259 | the stored list gains the new product at its end with id `Date.now()` and no update time; a refused write leaves the key as it was |
| `AdminCatalog.UpdateProduct` | js/admin.js:262-274 | a stored id leads to a write of the updated list; an id that is not stored causes no write and no failure |
| `AdminCatalog.DeleteProduct` | js/admin.js:276-280 | the list without the id is always written |
| `AdminCatalog.GetStockStatus` | js/admin.js:396-404 | out of stock exactly at 0; a low label carries a count below 10 and an in-stock label a count from 10, each the given count |
| `AdminCatalog.StockStatusMonotone` | js/admin.js:396-404 | for non-negative counts, more stock never gives a worse label; 0, 9 and 10 fall into the three classes |
| `AdminCatalog.StockStatusClasses` | js/admin.js:396-404 | out of stock exactly at 0, low exactly below 10 but not 0, in stock exactly from 10; the low and in-stock labels carry the count |
| `AdminCatalog.MatchesSearch` | js/admin.js:472-475 | a product matches exactly when the term occurs in its lower-cased name or lower-cased description; so an empty term matches every product, and a match needs the term to fit |
| `AdminCatalog.FilterProducts` | js/admin.js:464-486 | shows exactly the products matching the lower-cased term in name or description and the chosen category, in list order and each as often as the list has it; an empty term or category does not filter |
| `AdminCatalog.NoFilterShowsAll` | js/admin.js:468 | with an empty search box and no category every product is shown, in its order |
| `AdminCatalog.DashboardStatsOf` | js/admin.js:66-90 | the product count is the stored list's length, the cart count is the storefront badge's count and the subscriber count is the stored list's length; no update when the cart or subscriber list is unreadable |
| `AdminCatalog.AdminSession.constructor` | js/admin.js:12 | the page starts with no products on screen and nothing being edited |
| `AdminCatalog.AdminSession.LoadProducts` | js/admin.js:306-336 | the list on screen becomes the merge of the stored and fetched products |
| `AdminCatalog.AdminSession.ResetEditing` | js/admin.js:104-107 | the add button, closing the form and closing the delete dialog clear the id being edited (also js/admin.js:140-145, js/admin.js:507-511) |
| `AdminCatalog.AdminSession.EditProduct` | js/admin.js:407-436 | a known id fills the form from the first product on screen with that id and becomes the id being edited; an unknown id changes nothing |
| `AdminCatalog.AdminSession.ConfirmDeleteProduct` | js/admin.js:439-443 | the id is remembered while the dialog is open |
| `AdminCatalog.AdminSession.DeleteProductConfirmed` | js/admin.js:445-453 | with an id remembered: the delete is written, and on success the list is reloaded and the id cleared; with none, nothing happens |
| `AdminCatalog.AdminSession.EditingId` | js/admin.js:181-187 | the id `handleFormSubmit` updates: present exactly when an id is set and is not 0 |
| `AdminCatalog.AdminSession.SaveSubmission` | js/admin.js:181-187 | when editing, the product with the edited id is updated in the stored list, and an id that is not stored causes no write; otherwise a product with id `now` is appended; a refused write reports `SaveFailed` and leaves the key unchanged (also js/admin.js:250-274) |
| `AdminCatalog.AdminSession.SaveAndReload` | js/admin.js:181-193 | after a save that did not fail, the form is closed (no id being edited) and the list is reloaded; after a failed write the session is unchanged |
| `AdminCatalog.AdminSession.SubmitProduct` | js/admin.js:153-198 | a rejected form reports the first failing check and changes nothing; a valid form is saved as `SaveSubmission` states and then handled as `SaveAndReload` states |
| `Storefront.AddToCart` | js/script.js:315-343 | the stored cart becomes `CartAdd` of the old cart when it was readable and the write went through; otherwise it is unchanged |
| `Storefront.CartCount` | js/script.js:346-366 | the counter shows the cart's item count and is hidden at 0; an unreadable cart causes no update |
| `Newsletter.IndexOf` | js/script.js:407 | the first occurrence of a character, or none exactly when it does not occur |
| `Newsletter.IsValidEmail` | js/script.js:406-409 | an accepted address has at least 5 characters and neither starts nor ends with white space or `@`; `Newsletter.IsValidEmailMatchesPattern` ties it to the regular expression |
| `Newsletter.ValidEmailMatchesPattern` | js/script.js:406-409 | every address the computed check accepts matches `/^[^\s@]+@[^\s@]+\.[^\s@]+$/` |
| `Newsletter.PatternAtIsFirst` | js/script.js:407 | in a match, the `@` after the first run is the first `@` of the address |
| `Newsletter.AllNameCharsAroundDot` | js/script.js:407 | two runs of `[^\s@]` joined by `.` form one run |
| `Newsletter.WitnessIsValidEmail` | js/script.js:406-409 | an `@` and a `.` placed as the regular expression demands make the computed check pass |
| `Newsletter.PatternIsValidEmail` | js/script.js:406-409 | every address matching the regular expression passes the computed check |
| `Newsletter.IsValidEmailMatchesPattern` | js/script.js:406-409 | `isValidEmail` accepts exactly the strings the regular expression matches |
| `Newsletter.PlainAddressIsValid` | js/script.js:406-409 | `a@b.c` is accepted |
| `Newsletter.AddressWithoutDotIsInvalid` | js/script.js:406-409 | `a@bc`, with no `.` after the `@`, is refused |
| `Newsletter.AddressWithSpaceIsInvalid` | js/script.js:406-409 | `a b@c.d`, holding a space, is refused |
| `Newsletter.AddressWithTwoAtsIsInvalid` | js/script.js:406-409 | `a@b@c.d`, with a second `@`, is refused |
| `Newsletter.Subscribe` | js/script.js:417-418 | after signing up the address is in the list, the old list is a prefix, and the list grew by one exactly when the address was new |
| `Newsletter.SubscribeProperties` | js/script.js:412-426 | signing up is idempotent and keeps the list free of duplicates |
| `Newsletter.HandleNewsletterSignup` | js/script.js:412-426 | a new address is appended and written; an address already present causes no write; an unreadable list or a refused write leaves the key as it was |
| `Newsletter.SubmitNewsletter` | js/script.js:376-396 | the typed address is trimmed and accepted exactly when it passes the check; an accepted address is signed up when the list is readable and the write goes through, and in every other case the stored list is unchanged |

## Left out

- Rendering, the DOM, toasts, modals, navigation, the pop-up timer and `debounce` are not modelled. Only the values they display are.
- `fetch('data/products.json')` is not modelled. Its result is the `remote` parameter, which is empty when the fetch fails. Each reload is modelled as finishing at once, with no other event in between.
- A response body that is not an array is not modelled. The storefront reads it as an empty list (js/script.js:202). The admin panel does not check it, so `filter` throws at js/admin.js:326, the error row is shown and the list on screen keeps its old value. `AdminCatalog.AdminSession.LoadProducts` assumes an array.
- `editProduct` does not clear the discount field when a product has no discount (js/admin.js:425-430), so an old value can stay on screen. The field is display only and is not modelled.
- `JSON.parse`/`JSON.stringify` and the text in `localStorage` are not modelled. A key is `Missing`, `Corrupt` or `Stored(list)`, and a stored list of the wrong shape (for instance `null`) is not modelled.
- `new URL(...)` is not modelled. It is the `isValidUrl` parameter.
- `parseFloat` and `parseInt` on form text are not modelled. The form arrives already parsed, with `None` for `NaN`.
- Floating point is modelled as exact real arithmetic, so rounding errors in the discount are not captured.
- `Text.ToLower`: folds only `A`-`Z`, because the case mapping of other Unicode letters is not modelled.
- `AdminCatalog.DashboardStatsOf`: does not model the total value (`parseFloat(salePrice) || 0` summed in floating point).
- `Text.Trim`: states that the result is trimmed and made of the input's characters, not that exactly the outer white space is removed. `Text.TrimStart` and `Text.TrimEnd` state the exact ends.
- Export to JSON, clearing all data and the cart pop-up (`alert`) only read or erase the keys modelled here. They are not modelled.
- Storage events from other tabs and concurrent writes are not modelled.
- Ids are integers. The loose `==`/`!=` comparisons of `updateProduct`, `deleteProduct` and `editProduct` and the strict `===` of the merge therefore agree. A string id read from JSON would make them differ, and that case is not modelled.
- A stock count that is not a whole number, and products with missing fields (`product.name || ''`), are not modelled. Every product has every field.

## Behaviour kept as the code has it

Four behaviours of the code may surprise a reader. The model follows the code in each:

- The stock quantity is not forced to be non-negative, so `-3` is saved and labelled as low stock.
- Colours are not de-duplicated.
- A sale price above the original price gives the storefront card a negative discount without a badge.
- Editing or deleting a product that comes only from the fetched catalogue writes nothing (`updateProduct`) or writes the stored list back unchanged (`deleteProduct`), so the product stays on screen after a reload.
