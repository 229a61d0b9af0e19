# Storefront core in Dafny

A model of the core of a Django storefront:

- the product recommender `get_recommended_products`;
- the cart views (add, update, remove, checkout);
- the order checkout that turns a cart into an order, and the order totals;
- the store views: the product list's category filter, the product detail page and the save/unsave toggle.

Database tables are modelled as follows:

- A query result is a `seq` in the table's native row order.
- The cart-item table, updated in place, is a class `CartViews.CartTable` with a `map` from row id to row.
- The saved-items table is a class `StoreViews.SavedTable` over a `seq`.
- The orders table is `CartModels.OrderBook`.

The recommender reads a snapshot of the catalog, saved-item and cart-item tables (`Catalog.Store`).

Files:

- `catalog.dfy`: the shared entities (products, saved rows, cart rows, the requester). It also has the QuerySet operations the views use: `exclude(id__in=…)`, `filter(id__in=…)`, `filter(category=…)` and slicing.
- `recommendations.dfy`: the four recommendation stages.
  - Each query stage is a specification function.
  - `RankedStages` and `GetRecommendedProducts` run the stages step by step.
  - The popularity dictionary is built by the loop in `ProductPopularity`.
  - The random fill is `RandomFill`, which makes a free (nondeterministic) choice at each draw.
- `cart_views.dfy`: the cart table and the four cart views.
- `cart_models.dfy`: order lines, order totals, and the order-placing checkout.
- `store_views.dfy`: the store views.

Prices are decimals with two places. The model holds them exactly, as integer cents.

Where the code and its documentation disagree, the model follows the code:

- The recommender's docstring names three stages, but the code runs four. The fourth is a random fill.
- The docstring says the function returns a QuerySet, but it returns a list.
- Stage 3 sorts product ids by popularity at `ecommerce/store/recommendations.py:96-98`. It then re-fetches them with `filter(id__in=…)` at line 105, which returns rows in store order. So the popularity order does not survive. The model takes stage 3 in store order (`PopularInStoreOrder`). `PopularityOrderNotKept` exhibits a store where a product referenced once is recommended before one referenced twice.
- Stages 1 to 3 are functions of the store state, so two calls on an unchanged store agree on them. Only the random fill may differ between calls.

## Model

| member | source | states |
|---|---|---|
| Catalog.Take | ecommerce/store/recommendations.py:116 | the slice `[:n]` is the first `min(n, len)` rows, keeps only rows of the input and keeps ids unique |
| Catalog.TakeKeepsEarlierRows | ecommerce/store/recommendations.py:73 | slicing a filtered queryset of a table with unique keys keeps every earlier row: when a later table row is in the slice, so is every earlier row the queryset holds |
| Catalog.Excluding | ecommerce/store/recommendations.py:68-72 | `exclude(id__in=ids)` keeps exactly the rows whose id is not in `ids`, in row order (a subsequence), never grows and keeps ids unique |
| Catalog.Among | ecommerce/store/recommendations.py:62 | `filter(id__in=ids)` keeps exactly the rows whose id is in `ids`, in row order, never grows and keeps ids unique |
| Catalog.InCategory | ecommerce/store/recommendations.py:68-69 | `filter(category=c)` keeps exactly the rows of category `c`, in row order, and keeps ids unique |
| Catalog.ExcludingPresentId | ecommerce/store/recommendations.py:30 | excluding the anchor's id from a catalog with unique ids that holds the anchor drops exactly one row |
| Catalog.ExcludingAbsentIds | ecommerce/store/recommendations.py:70-72 | excluding ids that no row carries (such as the ids of an empty list) keeps every row |
| Recommendations.Others | ecommerce/store/recommendations.py:30 | the base queryset holds exactly the catalog rows other than the anchor |
| Recommendations.Collaborative | ecommerce/store/recommendations.py:32-63 | stage 1 is empty unless the requester is signed in, holds at most `limit` rows, all from the catalog and none the anchor, with unique ids |
| Recommendations.InterestedUsersMeaning | ecommerce/store/recommendations.py:35-38 | a user is interested exactly when they saved the anchor or have it in their cart |
| Recommendations.CoInteractedMeaning | ecommerce/store/recommendations.py:42-58 | a product is a stage-1 candidate exactly when it is not the anchor and some interested user saved it or has it in their cart |
| Recommendations.CollaborativePicks | ecommerce/store/recommendations.py:32-63 | every stage-1 pick shares an engaged user with the anchor; with no engaged user stage 1 is empty; a signed-in requester's stage 1 omits no such product unless it reached `limit`; its picks are a subsequence of the catalog (store order) |
| Recommendations.CollaborativeFirstRows | ecommerce/store/recommendations.py:62-63 | the slice `[:limit]` takes the first candidates in store order: a product other than the anchor that shares an engaged user with it is never skipped while a later catalog row is taken |
| Recommendations.SameCategory | ecommerce/store/recommendations.py:65-73 | stage 2 runs only below the limit and keeps the total within it, takes catalog rows other than the anchor and not already chosen, with unique ids |
| Recommendations.SameCategoryPicks | ecommerce/store/recommendations.py:66-73 | every stage-2 pick has the anchor's category; unless the budget runs out it takes every such product not yet chosen; its picks are a subsequence of the catalog (store order) |
| Recommendations.SameCategoryFirstRows | ecommerce/store/recommendations.py:73 | the slice `[:needed]` takes the first candidates in store order: a catalog row of the anchor's category, not the anchor and not yet chosen, is never skipped while a later catalog row is taken |
| Recommendations.CategoryFallback | ecommerce/store/recommendations.py:66-73 | when stage 1 is empty and the category holds at least `limit` other products, stages 1 to 3 give exactly the first `limit` of them in store order, so all have the anchor's category |
| Recommendations.Popular | ecommerce/store/recommendations.py:75-106 | stage 3 runs only below the limit and keeps the total within it, takes catalog rows other than the anchor and not already chosen, with unique ids |
| Recommendations.SaveCountPositive | ecommerce/store/recommendations.py:79 | a product's saved-row count is positive exactly when some saved row references it |
| Recommendations.CartCountPositive | ecommerce/store/recommendations.py:80 | a product's cart-row count is positive exactly when some cart row references it |
| Recommendations.PopularIdsScore | ecommerce/store/recommendations.py:83-93 | the popularity dictionary's keys are exactly the products with a score of at least 1 |
| Recommendations.PopularPicks | ecommerce/store/recommendations.py:76-106 | every stage-3 pick has a score of at least 1; unless the budget runs out stage 3 takes every such product not yet chosen |
| Recommendations.PopularInStoreOrder | ecommerce/store/recommendations.py:104-106 | stage 3 yields its picks in catalog order (a subsequence of the catalog), whatever their scores |
| Recommendations.PopularFirstRows | ecommerce/store/recommendations.py:104-106 | the slice `[:needed]` after the re-fetch takes the first popular candidates in store order, whatever their scores: a product other than the anchor with a score of at least 1 and not yet chosen is never skipped while a later catalog row is taken |
| Recommendations.PopularityOrderNotKept | ecommerce/store/recommendations.py:96-106 | in a concrete store, stages 1 to 3 return a product with score 1 before a product with score 2 |
| Recommendations.Ranked | ecommerce/store/recommendations.py:24-106 | stages 1 to 3 in that order together hold at most `limit` products, all from the catalog, never the anchor, with no repeated product |
| Recommendations.AnonymousSkipsCollaboration | ecommerce/store/recommendations.py:32 | without a signed-in requester the result comes from stages 2 and 3 alone |
| Recommendations.ProductPopularity | ecommerce/store/recommendations.py:83-93 | the dictionary filled from saved rows and then cart rows maps each referenced product, and only those, to its saved-row count plus its cart-row count |
| Recommendations.RandomFill | ecommerce/store/recommendations.py:109-114 | the random fill draws distinct rows from the pool, as many as needed or as the pool holds |
| Recommendations.PopularityKeys | ecommerce/store/recommendations.py:83-93 | a dictionary whose keys are exactly the products with a saved or cart row has as key set the stage-3 candidates |
| Recommendations.PopularStage | ecommerce/store/recommendations.py:76-106 | building the dictionary, dropping products already chosen and fetching the rest from the base queryset up to the remaining budget yields exactly stage 3 |
| Recommendations.RankedStages | ecommerce/store/recommendations.py:24-106 | running stages 1 to 3 on a growing list yields exactly the stage-by-stage specification |
| Recommendations.FillStage | ecommerce/store/recommendations.py:109-114 | the random filler takes catalog rows other than the anchor and not already chosen, keeps ids unique and brings the list to `min(limit, number of other products)` |
| Recommendations.GetRecommendedProducts | ecommerce/store/recommendations.py:7-116 | the result starts with stages 1 to 3; the random filler after them repeats none of their products; every product is from the catalog and is not the anchor; there are no duplicates; the length is `min(limit, number of other products)`; with no stage-1 picks and a full category, every product has the anchor's category |
| CartViews.WithoutCartOf | ecommerce/cart/views.py:53 | deleting a cart's rows removes exactly the rows of that user's cart and leaves the others untouched |
| CartViews.CartTable.AddToCart | ecommerce/cart/views.py:14-24 | an unknown product is a 404 with no change; otherwise the user gets a cart, a new row is created exactly when none exists for (cart, product), and an existing row's quantity grows by exactly 1; the one-row-per-product invariant holds |
| CartViews.CartTable.RemoveFromCart | ecommerce/cart/views.py:27-30 | the row is deleted exactly when it exists and belongs to the requester's cart, otherwise nothing changes |
| CartViews.CartTable.UpdateCart | ecommerce/cart/views.py:33-44 | for the requester's own row, a POST sets the quantity to the posted value (1 if missing) when positive and deletes the row otherwise; a GET or a foreign row changes nothing |
| CartViews.CartTable.ClearCart | ecommerce/cart/views.py:53 | every row of the user's cart is deleted and no other row changes |
| CartViews.CartTable.Checkout | ecommerce/cart/views.py:47-56 | without a cart, a 404; a POST leaves the user's cart empty and every other cart intact; a GET changes nothing |
| CartModels.LineTotal | ecommerce/cart/models.py:53-55 | a line of quantity 0 totals 0, of quantity 1 totals its price, and with a non-negative price and a positive quantity at least its price |
| CartModels.OrderTotal | ecommerce/cart/models.py:40-42 | an order with no lines totals 0, and one whose prices and quantities are non-negative has a non-negative total |
| CartModels.OrderTotalAppend | ecommerce/cart/models.py:40-42 | the total of two runs of lines is the sum of their totals |
| CartModels.OrderTotalReorder | ecommerce/cart/models.py:40-42 | the total does not depend on the order of the lines |
| CartModels.CopyCartLines | ecommerce/cart/models.py:85-91 | the loop over the cart's rows makes one order line per row, in some order, each with the row's product, the product's current price and the row's quantity |
| CartModels.CopiesArePermutations | ecommerce/cart/models.py:85-91 | two copies of the same cart rows taken in any two orders hold the same lines |
| CartModels.CheckoutTotalDeterministic | ecommerce/cart/models.py:85-91 | whatever order checkout reads the cart rows in, the order it places has the same lines and the same total |
| CartModels.Checkout | ecommerce/cart/models.py:66-116 | without a cart, a 404; an empty cart places no order; a POST with a valid form places exactly one pending order for the user, with the form's details and one line per cart row at the product's current price and the row's quantity, then empties that cart and no other; any other request changes nothing |
| StoreViews.Deleted | ecommerce/store/views.py:50-51 | deleting a saved row removes exactly that row and keeps the others |
| StoreViews.DeletedNoDuplicates | ecommerce/store/views.py:50-51 | deleting a saved row keeps the table free of duplicate rows |
| StoreViews.DeletedAppended | ecommerce/store/views.py:48-51 | deleting a row that was just created restores the table |
| StoreViews.Toggled | ecommerce/store/views.py:48-51 | after `get_or_create` and, for an existing row, `delete`, the (user, product) row is present exactly when it was absent, and every other row keeps its presence |
| StoreViews.ToggledNoDuplicates | ecommerce/store/views.py:48-51 | a toggle keeps the saved table free of duplicate rows |
| StoreViews.ToggleTwice | ecommerce/store/views.py:46-53 | toggling twice restores a table that lacked the row, and the set of rows of one that held it |
| StoreViews.ToggleFlipsIsSaved | ecommerce/store/views.py:36-38 | after a toggle the detail page shows the opposite saved state to that user for that product, and the same state to every other visitor and product; it shows nothing saved to a visitor who is not signed in |
| StoreViews.SavedTable.ToggleSaveProduct | ecommerce/store/views.py:45-53 | a visitor who is not signed in must log in, and an unknown product is a 404, both with no change; otherwise the table is toggled and the result says whether the row was created |
| StoreViews.FindCategory | ecommerce/store/views.py:21 | the lookup returns a category with the slug, or none when no category has it |
| StoreViews.ProductList | ecommerce/store/views.py:16-27 | with no slug or an empty slug, every product; with an unknown slug, a 404; otherwise the category with that slug and exactly its products, in table order |
| StoreViews.FindProduct | ecommerce/store/views.py:30 | the lookup returns the catalog row with the key, or none when no row has it |
| StoreViews.ProductDetail | ecommerce/store/views.py:29-44 | an unknown product is a 404; otherwise the page shows the recommender's output for limit 5, which starts with stages 1 to 3 and holds `min(5, number of other products)` distinct products, none of them the product itself; it marks the product saved exactly when a signed-in visitor saved it |

## Left out

- Rendering, redirects, flash messages and templates are left out. Each view's observable result is its return value and the table changes.
- `login_required` on the cart views is left out: the user parameter is the signed-in user. For `toggle_save_product` the login redirect is modelled.
- Negative limits are left out. `limit` is a natural number, so Python's negative slicing is not modelled.
- Recommendations.RandomFill: true randomness is left out. `order_by('?')` is modelled as a free choice of each drawn row, so every outcome is allowed. The contract does not claim a uniform distribution.
- Recommendations.Popular: the sort at lines 96-98 has no effect on the result, because line 105 re-fetches in store order. The model therefore claims no popularity order.
- Recommendations.ProductPopularity: the two grouped `Count` queries at lines 79-80 are folded into one pass over the raw saved rows and cart rows. The result has the same keys and values. Their `order_by('-count')` sets the insertion order of the dictionary's keys, and through it the tie order of the stable sort at lines 96-98; that order is not modelled, because it changes neither the keys and values nor the result, since line 105 re-fetches the rows in store order.
- CartViews.CartTable.AddToCart: the default quantity of a new cart row comes from the cart-item model, which is not part of this model. It is a constructor parameter, `defaultQuantity`.
- CartViews.CartTable.UpdateCart: a posted quantity that is not an integer makes `int(...)` raise. That error path is left out. The posted value is an optional integer.
- CartModels.Checkout:
  - Form validation is left out. A valid form is passed in as `Some(details)`, and anything else as `None`.
  - The profile pre-fill of the GET form (lines 98-109) is left out. It only sets initial field values.
  - `transaction.atomic` is not modelled separately. The whole branch is one atomic method step.
  - Line prices are read from a `prices` map. The requirement that every cart row's product has a price stands for the database's foreign keys.
  - The order's creation time and id, and the `order_success`/`order_detail` views, are left out.
  - `OrderItem.quantity` is a positive-integer field. The model copies the cart row's quantity as an integer and does not model the database's rejection of a negative value.
- The model definitions of Product, Category, SavedItem, Cart and CartItem (`store/models.py` and the Cart/CartItem part of `cart/models.py`) are not part of this model. Products are reduced to their id and category, and categories to their id and slug.
- StoreViews.FindCategory: category slugs are assumed unique. When two categories share a slug, `get_object_or_404` at `ecommerce/store/views.py:21` raises `MultipleObjectsReturned` (a server error); that error is not modelled, and the lookup returns the first category with the slug.
- Product lookup by slug is left out. A product is looked up by its key, on the assumption that slugs are unique.
- SavedTable.Valid: the uniqueness of (user, product) in saved items is assumed, not checked. Duplicate rows would make `get_or_create` raise.
- Decimal rounding and currency formatting are left out. Prices are exact integer cents.
- Categories, the home page, `cart_detail`, `saved_products`, the admin, users and the sample-data command are outside the core.
