# Store catalog admin and schema, modelled in Dafny

This project models the core of a small e-commerce backend: the product and
order admin listings and the relational schema behind them.

- **Schema** (`schema.dfy`, module `Schema`). There is one record per table:
  Category, Discount, Product, Customer, Address, Order, OrderItem, Cart,
  CartItem and Comment. The module also holds the order and comment status
  choices with their one-letter codes, and a `Store` that maps primary keys
  to records for every table. `Valid` is the invariant the declared
  constraints promise: every foreign key names an existing row, the
  `unique_together` pairs do not repeat, inventory and quantities are never
  negative, and issued keys stay below the auto-increment counter.
- **Writes** (`writes.dfy`, module `Writes`). There is one insert and one
  delete per table.
  - An insert fails when a foreign key names no row, when a pair is taken,
    when a count is negative, or when a status code is not a declared choice.
    An omitted status takes its default: `'u'` (Unpaid) for orders and `'p'`
    (Pending) for comments.
  - A delete fails while a PROTECT reference exists and removes CASCADE
    dependents.
  - Every operation preserves `Valid`.
- **Lifecycle** (`lifecycle.dfy`, module `Lifecycle`). The store as a state
  machine: runs of operations in which a failed operation is rolled back.
  It also holds the PROTECT and uniqueness facts and the insert/delete round
  trips.
- **Inventory** (`inventory.dfy`, module `Inventory`). The product listing's
  inventory-status column (Low below 10, Medium 10 to 50, High above 50). It
  also holds the "Critical Inventory Status" list filter, whose value codes
  are `'<3'`, `'3<=10'` and `'>10'`. The filter's lookup table is kept
  exactly as declared, so the `'<3'` choice is labelled `'High'`. A
  selection the filter does not recognise makes its queryset hook return
  nothing, and the listing then stays as it was.
- **Listing** (`listing.dfy`, module `Listing`). The "Clear Inventory" bulk
  action, and the `comments_count` / `items_count` annotations of the
  product and order listings.

Conventions:
- Prices are whole numbers of cents.
- Primary keys are naturals issued from one store-wide counter.
- An address is keyed by its customer's id, because the source makes the
  customer foreign key the address's primary key.
- A query's rows are a sequence of records or keys, in listing order.

Notes on the declared fields:
- `PositiveIntegerField` and `PositiveSmallIntegerField` admit 0
  (store/models.py:28, 76, 91), so inventory and quantities must be at
  least 0, not strictly positive.
- `Product.price` and `OrderItem.price` are `DecimalField`s with no lower
  bound (store/models.py:27, 77), so a price may be negative.
- `Product.slug` is a `SlugField` without `unique=True` (store/models.py:25),
  so slugs may repeat.
- The status `choices` (store/models.py:59-68, 101-112) are checked by
  `full_clean`, which the admin's forms run. The column itself would store
  any one-character code. The model applies that check to every insert.

## Model

| member | source | states |
|---|---|---|
| Inventory.InventoryStatus | store/admin.py:49-54 | Low exactly when inventory < 10; High exactly when inventory > 50; Medium exactly for 10..50 inclusive; always one of the three labels |
| Inventory.InventoryStatusMonotone | store/admin.py:49-54 | more inventory never yields a lower label on the scale Low < Medium < High |
| Inventory.Queryset | store/admin.py:23-29 | '<3' keeps exactly the rows with inventory < 3, '3<=10' exactly those with 3 ≤ inventory ≤ 10, '>10' exactly those with inventory > 10; any other value or none returns nothing; a kept row appears exactly as often as in the listing; every result is an order-preserving subsequence |
| Inventory.ApplyInventoryFilter | store/admin.py:23-29 | with an unrecognised or missing selection the listing is unchanged; with a lookup code it holds exactly the rows in that band, each as often as in the listing; always a subsequence of the listing |
| Inventory.Filter | store/admin.py:25-29 | the kept rows are exactly the input rows the predicate accepts, each as many times as in the input |
| Inventory.FilterIsSubsequence | store/admin.py:25-29 | a filtered query keeps its rows in their original order |
| Inventory.BandsPartition | store/admin.py:24-29 | the three filter bands are pairwise disjoint and together cover every count |
| Inventory.BandsSplitListing | store/admin.py:24-29 | the three band results together hold every listing row exactly as often as the listing does |
| Inventory.FilterBandsAgainstStatus | store/admin.py:24-54 | rows in the '<3' filter band are labelled Low by the status column; rows labelled High are in the '>10' band |
| Listing.ClearInventory | store/admin.py:68-71 | selected products get inventory 0 with every other field kept; unselected products and all other tables are unchanged; the reported count is the number of selected products that exist (so an empty selection reports 0); integrity is preserved |
| Listing.ZeroInventories | store/admin.py:70 | the bulk update on the product table: keys kept, selected rows zeroed, the rest unchanged, count of matched rows |
| Listing.InventoryOnlyKeepsValid | store/models.py:28 | changing only product inventories, to 0, keeps every declared constraint |
| Listing.CountRelated | store/admin.py:47 | the count equals the number of rows the relation picks out |
| Listing.ProductListing | store/admin.py:44-47 | one row per listed product, in order, each annotated with the number of comments on that product |
| Listing.OrderListing | store/admin.py:89-92 | one row per listed order, in order, each annotated with the number of its items |
| Listing.InsertCommentCounted | store/admin.py:47 | a new comment raises its product's comments_count by one and leaves every other product's comments unchanged |
| Listing.InsertOrderItemCounted | store/admin.py:92 | a new order item raises its order's items_count by one and leaves every other order's items unchanged |
| Listing.DeleteProductClearsComments | store/models.py:106-107 | after a product is deleted no comment refers to it |
| Schema.OrderStatusCode | store/models.py:56-63 | every order status is stored as one of the declared codes |
| Schema.ParseOrderStatus | store/models.py:56-63 | a code reads as a status exactly when it is a declared choice, and reads back to that code |
| Schema.CommentStatusCode | store/models.py:98-105 | every comment status is stored as one of the declared codes |
| Schema.ParseCommentStatus | store/models.py:98-105 | a code reads as a status exactly when it is a declared choice, and reads back to that code |
| Schema.OrderStatusCodes | store/models.py:56-68 | status and code round-trip; only 'p', 'u', 'c' parse; the default code is Unpaid |
| Schema.CommentStatusCodes | store/models.py:98-112 | status and code round-trip; only 'a', 'p', 'r' parse; the default code is Pending |
| Writes.OrderStatusOrDefault | store/models.py:67-68 | an omitted order status becomes Unpaid, a given code is parsed against the choices |
| Writes.CommentStatusOrDefault | store/models.py:111-112 | an omitted comment status becomes Pending, a given code is parsed against the choices |
| Writes.InsertCategory | store/models.py:4-6 | always succeeds with a fresh key; only the category table grows; integrity preserved |
| Writes.InsertDiscount | store/models.py:13-15 | always succeeds with a fresh key; only the discount table grows; integrity preserved |
| Writes.InsertProduct | store/models.py:21-31 | fails exactly on negative inventory (NegativeValue) or a missing category or discount (MissingReference); otherwise adds the product under a fresh key; integrity preserved |
| Writes.InsertCustomer | store/models.py:37-41 | always succeeds with a fresh key; only the customer table grows; integrity preserved |
| Writes.InsertAddress | store/models.py:47-52 | fails exactly when the customer is missing or already has an address; otherwise the address is stored under the customer's key |
| Writes.InsertOrder | store/models.py:55-68 | fails exactly on a status code outside the choices or a missing customer; otherwise a fresh order with the given status, or Unpaid when none is given |
| Writes.InsertOrderItem | store/models.py:71-80 | fails exactly on negative quantity, a missing order or product, or a taken (order, product) pair (DuplicatePair); otherwise adds the item |
| Writes.InsertCart | store/models.py:83-84 | always succeeds with a fresh key; integrity preserved |
| Writes.InsertCartItem | store/models.py:87-94 | fails exactly on negative quantity, a missing cart or product, or a taken (cart, product) pair; otherwise adds the item |
| Writes.InsertComment | store/models.py:97-112 | fails exactly on a status code outside the choices or a missing product; otherwise a fresh comment with the given status, or Pending when none is given |
| Writes.DeleteCategory | store/models.py:23-24 | fails (Protected) exactly while some product references the category; otherwise only the category goes |
| Writes.DeleteDiscount | store/models.py:31 | removes the discount and its links from every product; nothing else changes |
| Writes.DeleteProduct | store/models.py:74-107 | fails exactly while some order item references the product; otherwise removes it with exactly its cart items and comments; integrity preserved |
| Writes.DeleteCustomer | store/models.py:48-65 | fails exactly while some order references the customer; otherwise removes it and its address |
| Writes.DeleteAddress | store/models.py:47-49 | removes only that address |
| Writes.DeleteOrder | store/models.py:72-73 | fails exactly while some order item references the order; otherwise only the order goes |
| Writes.DeleteOrderItem | store/models.py:71-80 | removes only that item; integrity preserved |
| Writes.DeleteCart | store/models.py:88-89 | removes the cart with exactly its items |
| Writes.DeleteCartItem | store/models.py:87-94 | removes only that item; integrity preserved |
| Writes.DeleteComment | store/models.py:97-112 | removes only that comment; integrity preserved |
| Lifecycle.Apply | store/models.py:21-112 | a successful insert or delete of any kind preserves every declared constraint |
| Lifecycle.Run | store/models.py:21-112 | any run of inserts and deletes, with failures rolled back, preserves every declared constraint |
| Lifecycle.ReachableStoresValid | store/models.py:21-112 | every store reachable from the empty one has resolving foreign keys, unique pairs and non-negative counts |
| Lifecycle.OrderItemProtects | store/models.py:72-75 | an order item blocks the delete of both its order and its product |
| Lifecycle.ReferencingRowsProtect | store/models.py:23-65 | a product blocks the delete of its category; an order blocks the delete of its customer |
| Lifecycle.OrderItemPairOnce | store/models.py:79-80 | inserting the same (order, product) item twice fails the second time with DuplicatePair |
| Lifecycle.CartItemPairOnce | store/models.py:93-94 | inserting the same (cart, product) item twice fails the second time with DuplicatePair |
| Lifecycle.InsertThenDeleteCategory | store/models.py:4-6 | deleting a just-inserted category restores the store |
| Lifecycle.InsertThenDeleteDiscount | store/models.py:13-15 | deleting a just-inserted discount restores the store, product links included |
| Lifecycle.InsertThenDeleteProduct | store/models.py:21-31 | deleting a just-inserted product succeeds and restores the store |
| Lifecycle.InsertThenDeleteCustomer | store/models.py:37-41 | deleting a just-inserted customer succeeds and restores the store |
| Lifecycle.InsertThenDeleteAddress | store/models.py:47-52 | deleting a just-inserted address restores the store exactly |
| Lifecycle.InsertThenDeleteOrder | store/models.py:55-68 | deleting a just-inserted order succeeds and restores the store |
| Lifecycle.InsertThenDeleteOrderItem | store/models.py:71-80 | deleting a just-inserted order item restores the store |
| Lifecycle.InsertThenDeleteCart | store/models.py:83-84 | deleting a just-inserted cart restores the store |
| Lifecycle.InsertThenDeleteCartItem | store/models.py:87-94 | deleting a just-inserted cart item restores the store |
| Lifecycle.InsertThenDeleteComment | store/models.py:97-112 | deleting a just-inserted comment restores the store |

## Left out

- `Category.top_product` (store/models.py:7): the declaration is unterminated, so its target and delete policy are unknown. The field is omitted.
- `Discount.discount` is a float and is not modelled. Prices are opaque whole numbers of cents.
- Column width and precision limits are not modelled: `max_length`, the 6-digit decimal prices, and the upper bounds of the positive integer fields. The database backend enforces them differently from one engine to another.
- Blank-field validation is not modelled (for example, a category title must be non-empty). Django checks it only in `full_clean`, as the admin's forms do.
- Writes.InsertOrder, Writes.InsertComment: the model applies the admin form's choice check (`full_clean`) to every insert. An insert that skips validation, such as `Order.objects.create(status='x')`, would store any one-character code; the model rejects it with InvalidChoice instead.
- Timestamps (`auto_now`, `auto_now_add`) are not modelled. The order listing's newest-first ordering (store/admin.py:86) is left out with them: the listings take their base rows in the order the framework supplies.
- The `num_of_comments` link (HTML, URL reversing and query encoding) is admin UI rendering. So are `category_title`, `message_user`, pagination, `list_editable`, search, autocomplete, the inlines and the other admin configuration.
- `prefetch_related` and `list_select_related` are query-performance hints with no observable effect.
- Listing.ClearInventory: the atomicity of the single UPDATE statement is not modelled, because the model is sequential. So are database transactions in general.
- The storefront view (store/views.py) is not part of this model: it is a one-line query handed to template rendering. URL routing and admin titles (config/urls.py) are not part of it either.
- Status transitions are not modelled. The source allows any status to be assigned later, through the editable admin column, and declares no transition rules.
