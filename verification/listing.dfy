/** The admin listings' store-level work: the "Clear Inventory" bulk action
    and the per-row counts the product and order listings are annotated
    with (`comments_count`, `items_count`). */
module Listing {
  import opened Optional
  import opened Schema
  import opened Writes

  // ---------------------------------------------------------------------
  // Clear Inventory.

  /** Sets the inventory of every selected product to 0 and reports how
      many rows the update matched. Keys that name no product are ignored;
      nothing but inventory, and no other table, changes. */
  method ClearInventory(s: Store, selected: set<Id>) returns (t: Store, updated: nat)
    ensures t == s.(products := t.products)
    ensures t.products.Keys == s.products.Keys
    ensures forall id :: id in s.products && id in selected ==>
      t.products[id] == s.products[id].(inventory := 0)
    ensures forall id :: id in s.products && id !in selected ==> t.products[id] == s.products[id]
    ensures updated == |selected * s.products.Keys|
    ensures selected <= s.products.Keys ==> updated == |selected|
    ensures Valid(s) ==> Valid(t)
  {
    var products;
    products, updated := ZeroInventories(s.products, selected);
    if selected <= s.products.Keys {
      assert selected * s.products.Keys == selected;
    }
    t := s.(products := products);
    InventoryOnlyKeepsValid(s, t);
  }

  /** The update itself, on the product table alone. */
  method ZeroInventories(products: map<Id, Product>, selected: set<Id>) returns (cleared: map<Id, Product>, updated: nat)
    ensures cleared.Keys == products.Keys
    ensures forall id :: id in products && id in selected ==> cleared[id] == products[id].(inventory := 0)
    ensures forall id :: id in products && id !in selected ==> cleared[id] == products[id]
    ensures updated == |selected * products.Keys|
  {
    cleared := products;
    updated := 0;
    var matched := selected * products.Keys;
    var todo := matched;
    while todo != {}
      invariant todo <= matched
      invariant updated + |todo| == |matched|
      invariant cleared.Keys == products.Keys
      invariant forall id :: id in cleared ==>
        cleared[id] == if id in matched && id !in todo then products[id].(inventory := 0) else products[id]
      decreases |todo|
    {
      var id :| id in todo;
      cleared := cleared[id := products[id].(inventory := 0)];
      updated := updated + 1;
      todo := todo - {id};
    }
  }

  /** Changing nothing but product inventories, and only to values that are
      not negative, keeps every declared constraint. */
  lemma InventoryOnlyKeepsValid(s: Store, t: Store)
    requires t == s.(products := t.products)
    requires t.products.Keys == s.products.Keys
    requires forall id :: id in s.products ==>
      t.products[id] == s.products[id] || t.products[id] == s.products[id].(inventory := 0)
    ensures Valid(s) ==> Valid(t)
  {
    if Valid(s) {
      assert forall id :: id in t.products ==>
        t.products[id].category == s.products[id].category && t.products[id].discounts == s.products[id].discounts;
      assert ReferencesResolve(t);
      assert CountsNonNegative(t);
    }
  }

  // ---------------------------------------------------------------------
  // Count annotations.

  /** The comments on one product: what `Count('comments')` counts. */
  function CommentsOf(s: Store, product: Id): set<Id>
  {
    set c | c in s.comments && s.comments[c].product == product
  }

  /** The items of one order: what `Count('items')` counts. */
  function ItemsOf(s: Store, order: Id): set<Id>
  {
    set i | i in s.orderItems && s.orderItems[i].order == order
  }

  /** The keys among `keys` whose rows in `m` `related` picks out. */
  function RelatedKeys<T>(m: map<Id, T>, keys: set<Id>, related: T -> bool): set<Id>
  {
    set k | k in keys && k in m && related(m[k])
  }

  /** Counts the rows of a table that `related` picks out, one key at a time. */
  method CountRelated<T>(m: map<Id, T>, related: T -> bool) returns (n: nat)
    ensures n == |RelatedKeys(m, m.Keys, related)|
  {
    n := 0;
    var todo := m.Keys;
    while todo != {}
      invariant todo <= m.Keys
      invariant n + |RelatedKeys(m, todo, related)| == |RelatedKeys(m, m.Keys, related)|
      decreases |todo|
    {
      var k :| k in todo;
      ghost var before := RelatedKeys(m, todo, related);
      todo := todo - {k};
      if related(m[k]) {
        assert RelatedKeys(m, todo, related) == before - {k};
        n := n + 1;
      } else {
        assert RelatedKeys(m, todo, related) == before;
      }
    }
    assert RelatedKeys(m, todo, related) == {};
  }

  datatype ProductRow = ProductRow(id: Id, product: Product, commentsCount: nat)

  datatype OrderRow = OrderRow(id: Id, order: Order, itemsCount: nat)

  /** The product listing: each row of the base listing, in order, with
      the number of comments on it. */
  method ProductListing(s: Store, rows: seq<Id>) returns (listing: seq<ProductRow>)
    requires forall i :: 0 <= i < |rows| ==> rows[i] in s.products
    ensures |listing| == |rows|
    ensures forall i :: 0 <= i < |rows| ==>
      listing[i] == ProductRow(rows[i], s.products[rows[i]], |CommentsOf(s, rows[i])|)
  {
    listing := [];
    for j := 0 to |rows|
      invariant |listing| == j
      invariant forall i :: 0 <= i < j ==>
        listing[i] == ProductRow(rows[i], s.products[rows[i]], |CommentsOf(s, rows[i])|)
    {
      var related := (c: Comment) => c.product == rows[j];
      var count := CountRelated(s.comments, related);
      assert RelatedKeys(s.comments, s.comments.Keys, related) == CommentsOf(s, rows[j]);
      listing := listing + [ProductRow(rows[j], s.products[rows[j]], count)];
    }
  }

  /** The order listing: each row of the base listing, in order, with the
      number of items in it. */
  method OrderListing(s: Store, rows: seq<Id>) returns (listing: seq<OrderRow>)
    requires forall i :: 0 <= i < |rows| ==> rows[i] in s.orders
    ensures |listing| == |rows|
    ensures forall i :: 0 <= i < |rows| ==>
      listing[i] == OrderRow(rows[i], s.orders[rows[i]], |ItemsOf(s, rows[i])|)
  {
    listing := [];
    for j := 0 to |rows|
      invariant |listing| == j
      invariant forall i :: 0 <= i < j ==>
        listing[i] == OrderRow(rows[i], s.orders[rows[i]], |ItemsOf(s, rows[i])|)
    {
      var related := (it: OrderItem) => it.order == rows[j];
      var count := CountRelated(s.orderItems, related);
      assert RelatedKeys(s.orderItems, s.orderItems.Keys, related) == ItemsOf(s, rows[j]);
      listing := listing + [OrderRow(rows[j], s.orders[rows[j]], count)];
    }
  }

  /** A new comment raises its product's count by one and no other's. */
  lemma InsertCommentCounted(s: Store, product: Id, name: string, body: string, status: Option<char>, other: Id)
    requires KeysIssued(s)
    requires InsertComment(s, product, name, body, status).Ok?
    ensures var t := InsertComment(s, product, name, body, status).value.store;
      |CommentsOf(t, product)| == |CommentsOf(s, product)| + 1
    ensures var t := InsertComment(s, product, name, body, status).value.store;
      other != product ==> CommentsOf(t, other) == CommentsOf(s, other)
  {
    var ins := InsertComment(s, product, name, body, status).value;
    var c := ins.store.comments[ins.id];
    assert ins.store.comments == s.comments[ins.id := c];
    assert ins.id !in s.comments && c.product == product;
    assert CommentsOf(ins.store, product) == CommentsOf(s, product) + {ins.id};
    if other != product {
      assert CommentsOf(ins.store, other) == CommentsOf(s, other);
    }
  }

  /** A new order item raises its order's count by one and no other's. */
  lemma InsertOrderItemCounted(s: Store, it: OrderItem, other: Id)
    requires KeysIssued(s)
    requires InsertOrderItem(s, it).Ok?
    ensures var t := InsertOrderItem(s, it).value.store;
      |ItemsOf(t, it.order)| == |ItemsOf(s, it.order)| + 1
    ensures var t := InsertOrderItem(s, it).value.store;
      other != it.order ==> ItemsOf(t, other) == ItemsOf(s, other)
  {
    var ins := InsertOrderItem(s, it).value;
    assert ins.store.orderItems == s.orderItems[ins.id := it];
    assert ins.id !in s.orderItems;
    assert ItemsOf(ins.store, it.order) == ItemsOf(s, it.order) + {ins.id};
    if other != it.order {
      assert ItemsOf(ins.store, other) == ItemsOf(s, other);
    }
  }

  /** Once a product is deleted no comment counts against it. */
  lemma DeleteProductClearsComments(s: Store, id: Id)
    requires DeleteProduct(s, id).Ok?
    ensures CommentsOf(DeleteProduct(s, id).value, id) == {}
  {
  }
}
