/** Inserts and deletes on the store, one per table, enforcing what the
    schema declares: foreign keys must name existing rows, `unique_together`
    pairs may not repeat, positive-integer columns refuse negatives, status
    codes come from the declared choices (with their defaults), PROTECT
    blocks a delete while dependents exist and CASCADE removes them. Every
    operation preserves `Valid`, and a failed operation changes nothing. */
module Writes {
  import opened Optional
  import opened Schema

  /** A successful insert: the new store and the key the new row received. */
  datatype Inserted = Inserted(store: Store, id: Id)

  // ---------------------------------------------------------------------
  // Lookups the constraints need.

  predicate OrderItemPairTaken(s: Store, order: Id, product: Id)
  {
    exists i :: i in s.orderItems && s.orderItems[i].order == order && s.orderItems[i].product == product
  }

  predicate CartItemPairTaken(s: Store, cart: Id, product: Id)
  {
    exists i :: i in s.cartItems && s.cartItems[i].cart == cart && s.cartItems[i].product == product
  }

  /** The status a new order gets: the default when no code is given. */
  function OrderStatusOrDefault(code: Option<char>): (r: Option<OrderStatus>)
    ensures code.None? ==> r == Some(Unpaid)
    ensures code.Some? ==> r == ParseOrderStatus(code.value)
  {
    match code
    case None => ParseOrderStatus(DefaultOrderStatusCode)
    case Some(c) => ParseOrderStatus(c)
  }

  /** The status a new comment gets: the default when no code is given. */
  function CommentStatusOrDefault(code: Option<char>): (r: Option<CommentStatus>)
    ensures code.None? ==> r == Some(Pending)
    ensures code.Some? ==> r == ParseCommentStatus(code.value)
  {
    match code
    case None => ParseCommentStatus(DefaultCommentStatusCode)
    case Some(c) => ParseCommentStatus(c)
  }

  // ---------------------------------------------------------------------
  // Inserts. Auto-generated keys come from `next`.

  function InsertCategory(s: Store, c: Category): (r: Result<Inserted>)
    ensures r.Ok?
    ensures KeysIssued(s) ==> r.value.id !in s.categories
    ensures r.value.store.categories == s.categories[r.value.id := c]
    ensures r.value.store == s.(categories := r.value.store.categories, next := r.value.store.next)
    ensures Valid(s) ==> Valid(r.value.store)
  {
    Ok(Inserted(s.(categories := s.categories[s.next := c], next := s.next + 1), s.next))
  }

  function InsertDiscount(s: Store, d: Discount): (r: Result<Inserted>)
    ensures r.Ok?
    ensures KeysIssued(s) ==> r.value.id !in s.discounts
    ensures r.value.store.discounts == s.discounts[r.value.id := d]
    ensures r.value.store == s.(discounts := r.value.store.discounts, next := r.value.store.next)
    ensures Valid(s) ==> Valid(r.value.store)
  {
    Ok(Inserted(s.(discounts := s.discounts[s.next := d], next := s.next + 1), s.next))
  }

  function InsertProduct(s: Store, p: Product): (r: Result<Inserted>)
    ensures r.Err? <==> p.inventory < 0 || p.category !in s.categories || !(p.discounts <= s.discounts.Keys)
    ensures r.Err? ==> r.error == (if p.inventory < 0 then NegativeValue else MissingReference)
    ensures r.Ok? && KeysIssued(s) ==> r.value.id !in s.products
    ensures r.Ok? ==> r.value.store.products == s.products[r.value.id := p]
    ensures r.Ok? ==> r.value.store == s.(products := r.value.store.products, next := r.value.store.next)
    ensures Valid(s) && r.Ok? ==> Valid(r.value.store)
  {
    if p.inventory < 0 then Err(NegativeValue)
    else if p.category !in s.categories || !(p.discounts <= s.discounts.Keys) then Err(MissingReference)
    else Ok(Inserted(s.(products := s.products[s.next := p], next := s.next + 1), s.next))
  }

  function InsertCustomer(s: Store, c: Customer): (r: Result<Inserted>)
    ensures r.Ok?
    ensures KeysIssued(s) ==> r.value.id !in s.customers
    ensures r.value.store.customers == s.customers[r.value.id := c]
    ensures r.value.store == s.(customers := r.value.store.customers, next := r.value.store.next)
    ensures Valid(s) ==> Valid(r.value.store)
  {
    Ok(Inserted(s.(customers := s.customers[s.next := c], next := s.next + 1), s.next))
  }

  /** The address takes its customer's key, so a customer has at most one. */
  function InsertAddress(s: Store, customer: Id, a: Address): (r: Result<Inserted>)
    ensures r.Err? <==> customer !in s.customers || customer in s.addresses
    ensures r.Err? ==> r.error == (if customer !in s.customers then MissingReference else DuplicateKey)
    ensures r.Ok? ==> r.value.id == customer && r.value.store.addresses == s.addresses[customer := a]
    ensures r.Ok? ==> r.value.store == s.(addresses := r.value.store.addresses)
    ensures Valid(s) && r.Ok? ==> Valid(r.value.store)
  {
    if customer !in s.customers then Err(MissingReference)
    else if customer in s.addresses then Err(DuplicateKey)
    else Ok(Inserted(s.(addresses := s.addresses[customer := a]), customer))
  }

  /** `status` is the one-letter code; omitting it gives Unpaid ('u'). */
  function InsertOrder(s: Store, customer: Id, status: Option<char>): (r: Result<Inserted>)
    ensures r.Err? <==> OrderStatusOrDefault(status).None? || customer !in s.customers
    ensures r.Err? ==> r.error == (if OrderStatusOrDefault(status).None? then InvalidChoice else MissingReference)
    ensures r.Ok? && KeysIssued(s) ==> r.value.id !in s.orders
    ensures r.Ok? ==> r.value.id in r.value.store.orders
    ensures r.Ok? ==> r.value.store.orders[r.value.id].customer == customer
    ensures r.Ok? && status.None? ==> r.value.store.orders[r.value.id].status == Unpaid
    ensures r.Ok? && status.Some? ==> OrderStatusCode(r.value.store.orders[r.value.id].status) == status.value
    ensures r.Ok? ==> r.value.store.orders == s.orders[r.value.id := r.value.store.orders[r.value.id]]
    ensures r.Ok? ==> r.value.store == s.(orders := r.value.store.orders, next := r.value.store.next)
    ensures Valid(s) && r.Ok? ==> Valid(r.value.store)
  {
    match OrderStatusOrDefault(status)
    case None => Err(InvalidChoice)
    case Some(st) =>
      if customer !in s.customers then Err(MissingReference)
      else Ok(Inserted(s.(orders := s.orders[s.next := Order(customer, st)], next := s.next + 1), s.next))
  }

  function InsertOrderItem(s: Store, it: OrderItem): (r: Result<Inserted>)
    ensures r.Err? <==>
      || it.quantity < 0
      || it.order !in s.orders || it.product !in s.products
      || OrderItemPairTaken(s, it.order, it.product)
    ensures r.Err? && it.quantity < 0 ==> r.error == NegativeValue
    ensures r.Err? && it.quantity >= 0 && (it.order !in s.orders || it.product !in s.products) ==>
      r.error == MissingReference
    ensures r.Err? && it.quantity >= 0 && it.order in s.orders && it.product in s.products ==>
      r.error == DuplicatePair
    ensures r.Ok? && KeysIssued(s) ==> r.value.id !in s.orderItems
    ensures r.Ok? ==> r.value.store.orderItems == s.orderItems[r.value.id := it]
    ensures r.Ok? ==> r.value.store == s.(orderItems := r.value.store.orderItems, next := r.value.store.next)
    ensures Valid(s) && r.Ok? ==> Valid(r.value.store)
  {
    if it.quantity < 0 then Err(NegativeValue)
    else if it.order !in s.orders || it.product !in s.products then Err(MissingReference)
    else if OrderItemPairTaken(s, it.order, it.product) then Err(DuplicatePair)
    else Ok(Inserted(s.(orderItems := s.orderItems[s.next := it], next := s.next + 1), s.next))
  }

  function InsertCart(s: Store): (r: Result<Inserted>)
    ensures r.Ok?
    ensures KeysIssued(s) ==> r.value.id !in s.carts
    ensures r.value.store.carts == s.carts[r.value.id := Cart]
    ensures r.value.store == s.(carts := r.value.store.carts, next := r.value.store.next)
    ensures Valid(s) ==> Valid(r.value.store)
  {
    Ok(Inserted(s.(carts := s.carts[s.next := Cart], next := s.next + 1), s.next))
  }

  function InsertCartItem(s: Store, it: CartItem): (r: Result<Inserted>)
    ensures r.Err? <==>
      || it.quantity < 0
      || it.cart !in s.carts || it.product !in s.products
      || CartItemPairTaken(s, it.cart, it.product)
    ensures r.Err? && it.quantity < 0 ==> r.error == NegativeValue
    ensures r.Err? && it.quantity >= 0 && (it.cart !in s.carts || it.product !in s.products) ==>
      r.error == MissingReference
    ensures r.Err? && it.quantity >= 0 && it.cart in s.carts && it.product in s.products ==>
      r.error == DuplicatePair
    ensures r.Ok? && KeysIssued(s) ==> r.value.id !in s.cartItems
    ensures r.Ok? ==> r.value.store.cartItems == s.cartItems[r.value.id := it]
    ensures r.Ok? ==> r.value.store == s.(cartItems := r.value.store.cartItems, next := r.value.store.next)
    ensures Valid(s) && r.Ok? ==> Valid(r.value.store)
  {
    if it.quantity < 0 then Err(NegativeValue)
    else if it.cart !in s.carts || it.product !in s.products then Err(MissingReference)
    else if CartItemPairTaken(s, it.cart, it.product) then Err(DuplicatePair)
    else Ok(Inserted(s.(cartItems := s.cartItems[s.next := it], next := s.next + 1), s.next))
  }

  /** `status` is the one-letter code; omitting it gives Pending ('p'). */
  function InsertComment(s: Store, product: Id, name: string, body: string, status: Option<char>): (r: Result<Inserted>)
    ensures r.Err? <==> CommentStatusOrDefault(status).None? || product !in s.products
    ensures r.Err? ==> r.error == (if CommentStatusOrDefault(status).None? then InvalidChoice else MissingReference)
    ensures r.Ok? && KeysIssued(s) ==> r.value.id !in s.comments
    ensures r.Ok? ==> r.value.id in r.value.store.comments
    ensures r.Ok? ==> var c := r.value.store.comments[r.value.id];
      c.product == product && c.name == name && c.body == body
    ensures r.Ok? && status.None? ==> r.value.store.comments[r.value.id].status == Pending
    ensures r.Ok? && status.Some? ==> CommentStatusCode(r.value.store.comments[r.value.id].status) == status.value
    ensures r.Ok? ==> r.value.store.comments == s.comments[r.value.id := r.value.store.comments[r.value.id]]
    ensures r.Ok? ==> r.value.store == s.(comments := r.value.store.comments, next := r.value.store.next)
    ensures Valid(s) && r.Ok? ==> Valid(r.value.store)
  {
    match CommentStatusOrDefault(status)
    case None => Err(InvalidChoice)
    case Some(st) =>
      if product !in s.products then Err(MissingReference)
      else Ok(Inserted(s.(comments := s.comments[s.next := Comment(product, name, body, st)], next := s.next + 1), s.next))
  }

  // ---------------------------------------------------------------------
  // Deletes. A key with no row deletes nothing and succeeds.

  /** PROTECT from Product.category. */
  function DeleteCategory(s: Store, id: Id): (r: Result<Store>)
    ensures r.Err? <==> exists p :: p in s.products && s.products[p].category == id
    ensures r.Err? ==> r.error == Protected
    ensures r.Ok? ==> r.value == s.(categories := s.categories - {id})
    ensures Valid(s) && r.Ok? ==> Valid(r.value)
  {
    if exists p :: p in s.products && s.products[p].category == id then Err(Protected)
    else Ok(s.(categories := s.categories - {id}))
  }

  /** The many-to-many link rows go with the discount. */
  function DeleteDiscount(s: Store, id: Id): (r: Result<Store>)
    ensures r.Ok?
    ensures r.value.discounts == s.discounts - {id}
    ensures r.value.products.Keys == s.products.Keys
    ensures forall p :: p in s.products ==>
      r.value.products[p] == s.products[p].(discounts := s.products[p].discounts - {id})
    ensures r.value == s.(discounts := r.value.discounts, products := r.value.products)
    ensures Valid(s) ==> Valid(r.value)
  {
    var t := s.(discounts := s.discounts - {id},
                products := map p | p in s.products :: s.products[p].(discounts := s.products[p].discounts - {id}));
    DiscountRemovalKeepsValid(s, id, t);
    Ok(t)
  }

  lemma DiscountRemovalKeepsValid(s: Store, id: Id, t: Store)
    requires t == s.(discounts := s.discounts - {id},
                     products := map p | p in s.products :: s.products[p].(discounts := s.products[p].discounts - {id}))
    ensures Valid(s) ==> Valid(t)
  {
    if Valid(s) {
      assert ReferencesResolve(t) by {
        forall p | p in t.products
          ensures t.products[p].category in t.categories && t.products[p].discounts <= t.discounts.Keys
        {
          assert t.products[p].discounts == s.products[p].discounts - {id};
        }
      }
      assert CountsNonNegative(t);
      assert KeysIssued(t);
    }
  }

  /** PROTECT from OrderItem.product; CASCADE to the product's cart items
      and comments. */
  function DeleteProduct(s: Store, id: Id): (r: Result<Store>)
    ensures r.Err? <==> exists i :: i in s.orderItems && s.orderItems[i].product == id
    ensures r.Err? ==> r.error == Protected
    ensures r.Ok? ==> r.value.products == s.products - {id}
    ensures r.Ok? ==> forall c :: c in r.value.cartItems <==> c in s.cartItems && s.cartItems[c].product != id
    ensures r.Ok? ==> forall c :: c in r.value.comments <==> c in s.comments && s.comments[c].product != id
    ensures r.Ok? ==> forall c :: c in r.value.cartItems ==> r.value.cartItems[c] == s.cartItems[c]
    ensures r.Ok? ==> forall c :: c in r.value.comments ==> r.value.comments[c] == s.comments[c]
    ensures r.Ok? ==> r.value == s.(products := r.value.products, cartItems := r.value.cartItems, comments := r.value.comments)
    ensures Valid(s) && r.Ok? ==> Valid(r.value)
  {
    if exists i :: i in s.orderItems && s.orderItems[i].product == id then Err(Protected)
    else
      var t := s.(products := s.products - {id},
                  cartItems := RemoveWhere(s.cartItems, (c: CartItem) => c.product == id),
                  comments := RemoveWhere(s.comments, (c: Comment) => c.product == id));
      ProductRemovalKeepsValid(s, id, t);
      Ok(t)
  }

  lemma ProductRemovalKeepsValid(s: Store, id: Id, t: Store)
    requires !exists i :: i in s.orderItems && s.orderItems[i].product == id
    requires t == s.(products := s.products - {id},
                     cartItems := RemoveWhere(s.cartItems, (c: CartItem) => c.product == id),
                     comments := RemoveWhere(s.comments, (c: Comment) => c.product == id))
    ensures Valid(s) ==> Valid(t)
  {
    if Valid(s) {
      ProductRemovalResolves(s, id, t);
      ProductRemovalKeepsPairs(s, id, t);
    }
  }

  lemma ProductRemovalResolves(s: Store, id: Id, t: Store)
    requires ReferencesResolve(s)
    requires !exists i :: i in s.orderItems && s.orderItems[i].product == id
    requires t == s.(products := s.products - {id},
                     cartItems := RemoveWhere(s.cartItems, (c: CartItem) => c.product == id),
                     comments := RemoveWhere(s.comments, (c: Comment) => c.product == id))
    ensures ReferencesResolve(t)
  {
    assert forall i :: i in t.orderItems ==> t.orderItems[i].product in t.products;
  }

  lemma ProductRemovalKeepsPairs(s: Store, id: Id, t: Store)
    requires PairsUnique(s) && CountsNonNegative(s) && KeysIssued(s)
    requires t == s.(products := s.products - {id},
                     cartItems := RemoveWhere(s.cartItems, (c: CartItem) => c.product == id),
                     comments := RemoveWhere(s.comments, (c: Comment) => c.product == id))
    ensures PairsUnique(t) && CountsNonNegative(t) && KeysIssued(t)
  {
  }

  /** PROTECT from Order.customer; CASCADE to the customer's address. */
  function DeleteCustomer(s: Store, id: Id): (r: Result<Store>)
    ensures r.Err? <==> exists o :: o in s.orders && s.orders[o].customer == id
    ensures r.Err? ==> r.error == Protected
    ensures r.Ok? ==> r.value.customers == s.customers - {id}
    ensures r.Ok? ==> id !in r.value.addresses && r.value.addresses == s.addresses - {id}
    ensures r.Ok? ==> r.value == s.(customers := r.value.customers, addresses := r.value.addresses)
    ensures Valid(s) && r.Ok? ==> Valid(r.value)
  {
    if exists o :: o in s.orders && s.orders[o].customer == id then Err(Protected)
    else Ok(s.(customers := s.customers - {id}, addresses := s.addresses - {id}))
  }

  function DeleteAddress(s: Store, customer: Id): (r: Result<Store>)
    ensures r.Ok? && r.value == s.(addresses := s.addresses - {customer})
    ensures Valid(s) ==> Valid(r.value)
  {
    Ok(s.(addresses := s.addresses - {customer}))
  }

  /** PROTECT from OrderItem.order. */
  function DeleteOrder(s: Store, id: Id): (r: Result<Store>)
    ensures r.Err? <==> exists i :: i in s.orderItems && s.orderItems[i].order == id
    ensures r.Err? ==> r.error == Protected
    ensures r.Ok? ==> r.value == s.(orders := s.orders - {id})
    ensures Valid(s) && r.Ok? ==> Valid(r.value)
  {
    if exists i :: i in s.orderItems && s.orderItems[i].order == id then Err(Protected)
    else Ok(s.(orders := s.orders - {id}))
  }

  function DeleteOrderItem(s: Store, id: Id): (r: Result<Store>)
    ensures r.Ok? && r.value == s.(orderItems := s.orderItems - {id})
    ensures Valid(s) ==> Valid(r.value)
  {
    Ok(s.(orderItems := s.orderItems - {id}))
  }

  /** CASCADE to the cart's items. */
  function DeleteCart(s: Store, id: Id): (r: Result<Store>)
    ensures r.Ok?
    ensures r.value.carts == s.carts - {id}
    ensures forall c :: c in r.value.cartItems <==> c in s.cartItems && s.cartItems[c].cart != id
    ensures forall c :: c in r.value.cartItems ==> r.value.cartItems[c] == s.cartItems[c]
    ensures r.value == s.(carts := r.value.carts, cartItems := r.value.cartItems)
    ensures Valid(s) ==> Valid(r.value)
  {
    Ok(s.(carts := s.carts - {id}, cartItems := RemoveWhere(s.cartItems, (c: CartItem) => c.cart == id)))
  }

  function DeleteCartItem(s: Store, id: Id): (r: Result<Store>)
    ensures r.Ok? && r.value == s.(cartItems := s.cartItems - {id})
    ensures Valid(s) ==> Valid(r.value)
  {
    Ok(s.(cartItems := s.cartItems - {id}))
  }

  function DeleteComment(s: Store, id: Id): (r: Result<Store>)
    ensures r.Ok? && r.value == s.(comments := s.comments - {id})
    ensures Valid(s) ==> Valid(r.value)
  {
    Ok(s.(comments := s.comments - {id}))
  }
}
