/** The store as a state machine: a run is a sequence of inserts and
    deletes, each applied in turn, a failed one leaving the store as it was.
    Referential integrity and the other declared constraints hold in every
    reachable store, and each delete undoes the insert it follows. */
module Lifecycle {
  import opened Optional
  import opened Schema
  import opened Writes

  datatype Op =
    | AddCategory(category: Category)
    | AddDiscount(discount: Discount)
    | AddProduct(product: Product)
    | AddCustomer(customer: Customer)
    | AddAddress(owner: Id, address: Address)
    | AddOrder(buyer: Id, orderStatus: Option<char>)
    | AddOrderItem(orderItem: OrderItem)
    | AddCart
    | AddCartItem(cartItem: CartItem)
    | AddComment(onProduct: Id, name: string, body: string, commentStatus: Option<char>)
    | RemoveCategory(id: Id)
    | RemoveDiscount(id: Id)
    | RemoveProduct(id: Id)
    | RemoveCustomer(id: Id)
    | RemoveAddress(id: Id)
    | RemoveOrder(id: Id)
    | RemoveOrderItem(id: Id)
    | RemoveCart(id: Id)
    | RemoveCartItem(id: Id)
    | RemoveComment(id: Id)

  function StoreOf(r: Result<Inserted>): Result<Store>
  {
    match r
    case Ok(ins) => Ok(ins.store)
    case Err(e) => Err(e)
  }

  function Apply(s: Store, op: Op): (r: Result<Store>)
    ensures Valid(s) && r.Ok? ==> Valid(r.value)
  {
    match op
    case AddCategory(c) => StoreOf(InsertCategory(s, c))
    case AddDiscount(d) => StoreOf(InsertDiscount(s, d))
    case AddProduct(p) => StoreOf(InsertProduct(s, p))
    case AddCustomer(c) => StoreOf(InsertCustomer(s, c))
    case AddAddress(owner, a) => StoreOf(InsertAddress(s, owner, a))
    case AddOrder(buyer, st) => StoreOf(InsertOrder(s, buyer, st))
    case AddOrderItem(it) => StoreOf(InsertOrderItem(s, it))
    case AddCart => StoreOf(InsertCart(s))
    case AddCartItem(it) => StoreOf(InsertCartItem(s, it))
    case AddComment(p, name, body, st) => StoreOf(InsertComment(s, p, name, body, st))
    case RemoveCategory(id) => DeleteCategory(s, id)
    case RemoveDiscount(id) => DeleteDiscount(s, id)
    case RemoveProduct(id) => DeleteProduct(s, id)
    case RemoveCustomer(id) => DeleteCustomer(s, id)
    case RemoveAddress(id) => DeleteAddress(s, id)
    case RemoveOrder(id) => DeleteOrder(s, id)
    case RemoveOrderItem(id) => DeleteOrderItem(s, id)
    case RemoveCart(id) => DeleteCart(s, id)
    case RemoveCartItem(id) => DeleteCartItem(s, id)
    case RemoveComment(id) => DeleteComment(s, id)
  }

  /** Applies `ops` in order; a failed operation is rolled back and the run
      goes on from the store it left untouched. */
  function Run(s: Store, ops: seq<Op>): (t: Store)
    ensures Valid(s) ==> Valid(t)
    decreases |ops|
  {
    if ops == [] then s
    else
      match Apply(s, ops[0])
      case Ok(s') => Run(s', ops[1..])
      case Err(_) => Run(s, ops[1..])
  }

  /** Every store reachable from the empty one keeps every declared constraint. */
  lemma ReachableStoresValid(ops: seq<Op>)
    ensures Valid(Run(EmptyStore, ops))
  {
    assert Valid(EmptyStore);
  }

  // ---------------------------------------------------------------------
  // PROTECT and unique_together, stated over whole stores.

  /** An order item blocks the delete of both its order and its product. */
  lemma OrderItemProtects(s: Store, i: Id)
    requires i in s.orderItems
    ensures DeleteOrder(s, s.orderItems[i].order) == Err(Protected)
    ensures DeleteProduct(s, s.orderItems[i].product) == Err(Protected)
  {
  }

  /** A product blocks the delete of its category; an order that of its customer. */
  lemma ReferencingRowsProtect(s: Store, p: Id, o: Id)
    requires p in s.products && o in s.orders
    ensures DeleteCategory(s, s.products[p].category) == Err(Protected)
    ensures DeleteCustomer(s, s.orders[o].customer) == Err(Protected)
  {
  }

  /** The same (order, product) pair cannot be inserted twice. */
  lemma OrderItemPairOnce(s: Store, it: OrderItem)
    requires InsertOrderItem(s, it).Ok?
    ensures InsertOrderItem(InsertOrderItem(s, it).value.store, it) == Err(DuplicatePair)
  {
    var ins := InsertOrderItem(s, it).value;
    assert ins.store.orderItems[ins.id] == it;
  }

  /** The same (cart, product) pair cannot be inserted twice. */
  lemma CartItemPairOnce(s: Store, it: CartItem)
    requires InsertCartItem(s, it).Ok?
    ensures InsertCartItem(InsertCartItem(s, it).value.store, it) == Err(DuplicatePair)
  {
    var ins := InsertCartItem(s, it).value;
    assert ins.store.cartItems[ins.id] == it;
  }

  // ---------------------------------------------------------------------
  // A fresh row has no dependents, so deleting it restores the store
  // (apart from the key counter, which never goes back).

  lemma InsertThenDeleteCategory(s: Store, c: Category)
    requires Valid(s)
    ensures var ins := InsertCategory(s, c).value;
      DeleteCategory(ins.store, ins.id) == Ok(s.(next := ins.store.next))
  {
    var ins := InsertCategory(s, c).value;
    assert ins.store.categories - {ins.id} == s.categories;
  }

  lemma InsertThenDeleteDiscount(s: Store, d: Discount)
    requires Valid(s)
    ensures var ins := InsertDiscount(s, d).value;
      DeleteDiscount(ins.store, ins.id) == Ok(s.(next := ins.store.next))
  {
    var ins := InsertDiscount(s, d).value;
    var t := DeleteDiscount(ins.store, ins.id).value;
    assert ins.store.discounts - {ins.id} == s.discounts;
    forall p | p in s.products
      ensures t.products[p] == s.products[p]
    {
      assert ins.id !in s.products[p].discounts;
      assert s.products[p].discounts - {ins.id} == s.products[p].discounts;
    }
    assert t.products == s.products;
  }

  lemma InsertThenDeleteProduct(s: Store, p: Product)
    requires Valid(s)
    requires InsertProduct(s, p).Ok?
    ensures var ins := InsertProduct(s, p).value;
      DeleteProduct(ins.store, ins.id) == Ok(s.(next := ins.store.next))
  {
    var ins := InsertProduct(s, p).value;
    var id := ins.id;
    assert ins.store.products - {id} == s.products;
    assert !exists i :: i in ins.store.orderItems && ins.store.orderItems[i].product == id;
    RemoveWhereNothing(s.cartItems, (c: CartItem) => c.product == id);
    RemoveWhereNothing(s.comments, (c: Comment) => c.product == id);
  }

  lemma InsertThenDeleteCustomer(s: Store, c: Customer)
    requires Valid(s)
    ensures var ins := InsertCustomer(s, c).value;
      DeleteCustomer(ins.store, ins.id) == Ok(s.(next := ins.store.next))
  {
    var ins := InsertCustomer(s, c).value;
    assert !exists o :: o in ins.store.orders && ins.store.orders[o].customer == ins.id;
    assert ins.store.customers - {ins.id} == s.customers;
    assert s.addresses - {ins.id} == s.addresses;
  }

  lemma InsertThenDeleteAddress(s: Store, customer: Id, a: Address)
    requires InsertAddress(s, customer, a).Ok?
    ensures var ins := InsertAddress(s, customer, a).value;
      DeleteAddress(ins.store, ins.id) == Ok(s)
  {
    var ins := InsertAddress(s, customer, a).value;
    assert ins.store.addresses - {customer} == s.addresses;
  }

  lemma InsertThenDeleteOrder(s: Store, customer: Id, status: Option<char>)
    requires Valid(s)
    requires InsertOrder(s, customer, status).Ok?
    ensures var ins := InsertOrder(s, customer, status).value;
      DeleteOrder(ins.store, ins.id) == Ok(s.(next := ins.store.next))
  {
    var ins := InsertOrder(s, customer, status).value;
    assert !exists i :: i in ins.store.orderItems && ins.store.orderItems[i].order == ins.id;
    assert ins.store.orders - {ins.id} == s.orders;
  }

  lemma InsertThenDeleteOrderItem(s: Store, it: OrderItem)
    requires Valid(s)
    requires InsertOrderItem(s, it).Ok?
    ensures var ins := InsertOrderItem(s, it).value;
      DeleteOrderItem(ins.store, ins.id) == Ok(s.(next := ins.store.next))
  {
    var ins := InsertOrderItem(s, it).value;
    assert ins.store.orderItems - {ins.id} == s.orderItems;
  }

  lemma InsertThenDeleteCart(s: Store)
    requires Valid(s)
    ensures var ins := InsertCart(s).value;
      DeleteCart(ins.store, ins.id) == Ok(s.(next := ins.store.next))
  {
    var ins := InsertCart(s).value;
    var id := ins.id;
    assert ins.store.carts - {id} == s.carts;
    RemoveWhereNothing(s.cartItems, (c: CartItem) => c.cart == id);
  }

  lemma InsertThenDeleteCartItem(s: Store, it: CartItem)
    requires Valid(s)
    requires InsertCartItem(s, it).Ok?
    ensures var ins := InsertCartItem(s, it).value;
      DeleteCartItem(ins.store, ins.id) == Ok(s.(next := ins.store.next))
  {
    var ins := InsertCartItem(s, it).value;
    assert ins.store.cartItems - {ins.id} == s.cartItems;
  }

  lemma InsertThenDeleteComment(s: Store, product: Id, name: string, body: string, status: Option<char>)
    requires Valid(s)
    requires InsertComment(s, product, name, body, status).Ok?
    ensures var ins := InsertComment(s, product, name, body, status).value;
      DeleteComment(ins.store, ins.id) == Ok(s.(next := ins.store.next))
  {
    var ins := InsertComment(s, product, name, body, status).value;
    assert ins.store.comments - {ins.id} == s.comments;
  }
}
