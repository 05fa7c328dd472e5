/** The store's relational schema: one record per table, the closed status
    choice sets with their one-letter codes, the in-memory store of all
    tables, and the integrity invariant the declared constraints promise. */
module Schema {
  import opened Optional

  /** Primary keys are auto-generated non-negative integers. */
  type Id = nat

  datatype Category = Category(title: string, description: string)

  /** The float `discount` amount is not modelled; only its description is. */
  datatype Discount = Discount(description: string)

  /** `price` is a fixed-point amount held as an integer number of cents;
      `discounts` is the many-to-many link to Discount rows. */
  datatype Product = Product(
    name: string,
    category: Id,
    slug: string,
    description: string,
    price: int,
    inventory: int,
    discounts: set<Id>)

  datatype Customer = Customer(firstName: string, lastName: string, email: string, phoneNumber: string)

  /** An address has no key of its own: its primary key is its customer's. */
  datatype Address = Address(province: string, city: string, street: string)

  datatype OrderStatus = Paid | Unpaid | Cancelled

  datatype Order = Order(customer: Id, status: OrderStatus)

  datatype OrderItem = OrderItem(order: Id, product: Id, quantity: int, price: int)

  /** A cart carries nothing but its creation time, which is not modelled. */
  datatype Cart = Cart

  datatype CartItem = CartItem(cart: Id, product: Id, quantity: int)

  datatype CommentStatus = Approved | Pending | Rejected

  datatype Comment = Comment(product: Id, name: string, body: string, status: CommentStatus)

  // ---------------------------------------------------------------------
  // Status choices: code stored in the one-character column, and label.

  const OrderStatusChoices: seq<(char, string)> :=
    [('p', "Paid"), ('u', "Unpaid"), ('c', "Cancelled")]

  const DefaultOrderStatusCode: char := 'u'

  const CommentStatusChoices: seq<(char, string)> :=
    [('a', "Approved"), ('p', "Pending"), ('r', "Rejected")]

  const DefaultCommentStatusCode: char := 'p'

  function OrderStatusCode(st: OrderStatus): (c: char)
    ensures exists i :: 0 <= i < |OrderStatusChoices| && OrderStatusChoices[i].0 == c
  {
    match st
    case Paid => assert OrderStatusChoices[0].0 == 'p'; 'p'
    case Unpaid => assert OrderStatusChoices[1].0 == 'u'; 'u'
    case Cancelled => assert OrderStatusChoices[2].0 == 'c'; 'c'
  }

  /** Reads a stored code back; codes outside the declared choices do not parse. */
  function ParseOrderStatus(c: char): (r: Option<OrderStatus>)
    ensures r.Some? <==> exists i :: 0 <= i < |OrderStatusChoices| && OrderStatusChoices[i].0 == c
    ensures r.Some? ==> OrderStatusCode(r.value) == c
  {
    if c == 'p' then assert OrderStatusChoices[0].0 == c; Some(Paid)
    else if c == 'u' then assert OrderStatusChoices[1].0 == c; Some(Unpaid)
    else if c == 'c' then assert OrderStatusChoices[2].0 == c; Some(Cancelled)
    else None
  }

  function CommentStatusCode(st: CommentStatus): (c: char)
    ensures exists i :: 0 <= i < |CommentStatusChoices| && CommentStatusChoices[i].0 == c
  {
    match st
    case Approved => assert CommentStatusChoices[0].0 == 'a'; 'a'
    case Pending => assert CommentStatusChoices[1].0 == 'p'; 'p'
    case Rejected => assert CommentStatusChoices[2].0 == 'r'; 'r'
  }

  function ParseCommentStatus(c: char): (r: Option<CommentStatus>)
    ensures r.Some? <==> exists i :: 0 <= i < |CommentStatusChoices| && CommentStatusChoices[i].0 == c
    ensures r.Some? ==> CommentStatusCode(r.value) == c
  {
    if c == 'a' then assert CommentStatusChoices[0].0 == c; Some(Approved)
    else if c == 'p' then assert CommentStatusChoices[1].0 == c; Some(Pending)
    else if c == 'r' then assert CommentStatusChoices[2].0 == c; Some(Rejected)
    else None
  }

  /** Every order status reads back from its own code, and only the three
      declared codes read as a status, so the codes and the statuses match
      one to one; an omitted status is Unpaid. */
  lemma OrderStatusCodes(st: OrderStatus, c: char)
    ensures ParseOrderStatus(OrderStatusCode(st)) == Some(st)
    ensures ParseOrderStatus(c).Some? <==> c in {'p', 'u', 'c'}
    ensures ParseOrderStatus(DefaultOrderStatusCode) == Some(Unpaid)
  {
  }

  /** The same for comments, whose omitted status is Pending. */
  lemma CommentStatusCodes(st: CommentStatus, c: char)
    ensures ParseCommentStatus(CommentStatusCode(st)) == Some(st)
    ensures ParseCommentStatus(c).Some? <==> c in {'a', 'p', 'r'}
    ensures ParseCommentStatus(DefaultCommentStatusCode) == Some(Pending)
  {
  }

  // ---------------------------------------------------------------------
  // The store and its invariant.

  /** All tables, keyed by primary key. `addresses` is keyed by customer id.
      `next` is the key the next auto-generated row receives. */
  datatype Store = Store(
    categories: map<Id, Category>,
    discounts: map<Id, Discount>,
    products: map<Id, Product>,
    customers: map<Id, Customer>,
    addresses: map<Id, Address>,
    orders: map<Id, Order>,
    orderItems: map<Id, OrderItem>,
    carts: map<Id, Cart>,
    cartItems: map<Id, CartItem>,
    comments: map<Id, Comment>,
    next: Id)

  const EmptyStore: Store := Store(map[], map[], map[], map[], map[], map[], map[], map[], map[], map[], 0)

  /** Every foreign key names an existing row. */
  ghost predicate ReferencesResolve(s: Store)
  {
    && (forall id :: id in s.products ==>
          s.products[id].category in s.categories && s.products[id].discounts <= s.discounts.Keys)
    && (forall id :: id in s.addresses ==> id in s.customers)
    && (forall id :: id in s.orders ==> s.orders[id].customer in s.customers)
    && (forall id :: id in s.orderItems ==>
          s.orderItems[id].order in s.orders && s.orderItems[id].product in s.products)
    && (forall id :: id in s.cartItems ==>
          s.cartItems[id].cart in s.carts && s.cartItems[id].product in s.products)
    && (forall id :: id in s.comments ==> s.comments[id].product in s.products)
  }

  /** The `unique_together` pairs: (order, product) and (cart, product). */
  ghost predicate PairsUnique(s: Store)
  {
    && (forall i, j :: i in s.orderItems && j in s.orderItems && i != j ==>
          s.orderItems[i].order != s.orderItems[j].order || s.orderItems[i].product != s.orderItems[j].product)
    && (forall i, j :: i in s.cartItems && j in s.cartItems && i != j ==>
          s.cartItems[i].cart != s.cartItems[j].cart || s.cartItems[i].product != s.cartItems[j].product)
  }

  /** The positive-integer columns: inventory and both item quantities. */
  ghost predicate CountsNonNegative(s: Store)
  {
    && (forall id :: id in s.products ==> s.products[id].inventory >= 0)
    && (forall id :: id in s.orderItems ==> s.orderItems[id].quantity >= 0)
    && (forall id :: id in s.cartItems ==> s.cartItems[id].quantity >= 0)
  }

  /** Auto-generated keys already handed out are all below `next`. */
  ghost predicate KeysIssued(s: Store)
  {
    && (forall id :: id in s.categories ==> id < s.next)
    && (forall id :: id in s.discounts ==> id < s.next)
    && (forall id :: id in s.products ==> id < s.next)
    && (forall id :: id in s.customers ==> id < s.next)
    && (forall id :: id in s.orders ==> id < s.next)
    && (forall id :: id in s.orderItems ==> id < s.next)
    && (forall id :: id in s.carts ==> id < s.next)
    && (forall id :: id in s.cartItems ==> id < s.next)
    && (forall id :: id in s.comments ==> id < s.next)
  }

  ghost predicate Valid(s: Store)
  {
    ReferencesResolve(s) && PairsUnique(s) && CountsNonNegative(s) && KeysIssued(s)
  }

  // ---------------------------------------------------------------------
  // Failures the storage layer and model validation raise.

  datatype Error =
    | MissingReference   // a foreign key names no row
    | DuplicatePair      // a unique_together pair is taken
    | DuplicateKey       // the primary key is taken
    | NegativeValue      // a positive-integer column receives a negative value
    | InvalidChoice      // a status code outside the declared choices
    | Protected          // a PROTECT reference blocks the delete

  datatype Result<+T> = Ok(value: T) | Err(error: Error)

  /** The rows of `m` that `drop` does not select: the survivors of a cascade. */
  function RemoveWhere<T>(m: map<Id, T>, drop: T -> bool): (r: map<Id, T>)
    ensures forall k :: k in r <==> k in m && !drop(m[k])
    ensures forall k :: k in r ==> r[k] == m[k]
  {
    map k | k in m && !drop(m[k]) :: m[k]
  }

  /** A cascade that selects nothing removes nothing. */
  lemma RemoveWhereNothing<T>(m: map<Id, T>, drop: T -> bool)
    requires forall k :: k in m ==> !drop(m[k])
    ensures RemoveWhere(m, drop) == m
  {
    assert RemoveWhere(m, drop).Keys == m.Keys;
  }
}
