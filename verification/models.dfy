/** The tables of the order backend as an in-memory relational store: one map
    from id to row per table, and one id sequence per table (categories take
    their ids from the partner feed and have none).  `Valid` collects the
    guarantees the database schema gives: fresh ids, the foreign keys, the
    unique constraints and the one-to-one shop owner, plus the model-level
    rule that each user has at most one basket. */
module Models {
  import opened Common

  datatype UserType = ShopUser | Buyer

  /** The actor of a request: anonymous, or a logged-in user with a type. */
  datatype Principal = Anonymous | Member(id: nat, kind: UserType)

  /** The seven order states of STATE_CHOICES. */
  datatype OrderState = Basket | New | Confirmed | Assembled | Sent | Delivered | Canceled

  /** The value stored in the `state` column for each state. */
  function StateName(st: OrderState): string {
    match st
    case Basket => "basket"
    case New => "new"
    case Confirmed => "confirmed"
    case Assembled => "assembled"
    case Sent => "sent"
    case Delivered => "delivered"
    case Canceled => "canceled"
  }

  /** Reads a `state` column value back; anything outside STATE_CHOICES is
      rejected. */
  function ParseState(name: string): (r: Option<OrderState>)
    ensures r.Some? ==> StateName(r.value) == name
    ensures forall st: OrderState :: name == StateName(st) ==> r == Some(st)
  {
    if name == "basket" then Some(Basket)
    else if name == "new" then Some(New)
    else if name == "confirmed" then Some(Confirmed)
    else if name == "assembled" then Some(Assembled)
    else if name == "sent" then Some(Sent)
    else if name == "delivered" then Some(Delivered)
    else if name == "canceled" then Some(Canceled)
    else None
  }

  datatype User = User(email: string, isStaff: bool, isSuperuser: bool, isActive: bool, kind: UserType)

  /** `url` is never written by the import; `accepting` is the `state` flag
      (the shop accepts orders). */
  datatype Shop = Shop(name: string, url: Option<string>, user: Option<nat>, accepting: bool)

  datatype Category = Category(name: string, shops: set<nat>)

  datatype Product = Product(name: string, category: int)

  /** A shop's listing of a product. */
  datatype ProductInfo = ProductInfo(
    model: string, externalId: nat, product: nat, shop: nat,
    quantity: nat, price: nat, priceRrc: nat)

  datatype Parameter = Parameter(name: string)

  datatype ProductParameter = ProductParameter(productInfo: nat, parameter: nat, value: string)

  datatype Order = Order(user: nat, created: int, state: OrderState, contact: Option<nat>)

  datatype OrderItem = OrderItem(order: nat, productInfo: nat, quantity: nat)

  datatype Contact = Contact(
    user: nat, city: string, street: string, house: string,
    building: string, apartment: string, phone: string)

  /** The next id each table's sequence hands out. */
  datatype Counters = Counters(
    user: nat, shop: nat, product: nat, info: nat, parameter: nat,
    productParameter: nat, order: nat, item: nat, contact: nat)

  datatype Store = Store(
    users: map<nat, User>,
    shops: map<nat, Shop>,
    categories: map<int, Category>,
    products: map<nat, Product>,
    infos: map<nat, ProductInfo>,
    parameters: map<nat, Parameter>,
    productParameters: map<nat, ProductParameter>,
    orders: map<nat, Order>,
    items: map<nat, OrderItem>,
    contacts: map<nat, Contact>,
    next: Counters)

  /** The notification a view publishes after its write. */
  datatype Event = NewOrderPlaced(user: nat)

  /** The store after a view, its reply, and the notifications it sent. */
  datatype Handled = Handled(store: Store, reply: Reply, events: seq<Event>)

  /** The store after a run of writes, and the exception that stopped the run,
      if any; the writes made before the exception stay. */
  datatype Step = Step(store: Store, fault: Option<Fault>)

  /** The result of a get-or-create: the store and the row's id, or the
      exception it raised. */
  datatype Got = Got(store: Store, id: nat) | Failed(fault: Fault)

  /** Every id in use is below the sequence value `n`. */
  predicate Below<V>(m: map<nat, V>, n: nat) {
    forall k :: k in m ==> k < n
  }

  /** Every id in use is below its table's sequence. */
  predicate Fresh(s: Store) {
    && Below(s.users, s.next.user)
    && Below(s.shops, s.next.shop)
    && Below(s.products, s.next.product)
    && Below(s.infos, s.next.info)
    && Below(s.parameters, s.next.parameter)
    && Below(s.productParameters, s.next.productParameter)
    && Below(s.orders, s.next.order)
    && Below(s.items, s.next.item)
    && Below(s.contacts, s.next.contact)
  }

  predicate CategoriesLinked(categories: map<int, Category>, shops: map<nat, Shop>) {
    forall k :: k in categories ==> categories[k].shops <= shops.Keys
  }

  predicate ProductsLinked(products: map<nat, Product>, categories: map<int, Category>) {
    forall k :: k in products ==> products[k].category in categories
  }

  predicate InfosLinked(infos: map<nat, ProductInfo>, products: map<nat, Product>, shops: map<nat, Shop>) {
    forall k :: k in infos ==> infos[k].product in products && infos[k].shop in shops
  }

  predicate ParameterRowsLinked(pps: map<nat, ProductParameter>, infos: map<nat, ProductInfo>, parameters: map<nat, Parameter>) {
    forall k :: k in pps ==> pps[k].productInfo in infos && pps[k].parameter in parameters
  }

  predicate OrdersLinked(orders: map<nat, Order>, contacts: map<nat, Contact>) {
    forall k :: k in orders && orders[k].contact.Some? ==> orders[k].contact.value in contacts
  }

  predicate LinesLinked(items: map<nat, OrderItem>, orders: map<nat, Order>, infos: map<nat, ProductInfo>) {
    forall k :: k in items ==> items[k].order in orders && items[k].productInfo in infos
  }

  /** A shop's owner, when it has one, is a stored user. */
  predicate ShopOwnersLinked(shops: map<nat, Shop>, users: map<nat, User>) {
    forall k :: k in shops && shops[k].user.Some? ==> shops[k].user.value in users
  }

  predicate OrderOwnersLinked(orders: map<nat, Order>, users: map<nat, User>) {
    forall k :: k in orders ==> orders[k].user in users
  }

  predicate ContactOwnersLinked(contacts: map<nat, Contact>, users: map<nat, User>) {
    forall k :: k in contacts ==> contacts[k].user in users
  }

  /** Every foreign key names an existing row. */
  predicate Linked(s: Store) {
    && ShopOwnersLinked(s.shops, s.users)
    && OrderOwnersLinked(s.orders, s.users)
    && ContactOwnersLinked(s.contacts, s.users)
    && CategoriesLinked(s.categories, s.shops)
    && ProductsLinked(s.products, s.categories)
    && InfosLinked(s.infos, s.products, s.shops)
    && ParameterRowsLinked(s.productParameters, s.infos, s.parameters)
    && OrdersLinked(s.orders, s.contacts)
    && LinesLinked(s.items, s.orders, s.infos)
  }

  predicate UniqueEmails(users: map<nat, User>) {
    forall a, b :: a in users && b in users && a != b ==> users[a].email != users[b].email
  }

  /** Shop.user is one-to-one: no user owns two shops. */
  predicate OneShopPerUser(shops: map<nat, Shop>) {
    forall a, b :: a in shops && b in shops && a != b && shops[a].user.Some? ==> shops[a].user != shops[b].user
  }

  /** The unique_product_info constraint on (product, shop, external_id). */
  predicate UniqueInfoKeys(infos: map<nat, ProductInfo>) {
    forall a, b :: a in infos && b in infos && a != b ==>
      (infos[a].product, infos[a].shop, infos[a].externalId) != (infos[b].product, infos[b].shop, infos[b].externalId)
  }

  /** The unique_product_parameter constraint on (product_info, parameter). */
  predicate UniqueParameterRows(pps: map<nat, ProductParameter>) {
    forall a, b :: a in pps && b in pps && a != b ==>
      (pps[a].productInfo, pps[a].parameter) != (pps[b].productInfo, pps[b].parameter)
  }

  /** The unique_order_item constraint on (order, product_info). */
  predicate UniqueLines(items: map<nat, OrderItem>) {
    forall a, b :: a in items && b in items && a != b ==>
      (items[a].order, items[a].productInfo) != (items[b].order, items[b].productInfo)
  }

  /** No user has two orders in state basket. */
  predicate OneBasketPerUser(orders: map<nat, Order>) {
    forall a, b :: a in orders && b in orders && a != b && orders[a].state == Basket && orders[b].state == Basket ==>
      orders[a].user != orders[b].user
  }

  predicate Unique(s: Store) {
    && UniqueEmails(s.users)
    && OneShopPerUser(s.shops)
    && UniqueInfoKeys(s.infos)
    && UniqueParameterRows(s.productParameters)
    && UniqueLines(s.items)
    && OneBasketPerUser(s.orders)
  }

  predicate Valid(s: Store) {
    Fresh(s) && Linked(s) && Unique(s)
  }

  // ----- writes to one table --------------------------------------------------

  /** A write to the order lines and their sequence that keeps the lines'
      own rules keeps the store consistent. */
  lemma LinesWriteValid(s: Store, t: Store)
    requires Valid(s)
    requires t == s.(items := t.items, next := s.next.(item := t.next.item))
    requires Below(t.items, t.next.item) && LinesLinked(t.items, t.orders, t.infos) && UniqueLines(t.items)
    ensures Valid(t)
  {
    assert Fresh(t);
    assert Linked(t);
    assert Unique(t);
  }

  /** A write to the orders and their sequence that keeps the orders' own
      rules, and the lines' link to them, keeps the store consistent. */
  lemma OrdersWriteValid(s: Store, t: Store)
    requires Valid(s)
    requires t == s.(orders := t.orders, next := s.next.(order := t.next.order))
    requires Below(t.orders, t.next.order)
    requires OrderOwnersLinked(t.orders, t.users) && OrdersLinked(t.orders, t.contacts)
    requires LinesLinked(t.items, t.orders, t.infos) && OneBasketPerUser(t.orders)
    ensures Valid(t)
  {
    assert Fresh(t);
    assert Linked(t);
    assert Unique(t);
  }

  /** A write to the listings, their parameter rows, the order lines and
      their sequences that keeps those tables' own rules keeps the store
      consistent. */
  lemma ListingsWriteValid(s: Store, t: Store)
    requires Valid(s)
    requires t == s.(infos := t.infos, productParameters := t.productParameters, items := t.items,
                     next := s.next.(info := t.next.info, productParameter := t.next.productParameter, item := t.next.item))
    requires Below(t.infos, t.next.info) && Below(t.productParameters, t.next.productParameter) && Below(t.items, t.next.item)
    requires InfosLinked(t.infos, t.products, t.shops)
    requires ParameterRowsLinked(t.productParameters, t.infos, t.parameters)
    requires LinesLinked(t.items, t.orders, t.infos)
    requires UniqueInfoKeys(t.infos) && UniqueParameterRows(t.productParameters) && UniqueLines(t.items)
    ensures Valid(t)
  {
    assert Fresh(t);
    assert Linked(t);
    assert Unique(t);
  }

  /** The empty database. */
  function EmptyStore(): (s: Store)
    ensures Valid(s)
  {
    Store(map[], map[], map[], map[], map[], map[], map[], map[], map[], map[],
          Counters(1, 1, 1, 1, 1, 1, 1, 1, 1))
  }

  // ----- UserManager ---------------------------------------------------------

  function LowerChar(c: char): char {
    if 'A' <= c <= 'Z' then ((c as int) + 32) as char else c
  }

  /** The position of the last '@', if any. */
  function LastAt(s: string): (r: Option<nat>)
    ensures r.Some? ==> r.value < |s| && s[r.value] == '@' && forall j :: r.value < j < |s| ==> s[j] != '@'
    ensures r.None? ==> forall j :: 0 <= j < |s| ==> s[j] != '@'
  {
    if |s| == 0 then None
    else if s[|s| - 1] == '@' then Some(|s| - 1)
    else LastAt(s[..|s| - 1])
  }

  /** `normalize_email`: the part after the last '@' is lower-cased, the rest
      is kept; an address without '@' is kept as it is. */
  function NormalizeEmail(e: string): (r: string)
    ensures |r| == |e|
    ensures LastAt(e).None? ==> r == e
    ensures LastAt(e).Some? ==> r[..LastAt(e).value + 1] == e[..LastAt(e).value + 1]
    ensures LastAt(e).Some? ==> forall j :: LastAt(e).value < j < |e| ==> r[j] == LowerChar(e[j])
  {
    match LastAt(e)
    case None => e
    case Some(i) => e[..i + 1] + seq(|e| - i - 1, j requires 0 <= j < |e| - i - 1 => LowerChar(e[i + 1 + j]))
  }

  /** Normalizing an address twice changes nothing more. */
  lemma NormalizeEmailIdempotent(e: string)
    ensures NormalizeEmail(NormalizeEmail(e)) == NormalizeEmail(e)
  {
    var r := NormalizeEmail(e);
    if LastAt(e).Some? {
      var i := LastAt(e).value;
      LastAtKept(e, r, i);
      var rr := NormalizeEmail(r);
      forall j | 0 <= j < |r|
        ensures rr[j] == r[j]
      {
        if j <= i {
          SamePrefixAt(rr, r, i + 1, j);
        } else {
          LowerCharIdempotent(e[j]);
        }
      }
      assert rr == r;
    }
  }

  lemma LowerCharIdempotent(c: char)
    ensures LowerChar(LowerChar(c)) == LowerChar(c)
  {
  }

  /** Two strings with the same first `n` characters agree below `n`. */
  lemma SamePrefixAt(a: string, b: string, n: nat, j: nat)
    requires n <= |a| && n <= |b| && a[..n] == b[..n]
    requires j < n
    ensures a[j] == b[j]
  {
    assert a[j] == a[..n][j];
    assert b[j] == b[..n][j];
  }

  /** Lower-casing after the last '@' leaves that '@' the last one. */
  lemma {:induction false} LastAtKept(e: string, r: string, i: nat)
    requires LastAt(e) == Some(i)
    requires |r| == |e|
    requires r[..i + 1] == e[..i + 1]
    requires forall j :: i < j < |e| ==> r[j] == LowerChar(e[j])
    ensures LastAt(r) == Some(i)
    decreases |r|
  {
    var n := |r| - 1;
    assert r[i] == r[..i + 1][i] == e[..i + 1][i] == e[i];
    if i < n {
      var e' := e[..n];
      var r' := r[..n];
      assert e[n] != '@';
      assert r[n] == LowerChar(e[n]);
      assert r[n] != '@';
      assert LastAt(e) == LastAt(e');
      assert LastAt(r) == LastAt(r');
      assert r'[..i + 1] == r[..i + 1];
      assert e'[..i + 1] == e[..i + 1];
      LastAtKept(e', r', i);
    }
  }

  /** The result of creating a user. */
  datatype Enrolled = Enrolled(store: Store, user: nat) | Refused(fault: Fault)

  predicate EmailTaken(users: map<nat, User>, email: string) {
    exists k :: k in users && users[k].email == email
  }

  /** `_create_user`: refuses an empty address, stores the normalized
      address as a new inactive buyer, and fails when the address is taken. */
  function CreateUser(s: Store, email: string, isStaff: bool, isSuperuser: bool): (r: Enrolled)
    ensures email == "" ==> r == Refused(ValueError(EmailNotSet))
    ensures r.Enrolled? <==> email != "" && !EmailTaken(s.users, NormalizeEmail(email))
    ensures r.Refused? && email != "" ==> r.fault == IntegrityError(EmailUnique)
    ensures r.Enrolled? ==> r.user in r.store.users
    ensures r.Enrolled? && Fresh(s) ==> r.user !in s.users
    ensures r.Enrolled? ==> r.store.users[r.user] == User(NormalizeEmail(email), isStaff, isSuperuser, false, Buyer)
    ensures r.Enrolled? && Fresh(s) ==> SubMap(s.users, r.store.users)
    ensures r.Enrolled? ==> r.store.(users := s.users, next := s.next) == s
    ensures r.Enrolled? && Valid(s) ==> Valid(r.store)
  {
    if email == "" then Refused(ValueError(EmailNotSet))
    else
      var e := NormalizeEmail(email);
      if EmailTaken(s.users, e) then Refused(IntegrityError(EmailUnique))
      else
        Enrolled(s.(users := s.users[s.next.user := User(e, isStaff, isSuperuser, false, Buyer)],
                    next := s.next.(user := s.next.user + 1)),
                 s.next.user)
  }

  /** `create_superuser`: both flags default to true, and an explicit false
      for either is refused before anything is stored.  The code tests each
      flag with `is not True`, so any value other than True is refused; a
      flag here is a boolean or absent, which narrows those values to an
      explicit false. */
  function CreateSuperuser(s: Store, email: string, isStaff: Option<bool>, isSuperuser: Option<bool>): (r: Enrolled)
    ensures isStaff == Some(false) ==> r == Refused(ValueError(NotStaff))
    ensures isStaff != Some(false) && isSuperuser == Some(false) ==> r == Refused(ValueError(NotSuperuser))
    ensures isStaff != Some(false) && isSuperuser != Some(false) && email == "" ==> r == Refused(ValueError(EmailNotSet))
    ensures r.Enrolled? ==> r.user in r.store.users
    ensures r.Enrolled? ==> r.store.users[r.user].isStaff && r.store.users[r.user].isSuperuser
    ensures r.Enrolled? ==> r.store.users[r.user].email == NormalizeEmail(email)
  {
    if !isStaff.GetOr(true) then Refused(ValueError(NotStaff))
    else if !isSuperuser.GetOr(true) then Refused(ValueError(NotSuperuser))
    else CreateUser(s, email, true, true)
  }
}
