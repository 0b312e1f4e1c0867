/** Placing and listing orders (`OrderView` in orders/backend/views.py) and the
    user scoping of contact changes (`ContactView.delete` and `put`).  An
    order is placed by a guarded update on (caller, id); a contact is deleted
    with everything that cascades from it: the orders that name it and their
    lines. */
module Orders {
  import opened Common
  import opened Models
  import opened Basket

  // ----- placing an order (post) -----------------------------------------------------

  /** The row `update()` sets on a placed order. */
  function Placed(o: Order, contact: Option<nat>): Order {
    o.(contact := contact, state := New)
  }

  /** A `contact` field the update can store: empty, or a digit string. */
  predicate ContactText(v: string) {
    v == "" || IsDigits(v)
  }

  /** The value the update writes to `contact_id`: an empty string is stored
      as NULL, since the key column is an integer, and digits as their
      number. */
  function ContactId(v: string): (c: Option<nat>)
    requires ContactText(v)
    ensures c.None? <==> v == ""
  {
    if v == "" then None else Some(DigitsValue(v))
  }

  /** `OrderView.post` with the `id` and `contact` request fields.  The order
      is filtered by caller and id and updated to state new with the given
      contact; the notification goes out only when a row changed.  A contact
      that is neither empty nor a number fails while the update is prepared,
      whether or not a row matches; a contact that names no row fails the
      foreign key only when a row is written.  A missing field, a non-digit
      id or an update that matches nothing makes the view return no reply. */
  function OrderPost(s: Store, who: Principal, id: Option<string>, contact: Option<string>): (h: Handled)
    ensures who.Anonymous? ==> h == Handled(s, Json(403, false, Error(NotAuthenticated)), [])
    ensures who.Member? && (id.None? || contact.None? || !IsDigits(id.value)) ==> h == Handled(s, NoResponse, [])
    ensures who.Member? && id.Some? && IsDigits(id.value) && contact.Some? && !ContactText(contact.value) ==>
      h == Handled(s, Raised(ValueError(NotANumber)), [])
    ensures h.store.(orders := s.orders) == s && h.store.orders.Keys == s.orders.Keys
    ensures h.events == [] || h.events == [NewOrderPlaced(who.id)]
  {
    if who.Anonymous? then Handled(s, Json(403, false, Error(NotAuthenticated)), [])
    else if id.None? || contact.None? || !IsDigits(id.value) then Handled(s, NoResponse, [])
    else if !ContactText(contact.value) then Handled(s, Raised(ValueError(NotANumber)), [])
    else
      var k := DigitsValue(id.value);
      var c := ContactId(contact.value);
      if !(k in s.orders && s.orders[k].user == who.id) then Handled(s, NoResponse, [])
      else if c.Some? && c.value !in s.contacts then Handled(s, Json(200, false, Error(BadArguments)), [])
      else Handled(s.(orders := s.orders[k := Placed(s.orders[k], c)]), Json(200, true, Empty), [NewOrderPlaced(who.id)])
  }

  /** The only row a placement can change is the caller's order named by
      `id`: every other order, in particular every order of another user,
      is left as it was. */
  lemma OrderPostScoped(s: Store, user: nat, kind: UserType, id: Option<string>, contact: Option<string>)
    ensures var t := OrderPost(s, Member(user, kind), id, contact).store;
      forall o :: o in s.orders && (s.orders[o].user != user || id.None? || !IsDigits(id.value) || o != DigitsValue(id.value))
        ==> t.orders[o] == s.orders[o]
  {
  }

  /** Given a digit id and a contact that is empty or digits, the
      notification fires exactly when the caller owns that order and the
      contact is empty or exists, and then the order, and only it, is
      placed: state new, the given contact (none for an empty one), the same
      owner and creation time.  Without the notification nothing is
      written. */
  lemma OrderPostPlaces(s: Store, user: nat, kind: UserType, id: string, contact: string)
    requires IsDigits(id) && ContactText(contact)
    ensures var h := OrderPost(s, Member(user, kind), Some(id), Some(contact));
      var k := DigitsValue(id); var c := ContactId(contact);
      && (h.events == [NewOrderPlaced(user)] <==>
            k in s.orders && s.orders[k].user == user && (contact == "" || c.value in s.contacts))
      && (h.events == [] ==> h.store == s)
      && (h.events != [] ==>
            && h.reply == Json(200, true, Empty)
            && h.store.orders[k].state == New && h.store.orders[k].contact == c
            && h.store.orders[k].user == user && h.store.orders[k].created == s.orders[k].created)
  {
  }

  /** A placement that reports success always notifies, and one that does
      not report success never does. */
  lemma OrderPostNotifiesOnSuccess(s: Store, who: Principal, id: Option<string>, contact: Option<string>)
    ensures var h := OrderPost(s, who, id, contact);
      (h.events != []) <==> (h.reply.Json? && h.reply.status)
  {
  }

  /** Placing order `k` with a stored contact, or none, keeps the orders'
      own rules: the owner stays, the contact exists, no line loses its
      order, and a placed order is no longer a basket. */
  lemma PlaceKeepsRules(s: Store, k: nat, c: Option<nat>)
    requires k in s.orders && (c.None? || c.value in s.contacts)
    requires OrderOwnersLinked(s.orders, s.users) && OrdersLinked(s.orders, s.contacts)
    requires LinesLinked(s.items, s.orders, s.infos) && OneBasketPerUser(s.orders)
    ensures var orders := s.orders[k := Placed(s.orders[k], c)];
      && OrderOwnersLinked(orders, s.users) && OrdersLinked(orders, s.contacts)
      && LinesLinked(s.items, orders, s.infos) && OneBasketPerUser(orders)
  {
  }

  lemma OrderPostValid(s: Store, who: Principal, id: Option<string>, contact: Option<string>)
    requires Valid(s)
    ensures Valid(OrderPost(s, who, id, contact).store)
  {
    if who.Member? && id.Some? && contact.Some? && IsDigits(id.value) && ContactText(contact.value) {
      var k := DigitsValue(id.value);
      var c := ContactId(contact.value);
      if k in s.orders && s.orders[k].user == who.id && (c.None? || c.value in s.contacts) {
        var t := s.(orders := s.orders[k := Placed(s.orders[k], c)]);
        assert OrderPost(s, who, id, contact).store == t;
        PlaceKeepsRules(s, k, c);
        assert t == s.(orders := t.orders, next := s.next.(order := t.next.order));
        assert Below(t.orders, t.next.order);
        OrdersWriteValid(s, t);
      }
    }
  }

  // ----- listing orders (get) ------------------------------------------------------

  /** Every order of the caller, whatever its state. */
  function OrdersOf(orders: map<nat, Order>, user: nat): set<nat> {
    set k | k in orders && orders[k].user == user
  }

  /** `OrderView.get`: the caller's orders other than the basket, each with
      its `total_sum`. */
  function OrderGet(s: Store, who: Principal): (r: Listing)
    ensures who.Anonymous? ==> r == Denied(Json(403, false, Error(NotAuthenticated)))
    ensures who.Member? ==> r.Shown? && r.totals.Keys <= OrdersOf(s.orders, who.id)
    ensures r.Shown? ==> forall k :: k in r.totals ==> r.totals[k] == Total(s, k)
  {
    if who.Anonymous? then Denied(Json(403, false, Error(NotAuthenticated)))
    else Shown(map k | k in s.orders && s.orders[k].user == who.id && s.orders[k].state != Basket :: Total(s, k))
  }

  /** The order list and the basket list split the caller's orders between
      them: together they show every order of the caller, and none twice. */
  lemma OrderGetSplitsWithBasket(s: Store, user: nat, kind: UserType)
    ensures var placed := OrderGet(s, Member(user, kind)).totals.Keys;
      var baskets := BasketGet(s, Member(user, kind)).totals.Keys;
      && placed + baskets == OrdersOf(s.orders, user)
      && placed * baskets == {}
  {
  }

  /** A successful placement moves the order from the basket list to the
      order list with its total unchanged. */
  lemma PlacedOrderListed(s: Store, user: nat, kind: UserType, id: string, contact: string)
    requires IsDigits(id) && ContactText(contact)
    requires OrderPost(s, Member(user, kind), Some(id), Some(contact)).events != []
    ensures var t := OrderPost(s, Member(user, kind), Some(id), Some(contact)).store;
      var k := DigitsValue(id);
      && k in OrderGet(t, Member(user, kind)).totals
      && k !in BasketGet(t, Member(user, kind)).totals
      && OrderGet(t, Member(user, kind)).totals[k] == Total(s, k)
  {
    var t := OrderPost(s, Member(user, kind), Some(id), Some(contact)).store;
    assert t.items == s.items && t.infos == s.infos && t.next == s.next;
    assert Total(t, DigitsValue(id)) == Total(s, DigitsValue(id)) by {
      LineSumOrdersFree(s, t, DigitsValue(id), s.next.item);
    }
  }

  /** Line sums read lines and listings only, not the order rows. */
  lemma {:induction false} LineSumOrdersFree(s: Store, t: Store, order: nat, n: nat)
    requires t.items == s.items && t.infos == s.infos
    ensures LineSum(t, order, n) == LineSum(s, order, n)
  {
    if n > 0 {
      LineSumOrdersFree(s, t, order, n - 1);
    }
  }

  // ----- deleting contacts (delete) ------------------------------------------------

  /** The caller's contacts whose ids are in `ids`. */
  function ContactsNamed(contacts: map<nat, Contact>, user: nat, ids: set<nat>): set<nat> {
    set k | k in contacts && contacts[k].user == user && k in ids
  }

  /** The orders whose contact is in `gone`. */
  function OrdersNaming(orders: map<nat, Order>, gone: set<nat>): set<nat> {
    set o | o in orders && orders[o].contact.Some? && orders[o].contact.value in gone
  }

  /** The lines of the orders in `gone`. */
  function LinesOfOrders(items: map<nat, OrderItem>, gone: set<nat>): set<nat> {
    set i | i in items && items[i].order in gone
  }

  /** `Contact.objects.filter(query).delete()`: the contacts go, and with
      them, by `on_delete=CASCADE`, the orders that name them and those
      orders' lines. */
  function DeleteContacts(s: Store, gone: set<nat>): (t: Store)
    ensures t.(contacts := s.contacts, orders := s.orders, items := s.items) == s
    ensures SubMap(t.contacts, s.contacts) && SubMap(t.orders, s.orders) && SubMap(t.items, s.items)
    ensures forall k :: k in t.contacts <==> k in s.contacts && k !in gone
    ensures forall o :: o in t.orders <==> o in s.orders && o !in OrdersNaming(s.orders, gone)
    ensures forall i :: i in t.items <==> i in s.items && i !in LinesOfOrders(s.items, OrdersNaming(s.orders, gone))
  {
    var orders := OrdersNaming(s.orders, gone);
    s.(contacts := Without(s.contacts, gone), orders := Without(s.orders, orders),
       items := Without(s.items, LinesOfOrders(s.items, orders)))
  }

  /** The number `delete()` reports: every row removed, the cascaded ones
      included. */
  function DeletedCount(s: Store, gone: set<nat>): nat {
    var orders := OrdersNaming(s.orders, gone);
    |gone| + |orders| + |LinesOfOrders(s.items, orders)|
  }

  /** `ContactView.delete` with the `items` request field: the comma-separated
      ids are filtered to digit strings, each scoped to the caller. */
  function ContactDelete(s: Store, who: Principal, items: Option<string>): (h: Handled)
    ensures h.events == []
    ensures who.Anonymous? ==> h == Handled(s, Json(403, false, Error(NotAuthenticated)), [])
    ensures who.Member? && !Truthy(items) ==> h == Handled(s, Json(200, false, Error(MissingArguments)), [])
  {
    if who.Anonymous? then Handled(s, Json(403, false, Error(NotAuthenticated)), [])
    else if !Truthy(items) then Handled(s, Json(200, false, Error(MissingArguments)), [])
    else
      var ids := DigitIds(Split(items.value, ','));
      if ids == {} then Handled(s, Json(200, false, Error(MissingArguments)), [])
      else
        var gone := ContactsNamed(s.contacts, who.id, ids);
        Handled(DeleteContacts(s, gone), Json(200, true, Count(DeletedCount(s, gone))), [])
  }

  /** On a store whose foreign keys hold, a contact delete removes exactly
      the caller's contacts that the list names by digit pieces, the orders
      that name a removed contact and the lines of those orders; it reports
      the number of rows removed from the three tables together, and a list
      without a digit piece removes nothing and is refused. */
  lemma ContactDeleteScoped(s: Store, user: nat, kind: UserType, text: string)
    requires OrdersLinked(s.orders, s.contacts) && LinesLinked(s.items, s.orders, s.infos)
    requires text != ""
    ensures var t := ContactDelete(s, Member(user, kind), Some(text)).store;
      && t.(contacts := s.contacts, orders := s.orders, items := s.items) == s
      && SubMap(t.contacts, s.contacts) && SubMap(t.orders, s.orders) && SubMap(t.items, s.items)
    ensures var t := ContactDelete(s, Member(user, kind), Some(text)).store;
      forall k :: k in s.contacts ==> (k !in t.contacts <==> s.contacts[k].user == user && Listed(Split(text, ','), k))
    ensures var t := ContactDelete(s, Member(user, kind), Some(text)).store;
      forall o :: o in s.orders ==> (o !in t.orders <==> s.orders[o].contact.Some? && s.orders[o].contact.value !in t.contacts)
    ensures var t := ContactDelete(s, Member(user, kind), Some(text)).store;
      forall i :: i in s.items ==> (i !in t.items <==> s.items[i].order !in t.orders)
    ensures ContactDelete(s, Member(user, kind), Some(text)).reply.Json?
    ensures var pieces := Split(text, ',');
      ContactDelete(s, Member(user, kind), Some(text)).reply.status
      <==> exists i :: 0 <= i < |pieces| && IsDigits(pieces[i])
    ensures var h := ContactDelete(s, Member(user, kind), Some(text));
      h.reply.status ==> h.reply.body == Count(
        |s.contacts.Keys - h.store.contacts.Keys| + |s.orders.Keys - h.store.orders.Keys| + |s.items.Keys - h.store.items.Keys|)
    ensures var h := ContactDelete(s, Member(user, kind), Some(text));
      !h.reply.status ==> h.store == s && h.reply == Json(200, false, Error(MissingArguments))
  {
    var pieces := Split(text, ',');
    var ids := DigitIds(pieces);
    var h := ContactDelete(s, Member(user, kind), Some(text));
    if ids != {} {
      var gone := ContactsNamed(s.contacts, user, ids);
      assert h.store == DeleteContacts(s, gone);
      ContactDeleteCount(s, user, kind, text);
      DeleteContactsCascade(s, gone);
      assert forall k :: k in s.contacts ==> (k in gone <==> s.contacts[k].user == user && Listed(pieces, k));
      var i :| 0 <= i < |pieces| && IsDigits(pieces[i]);
      assert IsDigits(Split(text, ',')[i]);
    } else {
      assert h == Handled(s, Json(200, false, Error(MissingArguments)), []);
      assert forall i :: 0 <= i < |pieces| ==> !IsDigits(pieces[i]);
    }
  }

  lemma ContactDeleteCount(s: Store, user: nat, kind: UserType, text: string)
    ensures var h := ContactDelete(s, Member(user, kind), Some(text));
      h.reply.Json? && h.reply.status ==> h.reply.body == Count(
        |s.contacts.Keys - h.store.contacts.Keys| + |s.orders.Keys - h.store.orders.Keys| + |s.items.Keys - h.store.items.Keys|)
  {
    var ids := DigitIds(Split(text, ','));
    var h := ContactDelete(s, Member(user, kind), Some(text));
    if text != "" && ids != {} {
      var gone := ContactsNamed(s.contacts, user, ids);
      var t := DeleteContacts(s, gone);
      assert h.store == t && h.reply == Json(200, true, Count(DeletedCount(s, gone)));
      DeleteContactsCount(s, gone);
      assert DeletedCount(s, gone) == |s.contacts.Keys - t.contacts.Keys| + |s.orders.Keys - t.orders.Keys| + |s.items.Keys - t.items.Keys|;
    } else {
      assert !h.reply.status;
    }
  }

  /** With the foreign keys in place, an order goes exactly when its contact
      goes, and a line exactly when its order goes. */
  lemma DeleteContactsCascade(s: Store, gone: set<nat>)
    requires OrdersLinked(s.orders, s.contacts) && LinesLinked(s.items, s.orders, s.infos)
    requires gone <= s.contacts.Keys
    ensures var t := DeleteContacts(s, gone);
      forall o :: o in s.orders ==> (o !in t.orders <==> s.orders[o].contact.Some? && s.orders[o].contact.value !in t.contacts)
    ensures var t := DeleteContacts(s, gone);
      forall i :: i in s.items ==> (i !in t.items <==> s.items[i].order !in t.orders)
  {
  }

  /** The number a cascade reports is the number of rows that go. */
  lemma DeleteContactsCount(s: Store, gone: set<nat>)
    requires gone <= s.contacts.Keys
    ensures var t := DeleteContacts(s, gone);
      DeletedCount(s, gone) == |s.contacts.Keys - t.contacts.Keys| + |s.orders.Keys - t.orders.Keys| + |s.items.Keys - t.items.Keys|
  {
    var t := DeleteContacts(s, gone);
    var orders := OrdersNaming(s.orders, gone);
    TakenBack(s.contacts.Keys, gone);
    TakenBack(s.orders.Keys, orders);
    TakenBack(s.items.Keys, LinesOfOrders(s.items, orders));
  }

  /** Removing part of a set and then comparing gives that part back. */
  lemma TakenBack(a: set<nat>, b: set<nat>)
    requires b <= a
    ensures a - (a - b) == b
  {
  }

  /** Every order names a contact of its own owner. */
  predicate OwnContacts(s: Store) {
    forall o :: o in s.orders && s.orders[o].contact.Some? && s.orders[o].contact.value in s.contacts ==>
      s.contacts[s.orders[o].contact.value].user == s.orders[o].user
  }

  /** When every order names a contact of its own owner, a contact delete
      leaves the orders and lines of every other user alone. */
  lemma ContactDeleteKeepsOthers(s: Store, user: nat, kind: UserType, items: Option<string>)
    requires OwnContacts(s)
    ensures var t := ContactDelete(s, Member(user, kind), items).store;
      && (forall o :: o in s.orders && s.orders[o].user != user ==> o in t.orders)
      && (forall i :: i in s.items && s.items[i].order in s.orders && s.items[i].order in t.orders ==> i in t.items)
  {
  }

  /** A consistent store where user 1 has a basket and user 2 a contact. */
  function SharedContactStore(): (s: Store)
    ensures Valid(s) && OwnContacts(s)
  {
    var t := EmptyStore().(
      users := map[1 := User("a@x", false, false, true, Buyer), 2 := User("b@x", false, false, true, Buyer)],
      orders := map[0 := Order(1, 0, Basket, None)],
      contacts := map[0 := Contact(2, "", "", "", "", "", "")],
      next := EmptyStore().next.(user := 3, order := 1, contact := 1));
    assert "a@x"[0] != "b@x"[0];
    t
  }

  /** Placing an order does not check who owns the contact, so one user can
      attach another user's contact to an order. */
  lemma ForeignContactPlaced()
    ensures var placed := OrderPost(SharedContactStore(), Member(1, Buyer), Some("0"), Some("0"));
      && placed.events == [NewOrderPlaced(1)] && !OwnContacts(placed.store)
      && 0 in placed.store.orders && placed.store.orders[0].user == 1
  {
    assert "0"[..0] == "";
    assert IsDigits("0") && DigitsValue("0") == 0;
  }

  /** The owner of that contact then deletes the other user's order by
      deleting the contact. */
  lemma ForeignContactCascade()
    ensures var placed := OrderPost(SharedContactStore(), Member(1, Buyer), Some("0"), Some("0"));
      0 !in ContactDelete(placed.store, Member(2, Buyer), Some("0")).store.orders
  {
    ForeignContactPlaced();
    SplitPiece("0", ',', None);
    assert ["0"][0] == "0";
    assert Listed(["0"], 0);
  }

  lemma ContactDeleteValid(s: Store, who: Principal, items: Option<string>)
    requires Valid(s)
    ensures Valid(ContactDelete(s, who, items).store)
  {
    if who.Member? && Truthy(items) {
      var ids := DigitIds(Split(items.value, ','));
      DeleteContactsValid(s, ContactsNamed(s.contacts, who.id, ids));
    }
  }

  lemma DeleteContactsValid(s: Store, gone: set<nat>)
    requires Valid(s) && gone <= s.contacts.Keys
    ensures Valid(DeleteContacts(s, gone))
  {
    var t := DeleteContacts(s, gone);
    assert Fresh(t) by {
      assert Below(t.orders, t.next.order);
      assert Below(t.items, t.next.item);
      assert Below(t.contacts, t.next.contact);
    }
    assert OrdersLinked(t.orders, t.contacts);
    assert LinesLinked(t.items, t.orders, t.infos);
    assert Linked(t);
    assert UniqueLines(t.items);
    assert OneBasketPerUser(t.orders);
    assert Unique(t);
  }

  // ----- changing a contact (put) -------------------------------------------------

  /** The fields a partial `ContactSerializer` update may carry; absent ones
      keep their value.  The owner is not among them. */
  datatype ContactPatch = ContactPatch(
    city: Option<string>, street: Option<string>, house: Option<string>,
    building: Option<string>, apartment: Option<string>, phone: Option<string>)

  /** `serializer.save()` on a partial update. */
  function Patch(c: Contact, p: ContactPatch): (r: Contact)
    ensures r.user == c.user
  {
    Contact(c.user, p.city.GetOr(c.city), p.street.GetOr(c.street), p.house.GetOr(c.house),
            p.building.GetOr(c.building), p.apartment.GetOr(c.apartment), p.phone.GetOr(c.phone))
  }

  /** Applying a patch twice is applying it once, and an empty patch changes
      nothing. */
  lemma PatchIdempotent(c: Contact, p: ContactPatch)
    ensures Patch(Patch(c, p), p) == Patch(c, p)
    ensures Patch(c, ContactPatch(None, None, None, None, None, None)) == c
  {
  }

  /** `ContactView.put` with the `id` request field and the patch; `valid`
      stands for the serializer's field validation. */
  function ContactPut(s: Store, who: Principal, id: Option<string>, patch: ContactPatch, valid: ContactPatch -> bool): (h: Handled)
    ensures h.events == []
    ensures who.Anonymous? ==> h == Handled(s, Json(403, false, Error(NotAuthenticated)), [])
  {
    if who.Anonymous? then Handled(s, Json(403, false, Error(NotAuthenticated)), [])
    else if id.None? || !IsDigits(id.value) then Handled(s, Json(200, false, Error(MissingArguments)), [])
    else
      var k := DigitsValue(id.value);
      if !(k in s.contacts && s.contacts[k].user == who.id) then Handled(s, Json(200, false, Error(MissingArguments)), [])
      else if !valid(patch) then Handled(s, Json(200, false, Error(InvalidContact)), [])
      else Handled(s.(contacts := s.contacts[k := Patch(s.contacts[k], patch)]), Json(200, true, Empty), [])
  }

  /** A contact change succeeds exactly when the id is a digit string naming
      a contact of the caller and the patch validates; it then rewrites that
      contact only, keeping its owner, and otherwise writes nothing. */
  lemma ContactPutScoped(s: Store, user: nat, kind: UserType, id: Option<string>, patch: ContactPatch, valid: ContactPatch -> bool)
    ensures var h := ContactPut(s, Member(user, kind), id, patch, valid);
      var k := if id.Some? && IsDigits(id.value) then DigitsValue(id.value) else 0;
      && h.reply.Json?
      && (h.reply.status <==>
            id.Some? && IsDigits(id.value) && k in s.contacts && s.contacts[k].user == user && valid(patch))
      && (!h.reply.status ==> h.store == s)
      && (h.reply.status ==>
            && h.store.(contacts := s.contacts) == s && h.store.contacts.Keys == s.contacts.Keys
            && h.store.contacts[k] == Patch(s.contacts[k], patch)
            && h.store.contacts[k].user == user
            && forall j :: j in s.contacts && j != k ==> h.store.contacts[j] == s.contacts[j])
  {
  }

  lemma ContactPutValid(s: Store, who: Principal, id: Option<string>, patch: ContactPatch, valid: ContactPatch -> bool)
    requires Valid(s)
    ensures Valid(ContactPut(s, who, id, patch, valid).store)
  {
    var t := ContactPut(s, who, id, patch, valid).store;
    if t != s {
      assert Below(t.contacts, t.next.contact);
      assert Fresh(t);
      assert OrdersLinked(t.orders, t.contacts);
    }
  }
}
