/** The buyer's basket: `BasketView` in orders/backend/views.py.  The basket
    is the caller's order in state `basket`, created on the first write that
    needs it.  Lines are added in request order until the first rejected one,
    updated by line id, and deleted by a comma-separated id list; every query
    is scoped to the caller's basket.  Nothing wraps a request in a
    transaction, so the writes made before a failure stay. */
module Basket {
  import opened Common
  import opened Models

  // ----- the basket order ----------------------------------------------------------

  /** The caller's orders in state basket. */
  function Baskets(orders: map<nat, Order>, user: nat): set<nat> {
    set k | k in orders && orders[k].user == user && orders[k].state == Basket
  }

  /** `Order.objects.get_or_create(user_id=..., state='basket')`; a new order
      is stamped with the clock reading `now`, and its owner must be a stored
      user. */
  function GetOrCreateBasket(s: Store, user: nat, now: int): (r: Got)
    ensures r.Got? ==> r.id in r.store.orders && r.store.orders[r.id].user == user && r.store.orders[r.id].state == Basket
    ensures r.Got? ==> r.store.(orders := s.orders, next := s.next) == s && r.store.next.(order := s.next.order) == s.next
    ensures r.Got? && Baskets(s.orders, user) != {} ==> r.store == s
    ensures r.Got? && Baskets(s.orders, user) == {} ==>
      r.id == s.next.order && r.store.orders == s.orders[r.id := Order(user, now, Basket, None)]
    ensures r.Failed? <==> |Baskets(s.orders, user)| > 1 || (Baskets(s.orders, user) == {} && user !in s.users)
    ensures r.Failed? ==> r.fault == if |Baskets(s.orders, user)| > 1 then MultipleObjectsReturned else IntegrityError(ForeignKey)
  {
    var found := Baskets(s.orders, user);
    if |found| > 1 then Failed(MultipleObjectsReturned)
    else if found != {} then Got(s, TheOnly(found))
    else if user !in s.users then Failed(IntegrityError(ForeignKey))
    else
      Got(s.(orders := s.orders[s.next.order := Order(user, now, Basket, None)],
             next := s.next.(order := s.next.order + 1)),
          s.next.order)
  }

  /** A set of more than one element holds two different ones. */
  lemma TwoOf(xs: set<nat>) returns (a: nat, b: nat)
    requires |xs| > 1
    ensures a in xs && b in xs && a != b
  {
    a :| a in xs;
    assert |xs - {a}| > 0;
    b :| b in xs - {a};
  }

  /** On a consistent store the lookup never finds two baskets, so for a
      stored user (an authenticated caller always is one) it yields the
      caller's only basket, and the store stays consistent. */
  lemma GetOrCreateBasketValid(s: Store, user: nat, now: int)
    requires Valid(s) && user in s.users
    ensures var r := GetOrCreateBasket(s, user, now);
      && r.Got? && Valid(r.store) && SubMap(s.orders, r.store.orders)
      && Baskets(r.store.orders, user) == {r.id}
  {
    var found := Baskets(s.orders, user);
    if |found| > 1 {
      var a, b := TwoOf(found);
    }
    var r := GetOrCreateBasket(s, user, now);
    var t := r.store;
    if found == {} {
      assert t == s.(orders := t.orders, next := s.next.(order := t.next.order));
      assert Below(t.orders, t.next.order);
      assert OrderOwnersLinked(t.orders, t.users);
      assert OrdersLinked(t.orders, t.contacts);
      assert LinesLinked(t.items, t.orders, t.infos);
      forall a, b | a in t.orders && b in t.orders && a != b && t.orders[a].state == Basket && t.orders[b].state == Basket
        ensures t.orders[a].user != t.orders[b].user
      {
        if a == r.id {
          assert b !in found;
        } else if b == r.id {
          assert a !in found;
        }
      }
      assert OneBasketPerUser(t.orders);
      OrdersWriteValid(s, t);
      assert Baskets(t.orders, user) == {r.id};
    } else {
      assert |found| == 1;
      assert found == {r.id};
    }
  }

  /** Asking for the basket a second time finds the one the first call
      returned, and writes nothing. */
  lemma GetOrCreateBasketAgain(s: Store, user: nat, now: int, later: int)
    requires Valid(s) && user in s.users
    ensures GetOrCreateBasket(s, user, now).Got?
    ensures GetOrCreateBasket(GetOrCreateBasket(s, user, now).store, user, later) == GetOrCreateBasket(s, user, now)
  {
    GetOrCreateBasketValid(s, user, now);
  }

  // ----- adding lines (post) -----------------------------------------------------------

  /** One entry of the `items` array of `BasketView.post`, as the serializer
      reads it. */
  datatype LineRequest = LineRequest(productInfo: int, quantity: int)

  /** The serializer accepts the entry: `valid` stands for the checks of
      OrderItemSerializer (serializers.py is not part of this model); the
      model adds that the listing exists and the quantity is not negative. */
  predicate Acceptable(s: Store, e: LineRequest, valid: LineRequest -> bool) {
    valid(e) && e.productInfo >= 0 && e.productInfo in s.infos && e.quantity >= 0
  }

  /** The order already has a line for the listing. */
  function LineTaken(items: map<nat, OrderItem>, order: nat, info: int): bool {
    exists k :: k in items && items[k].order == order && items[k].productInfo == info
  }

  /** Why adding stopped at entry `e`: the serializer refused it, or its
      listing is already in the order. */
  predicate StopsAt(s: Store, order: nat, e: LineRequest, valid: LineRequest -> bool, why: ErrorKind) {
    || (why == InvalidItem && !Acceptable(s, e, valid))
    || (why == Violated(OrderItemUnique) && Acceptable(s, e, valid) && LineTaken(s.items, order, e.productInfo))
  }

  /** The lines created, how many, and what stopped the run, if anything. */
  datatype Added = Added(store: Store, count: nat, stop: Option<ErrorKind>)

  /** `serializer.save()` for an accepted entry: a new line under the next id. */
  function AddLine(s: Store, order: nat, e: LineRequest): (r: Store)
    requires e.productInfo >= 0 && e.quantity >= 0
    ensures r.(items := s.items, next := s.next) == s && r.next == s.next.(item := s.next.item + 1)
    ensures r.items == s.items[s.next.item := OrderItem(order, e.productInfo, e.quantity)]
  {
    s.(items := s.items[s.next.item := OrderItem(order, e.productInfo, e.quantity)],
       next := s.next.(item := s.next.item + 1))
  }

  /** The loop of `BasketView.post`: each entry in order becomes a line of
      `order`, until the first entry that is refused or duplicates a line. */
  function AddLines(s: Store, order: nat, entries: seq<LineRequest>, valid: LineRequest -> bool): (r: Added)
    ensures r.store.(items := s.items, next := s.next) == s && r.store.next.(item := s.next.item) == s.next
    ensures r.store.next.item == s.next.item + r.count
    ensures r.count <= |entries|
    ensures r.stop.None? ==> r.count == |entries|
    decreases |entries|
  {
    if entries == [] then Added(s, 0, None)
    else
      var e := entries[0];
      if !Acceptable(s, e, valid) then Added(s, 0, Some(InvalidItem))
      else if LineTaken(s.items, order, e.productInfo) then Added(s, 0, Some(Violated(OrderItemUnique)))
      else
        var r := AddLines(AddLine(s, order, e), order, entries[1..], valid);
        Added(r.store, r.count + 1, r.stop)
  }

  /** Line `k` is the line entry `e` asks for in `order`. */
  predicate LineOf(s: Store, k: nat, order: nat, e: LineRequest) {
    && k in s.items && s.items[k].order == order
    && s.items[k].productInfo == e.productInfo && s.items[k].quantity == e.quantity
  }

  /** Each of the first `n` entries became the line under the `i`-th id from `base`. */
  predicate LinesFrom(s: Store, base: nat, order: nat, entries: seq<LineRequest>, n: nat) {
    n <= |entries| && forall i :: 0 <= i < n ==> LineOf(s, base + i, order, entries[i])
  }

  /** The serializer accepted each of the first `n` entries. */
  predicate AllAccepted(s: Store, entries: seq<LineRequest>, n: nat, valid: LineRequest -> bool) {
    n <= |entries| && forall i :: 0 <= i < n ==> Acceptable(s, entries[i], valid)
  }

  /** The lines of `s` stay in `t`, and the lines added take ids drawn from
      the sequence between the two. */
  predicate ItemsGrow(s: Store, t: Store) {
    && Below(t.items, t.next.item) && s.next.item <= t.next.item
    && SubMap(s.items, t.items)
    && (forall k :: k in t.items && k !in s.items ==> s.next.item <= k < t.next.item)
  }

  lemma ItemsGrowTrans(a: Store, b: Store, c: Store)
    requires ItemsGrow(a, b) && ItemsGrow(b, c)
    ensures ItemsGrow(a, c)
  {
  }

  /** The run keeps every earlier line and creates lines only under the
      ids it draws. */
  lemma {:induction false} AddLinesKeeps(s: Store, order: nat, entries: seq<LineRequest>, valid: LineRequest -> bool)
    requires Below(s.items, s.next.item)
    ensures ItemsGrow(s, AddLines(s, order, entries, valid).store)
    decreases |entries|
  {
    if entries != [] {
      var e := entries[0];
      if Acceptable(s, e, valid) && !LineTaken(s.items, order, e.productInfo) {
        var s1 := AddLine(s, order, e);
        assert ItemsGrow(s, s1);
        AddLinesKeeps(s1, order, entries[1..], valid);
        ItemsGrowTrans(s, s1, AddLines(s1, order, entries[1..], valid).store);
      }
    }
  }

  /** The run creates one line per accepted entry, under consecutive ids in
      entry order. */
  lemma {:induction false} AddLinesAt(s: Store, order: nat, entries: seq<LineRequest>, valid: LineRequest -> bool)
    requires Below(s.items, s.next.item)
    ensures var r := AddLines(s, order, entries, valid);
      LinesFrom(r.store, s.next.item, order, entries, r.count) && AllAccepted(s, entries, r.count, valid)
    decreases |entries|
  {
    if entries != [] {
      var e := entries[0];
      if Acceptable(s, e, valid) && !LineTaken(s.items, order, e.productInfo) {
        var s1 := AddLine(s, order, e);
        var r1 := AddLines(s1, order, entries[1..], valid);
        AddLinesKeeps(s1, order, entries[1..], valid);
        AddLinesAt(s1, order, entries[1..], valid);
        AddedStep(s, s1, r1.store, order, entries, r1.count, valid);
      }
    }
  }

  /** A run that stops does so at the entry after the last line it created,
      for the reason it reports. */
  lemma {:induction false} AddLinesStop(s: Store, order: nat, entries: seq<LineRequest>, valid: LineRequest -> bool)
    ensures var r := AddLines(s, order, entries, valid);
      r.stop.Some? ==> r.count < |entries| && StopsAt(r.store, order, entries[r.count], valid, r.stop.value)
    decreases |entries|
  {
    if entries != [] {
      var e := entries[0];
      if Acceptable(s, e, valid) && !LineTaken(s.items, order, e.productInfo) {
        var s1 := AddLine(s, order, e);
        var r1 := AddLines(s1, order, entries[1..], valid);
        AddLinesStop(s1, order, entries[1..], valid);
        if r1.stop.Some? {
          assert entries[1..][r1.count] == entries[r1.count + 1];
        }
      }
    }
  }

  /** The first line and the lines of the rest together are the lines of all
      the entries. */
  lemma AddedStep(s: Store, s1: Store, t: Store, order: nat, entries: seq<LineRequest>, n: nat, valid: LineRequest -> bool)
    requires |entries| > 0 && entries[0].productInfo >= 0 && entries[0].quantity >= 0
    requires s1 == AddLine(s, order, entries[0]) && Acceptable(s, entries[0], valid)
    requires SubMap(s1.items, t.items) && s1.infos == s.infos
    requires LinesFrom(t, s1.next.item, order, entries[1..], n) && AllAccepted(s1, entries[1..], n, valid)
    ensures LinesFrom(t, s.next.item, order, entries, n + 1) && AllAccepted(s, entries, n + 1, valid)
  {
    assert LineOf(s1, s.next.item, order, entries[0]);
    forall i | 0 <= i < n + 1
      ensures LineOf(t, s.next.item + i, order, entries[i]) && Acceptable(s, entries[i], valid)
    {
      if i > 0 {
        assert entries[1..][i - 1] == entries[i];
        assert LineOf(t, s1.next.item + (i - 1), order, entries[1..][i - 1]);
        assert Acceptable(s1, entries[1..][i - 1], valid);
      }
    }
  }

  /** A new line of an existing order and listing, for a listing the order
      does not have yet, keeps the store consistent. */
  /** A new line of a stored order and listing, for a listing the order
      does not have yet, keeps the lines' own rules. */
  lemma AddLineKeepsRules(s: Store, order: nat, e: LineRequest)
    requires e.productInfo >= 0 && e.quantity >= 0 && order in s.orders && e.productInfo in s.infos
    requires !LineTaken(s.items, order, e.productInfo)
    requires Below(s.items, s.next.item) && LinesLinked(s.items, s.orders, s.infos) && UniqueLines(s.items)
    ensures var t := AddLine(s, order, e);
      Below(t.items, t.next.item) && LinesLinked(t.items, t.orders, t.infos) && UniqueLines(t.items)
  {
  }

  lemma AddLineValid(s: Store, order: nat, e: LineRequest, valid: LineRequest -> bool)
    requires Valid(s) && order in s.orders && Acceptable(s, e, valid) && !LineTaken(s.items, order, e.productInfo)
    ensures Valid(AddLine(s, order, e))
  {
    var t := AddLine(s, order, e);
    assert t == s.(items := t.items, next := s.next.(item := t.next.item));
    AddLineKeepsRules(s, order, e);
    LinesWriteValid(s, t);
  }

  lemma {:induction false} AddLinesValid(s: Store, order: nat, entries: seq<LineRequest>, valid: LineRequest -> bool)
    requires Valid(s) && order in s.orders
    ensures Valid(AddLines(s, order, entries, valid).store)
    decreases |entries|
  {
    if entries != [] {
      var e := entries[0];
      if Acceptable(s, e, valid) && !LineTaken(s.items, order, e.productInfo) {
        AddLineValid(s, order, e, valid);
        AddLinesValid(AddLine(s, order, e), order, entries[1..], valid);
      }
    }
  }

  /** `BasketView.post`.  `decode` stands for `load_json` (None when the text
      is not JSON); `now` is the clock reading for a new basket. */
  function BasketPost(s: Store, who: Principal, items: Option<string>, decode: string -> Option<seq<LineRequest>>,
                      valid: LineRequest -> bool, now: int): (h: Handled)
    ensures h.events == [] && h.reply != NoResponse
    ensures who.Anonymous? ==> h == Handled(s, Json(403, false, Error(NotAuthenticated)), [])
    ensures who.Member? && !Truthy(items) ==> h == Handled(s, Json(200, false, Error(MissingArguments)), [])
    ensures who.Member? && Truthy(items) && decode(items.value).None? ==> h == Handled(s, Json(200, false, Error(BadFormat)), [])
    ensures h.reply.Json? && h.reply.status ==>
      who.Member? && Truthy(items) && decode(items.value).Some? && h.reply == Json(200, true, Count(|decode(items.value).value|))
  {
    if who.Anonymous? then Handled(s, Json(403, false, Error(NotAuthenticated)), [])
    else if !Truthy(items) then Handled(s, Json(200, false, Error(MissingArguments)), [])
    else match decode(items.value)
      case None => Handled(s, Json(200, false, Error(BadFormat)), [])
      case Some(entries) =>
        match GetOrCreateBasket(s, who.id, now)
        case Failed(f) => Handled(s, Raised(f), [])
        case Got(s1, basket) =>
          var r := AddLines(s1, basket, entries, valid);
          match r.stop
          case None => Handled(r.store, Json(200, true, Count(r.count)), [])
          case Some(why) => Handled(r.store, Json(200, false, Error(why)), [])
  }

  /** On a consistent store a post always reaches the caller's basket; the
      lines it creates are the accepted entries, in order, under consecutive
      fresh ids, and they stay when a later entry is refused; the reported
      count is the number of lines created. */
  lemma BasketPostAdds(s: Store, user: nat, kind: UserType, text: string, decode: string -> Option<seq<LineRequest>>,
                       valid: LineRequest -> bool, now: int)
    requires Valid(s) && user in s.users && text != "" && decode(text).Some?
    ensures GetOrCreateBasket(s, user, now).Got?
    ensures var entries := decode(text).value;
      var g := GetOrCreateBasket(s, user, now);
      var h := BasketPost(s, Member(user, kind), Some(text), decode, valid, now);
      var r := AddLines(g.store, g.id, entries, valid);
      && Baskets(g.store.orders, user) == {g.id}
      && h.store == r.store
      && SubMap(s.items, h.store.items)
      && (forall k :: k in h.store.items && k !in s.items ==> g.store.next.item <= k < g.store.next.item + r.count)
      && LinesFrom(h.store, g.store.next.item, g.id, entries, r.count)
      && AllAccepted(s, entries, r.count, valid)
      && (h.reply.status <==> r.count == |entries|)
      && (h.reply.status ==> h.reply.body == Count(r.count))
      && (!h.reply.status ==> StopsAt(h.store, g.id, entries[r.count], valid, h.reply.body.kind))
  {
    GetOrCreateBasketValid(s, user, now);
    var g := GetOrCreateBasket(s, user, now);
    assert g.store.items == s.items && g.store.infos == s.infos;
    AddLinesKeeps(g.store, g.id, decode(text).value, valid);
    AddLinesAt(g.store, g.id, decode(text).value, valid);
    AddLinesStop(g.store, g.id, decode(text).value, valid);
  }

  lemma BasketPostValid(s: Store, who: Principal, items: Option<string>, decode: string -> Option<seq<LineRequest>>,
                        valid: LineRequest -> bool, now: int)
    requires Valid(s)
    ensures Valid(BasketPost(s, who, items, decode, valid, now).store)
  {
    if who.Member? && Truthy(items) && decode(items.value).Some? && who.id in s.users {
      GetOrCreateBasketValid(s, who.id, now);
      var g := GetOrCreateBasket(s, who.id, now);
      AddLinesValid(g.store, g.id, decode(items.value).value, valid);
    }
  }

  // ----- updating quantities (put) ----------------------------------------------------------

  /** One entry of the `items` array of `BasketView.put`: its `id` and
      `quantity` fields as decoded from JSON. */
  datatype UpdateEntry = UpdateEntry(id: JsonField, quantity: JsonField)

  /** The entry names a line of the basket and carries an int quantity:
      `filter(order_id=basket, id=...).update(...)` matches one row. */
  predicate Matches(items: map<nat, OrderItem>, basket: nat, e: UpdateEntry) {
    e.id.Int? && e.quantity.Int? && e.id.v >= 0 && e.id.v in items && items[e.id.v].order == basket
  }

  /** The lines updated, how many, and the exception that stopped the run. */
  datatype Updated = Updated(store: Store, count: nat, fault: Option<Fault>)

  /** The loop of `BasketView.put`.  Reading a missing `id`, or a missing
      `quantity` after an int `id`, raises KeyError; an entry whose fields
      are not both ints is skipped; a negative quantity for a matched line
      breaks the PositiveIntegerField check. */
  function UpdateLines(s: Store, basket: nat, entries: seq<UpdateEntry>): (r: Updated)
    ensures r.store.(items := s.items) == s && r.store.items.Keys == s.items.Keys
    ensures forall k :: k in s.items ==> r.store.items[k].(quantity := s.items[k].quantity) == s.items[k]
    ensures r.count <= |entries|
    decreases |entries|
  {
    if entries == [] then Updated(s, 0, None)
    else
      var e := entries[0];
      if e.id.Absent? || (e.id.Int? && e.quantity.Absent?) then Updated(s, 0, Some(KeyError))
      else if !Matches(s.items, basket, e) then UpdateLines(s, basket, entries[1..])
      else if e.quantity.v < 0 then Updated(s, 0, Some(IntegrityError(NonNegative)))
      else
        var k := e.id.v;
        var r := UpdateLines(s.(items := s.items[k := s.items[k].(quantity := e.quantity.v)]), basket, entries[1..]);
        Updated(r.store, r.count + 1, r.fault)
  }

  /** Reference definition: the entries that change a line, in order. */
  function Applied(items: map<nat, OrderItem>, basket: nat, entries: seq<UpdateEntry>): seq<UpdateEntry> {
    if entries == [] then []
    else (if Matches(items, basket, entries[0]) then [entries[0]] else []) + Applied(items, basket, entries[1..])
  }

  /** Reference definition: the quantity of line `k` once the entries ran,
      read from the last entry that names it, or `q` when none does. */
  function FinalQuantity(items: map<nat, OrderItem>, basket: nat, entries: seq<UpdateEntry>, k: nat, q: int): int {
    if entries == [] then q
    else
      var e := entries[|entries| - 1];
      if Matches(items, basket, e) && e.id.v == k then e.quantity.v
      else FinalQuantity(items, basket, entries[..|entries| - 1], k, q)
  }

  /** Reading from the back agrees with running from the front: the first
      entry only sets the starting quantity for the rest. */
  lemma {:induction false} FinalQuantityFront(items: map<nat, OrderItem>, basket: nat, entries: seq<UpdateEntry>, k: nat, q: int)
    requires |entries| > 0
    ensures FinalQuantity(items, basket, entries, k, q) ==
      FinalQuantity(items, basket, entries[1..], k, FinalQuantity(items, basket, [entries[0]], k, q))
    decreases |entries|
  {
    if |entries| > 1 {
      var front := entries[..|entries| - 1];
      assert entries[1..][..|entries[1..]| - 1] == front[1..];
      assert entries[1..][|entries[1..]| - 1] == entries[|entries| - 1];
      assert front[0] == entries[0];
      FinalQuantityFront(items, basket, front, k, q);
    } else {
      assert entries == [entries[0]];
    }
  }

  /** Only quantities change, keys and orders stay, so what matches does not
      change along the run. */
  predicate SameLines(a: map<nat, OrderItem>, b: map<nat, OrderItem>) {
    a.Keys == b.Keys && forall k :: k in a ==> b[k].order == a[k].order && b[k].productInfo == a[k].productInfo
  }

  lemma {:induction false} SameLinesApplied(a: map<nat, OrderItem>, b: map<nat, OrderItem>, basket: nat, entries: seq<UpdateEntry>)
    requires SameLines(a, b)
    ensures Applied(a, basket, entries) == Applied(b, basket, entries)
    decreases |entries|
  {
    if entries != [] {
      assert Matches(a, basket, entries[0]) == Matches(b, basket, entries[0]);
      SameLinesApplied(a, b, basket, entries[1..]);
    }
  }

  lemma {:induction false} SameLinesFinal(a: map<nat, OrderItem>, b: map<nat, OrderItem>, basket: nat,
                                          entries: seq<UpdateEntry>, k: nat, q: int)
    requires SameLines(a, b)
    ensures FinalQuantity(a, basket, entries, k, q) == FinalQuantity(b, basket, entries, k, q)
    decreases |entries|
  {
    if entries != [] {
      assert Matches(a, basket, entries[|entries| - 1]) == Matches(b, basket, entries[|entries| - 1]);
      SameLinesFinal(a, b, basket, entries[..|entries| - 1], k, q);
    }
  }

  /** A completed run updates exactly the matching entries: the count is the
      number of them, a line no entry names keeps its quantity, and a line
      named several times ends with the quantity of the last entry. */
  lemma {:induction false} UpdateLinesApplies(s: Store, basket: nat, entries: seq<UpdateEntry>)
    ensures var r := UpdateLines(s, basket, entries);
      r.fault.None? ==>
        && r.count == |Applied(s.items, basket, entries)|
        && forall k :: k in s.items ==> r.store.items[k].quantity == FinalQuantity(s.items, basket, entries, k, s.items[k].quantity)
    decreases |entries|
  {
    var r := UpdateLines(s, basket, entries);
    if entries != [] && r.fault.None? {
      var e := entries[0];
      var s1 := if Matches(s.items, basket, e) then s.(items := s.items[e.id.v := s.items[e.id.v].(quantity := e.quantity.v)]) else s;
      assert UpdateLines(s, basket, entries).store == UpdateLines(s1, basket, entries[1..]).store;
      UpdateLinesApplies(s1, basket, entries[1..]);
      assert SameLines(s.items, s1.items);
      SameLinesApplied(s.items, s1.items, basket, entries[1..]);
      forall k | k in s.items
        ensures r.store.items[k].quantity == FinalQuantity(s.items, basket, entries, k, s.items[k].quantity)
      {
        FinalQuantityFront(s.items, basket, entries, k, s.items[k].quantity);
        SameLinesFinal(s.items, s1.items, basket, entries[1..], k, s1.items[k].quantity);
        assert FinalQuantity(s.items, basket, [e], k, s.items[k].quantity) == s1.items[k].quantity by {
          assert [e][..0] == [];
        }
      }
    }
  }

  /** Only lines of the basket change; every other line, and every other
      table, stays as it was, failure or not. */
  lemma UpdateLinesScoped(s: Store, basket: nat, entries: seq<UpdateEntry>)
    ensures var r := UpdateLines(s, basket, entries);
      forall k :: k in s.items && s.items[k].order != basket ==> r.store.items[k] == s.items[k]
  {
    var r := UpdateLines(s, basket, entries);
    forall k | k in s.items && s.items[k].order != basket
      ensures r.store.items[k] == s.items[k]
    {
      UpdateLinesKeeps(s, basket, entries, k);
    }
  }

  lemma {:induction false} UpdateLinesKeeps(s: Store, basket: nat, entries: seq<UpdateEntry>, k: nat)
    requires k in s.items && s.items[k].order != basket
    ensures UpdateLines(s, basket, entries).store.items[k] == s.items[k]
    decreases |entries|
  {
    if entries != [] {
      var e := entries[0];
      if !(e.id.Absent? || (e.id.Int? && e.quantity.Absent?)) {
        if !Matches(s.items, basket, e) {
          UpdateLinesKeeps(s, basket, entries[1..], k);
        } else if e.quantity.v >= 0 {
          var s1 := s.(items := s.items[e.id.v := s.items[e.id.v].(quantity := e.quantity.v)]);
          UpdateLinesKeeps(s1, basket, entries[1..], k);
        }
      }
    }
  }

  /** Changing quantities to non-negative values keeps the store consistent. */
  lemma {:induction false} UpdateLinesValid(s: Store, basket: nat, entries: seq<UpdateEntry>)
    requires Valid(s)
    ensures Valid(UpdateLines(s, basket, entries).store)
    decreases |entries|
  {
    var r := UpdateLines(s, basket, entries);
    if entries != [] {
      var e := entries[0];
      if !(e.id.Absent? || (e.id.Int? && e.quantity.Absent?)) {
        if !Matches(s.items, basket, e) {
          UpdateLinesValid(s, basket, entries[1..]);
        } else if e.quantity.v >= 0 {
          var s1 := s.(items := s.items[e.id.v := s.items[e.id.v].(quantity := e.quantity.v)]);
          QuantityChangeValid(s, s1);
          UpdateLinesValid(s1, basket, entries[1..]);
        }
      }
    }
  }

  /** A store whose lines differ only in their quantities is as consistent. */
  lemma QuantityChangeValid(s: Store, t: Store)
    requires Valid(s) && t == s.(items := t.items) && SameLines(s.items, t.items)
    ensures Valid(t)
  {
    assert t == s.(items := t.items, next := s.next.(item := t.next.item));
    assert Below(t.items, t.next.item);
    assert LinesLinked(t.items, t.orders, t.infos);
    assert UniqueLines(t.items);
    LinesWriteValid(s, t);
  }

  /** `BasketView.put`.  `decode` stands for `load_json`. */
  function BasketPut(s: Store, who: Principal, items: Option<string>, decode: string -> Option<seq<UpdateEntry>>,
                     now: int): (h: Handled)
    ensures h.events == [] && h.reply != NoResponse
    ensures who.Anonymous? ==> h == Handled(s, Json(403, false, Error(NotAuthenticated)), [])
    ensures who.Member? && !Truthy(items) ==> h == Handled(s, Json(200, false, Error(MissingArguments)), [])
    ensures who.Member? && Truthy(items) && decode(items.value).None? ==> h == Handled(s, Json(200, false, Error(BadFormat)), [])
    ensures h.reply.Json? && h.reply.status ==> who.Member? && Truthy(items) && decode(items.value).Some?
  {
    if who.Anonymous? then Handled(s, Json(403, false, Error(NotAuthenticated)), [])
    else if !Truthy(items) then Handled(s, Json(200, false, Error(MissingArguments)), [])
    else match decode(items.value)
      case None => Handled(s, Json(200, false, Error(BadFormat)), [])
      case Some(entries) =>
        match GetOrCreateBasket(s, who.id, now)
        case Failed(f) => Handled(s, Raised(f), [])
        case Got(s1, basket) =>
          var r := UpdateLines(s1, basket, entries);
          match r.fault
          case None => Handled(r.store, Json(200, true, Count(r.count)), [])
          case Some(f) => Handled(r.store, Raised(f), [])
  }

  /** On a consistent store a put touches only lines of the caller's basket;
      when it completes it reports the number of matching entries and leaves
      each line with the quantity of the last entry naming it. */
  lemma BasketPutUpdates(s: Store, user: nat, kind: UserType, text: string, decode: string -> Option<seq<UpdateEntry>>, now: int)
    requires Valid(s) && user in s.users && text != "" && decode(text).Some?
    ensures var entries := decode(text).value;
      var g := GetOrCreateBasket(s, user, now);
      var h := BasketPut(s, Member(user, kind), Some(text), decode, now);
      && g.Got? && Baskets(g.store.orders, user) == {g.id}
      && h.store.items.Keys == s.items.Keys
      && (forall k :: k in s.items && s.items[k].order != g.id ==> h.store.items[k] == s.items[k])
      && (h.reply.Json? ==>
            && h.reply == Json(200, true, Count(|Applied(s.items, g.id, entries)|))
            && forall k :: k in s.items ==>
                 h.store.items[k].quantity == FinalQuantity(s.items, g.id, entries, k, s.items[k].quantity))
  {
    GetOrCreateBasketValid(s, user, now);
    var g := GetOrCreateBasket(s, user, now);
    assert g.store.items == s.items;
    UpdateLinesScoped(g.store, g.id, decode(text).value);
    UpdateLinesApplies(g.store, g.id, decode(text).value);
  }

  lemma BasketPutValid(s: Store, who: Principal, items: Option<string>, decode: string -> Option<seq<UpdateEntry>>, now: int)
    requires Valid(s)
    ensures Valid(BasketPut(s, who, items, decode, now).store)
  {
    if who.Member? && Truthy(items) && decode(items.value).Some? && who.id in s.users {
      GetOrCreateBasketValid(s, who.id, now);
      var g := GetOrCreateBasket(s, who.id, now);
      var r := UpdateLines(g.store, g.id, decode(items.value).value);
      assert BasketPut(s, who, items, decode, now).store == r.store;
      UpdateLinesValid(g.store, g.id, decode(items.value).value);
    }
  }

  // ----- deleting lines (delete) -------------------------------------------------------------

  /** The lines of the basket whose ids are in `ids`. */
  function LinesNamed(items: map<nat, OrderItem>, basket: nat, ids: set<nat>): set<nat> {
    set k | k in items && k in ids && items[k].order == basket
  }

  /** `OrderItem.objects.filter(query).delete()`: lines have nothing that
      cascades from them. */
  function DeleteLines(s: Store, gone: set<nat>): (r: Store)
    ensures r.(items := s.items) == s
    ensures SubMap(r.items, s.items)
    ensures forall k :: k in r.items <==> k in s.items && k !in gone
  {
    s.(items := map k | k in s.items && k !in gone :: s.items[k])
  }

  /** `BasketView.delete`.  The basket is looked up, and created, before the
      ids are filtered, so a list without a digit id can still create it. */
  function BasketDelete(s: Store, who: Principal, items: Option<string>, now: int): (h: Handled)
    ensures h.events == [] && h.reply != NoResponse
    ensures who.Anonymous? ==> h == Handled(s, Json(403, false, Error(NotAuthenticated)), [])
    ensures who.Member? && !Truthy(items) ==> h == Handled(s, Json(200, false, Error(MissingArguments)), [])
    ensures h.store.items.Keys <= s.items.Keys
  {
    if who.Anonymous? then Handled(s, Json(403, false, Error(NotAuthenticated)), [])
    else if !Truthy(items) then Handled(s, Json(200, false, Error(MissingArguments)), [])
    else
      var ids := DigitIds(Split(items.value, ','));
      match GetOrCreateBasket(s, who.id, now)
      case Failed(f) => Handled(s, Raised(f), [])
      case Got(s1, basket) =>
        if ids == {} then Handled(s1, Json(200, false, Error(MissingArguments)), [])
        else
          var gone := LinesNamed(s1.items, basket, ids);
          Handled(DeleteLines(s1, gone), Json(200, true, Count(|gone|)), [])
  }

  /** On a consistent store a delete removes exactly the lines of the
      caller's basket whose ids the list writes as digit pieces, and reports
      how many it removed; a list with no digit piece removes nothing and is
      refused. */
  lemma BasketDeleteScoped(s: Store, user: nat, kind: UserType, text: string, now: int)
    requires Valid(s) && user in s.users && text != ""
    ensures GetOrCreateBasket(s, user, now).Got?
    ensures var g := GetOrCreateBasket(s, user, now);
      Baskets(g.store.orders, user) == {g.id}
    ensures var g := GetOrCreateBasket(s, user, now);
      var h := BasketDelete(s, Member(user, kind), Some(text), now);
      && h.store.items.Keys <= s.items.Keys
      && forall k :: k in s.items ==> (k !in h.store.items <==> s.items[k].order == g.id && Listed(Split(text, ','), k))
    ensures BasketDelete(s, Member(user, kind), Some(text), now).reply.Json?
    ensures var pieces := Split(text, ',');
      BasketDelete(s, Member(user, kind), Some(text), now).reply.status
      <==> exists i :: 0 <= i < |pieces| && IsDigits(pieces[i])
    ensures var h := BasketDelete(s, Member(user, kind), Some(text), now);
      h.reply.status ==> h.reply.body == Count(|s.items.Keys - h.store.items.Keys|)
    ensures var h := BasketDelete(s, Member(user, kind), Some(text), now);
      !h.reply.status ==> h.store.items == s.items && h.reply == Json(200, false, Error(MissingArguments))
  {
    GetOrCreateBasketValid(s, user, now);
    var g := GetOrCreateBasket(s, user, now);
    var ids := DigitIds(Split(text, ','));
    var pieces := Split(text, ',');
    var h := BasketDelete(s, Member(user, kind), Some(text), now);
    assert g.store.items == s.items;
    if ids != {} {
      var gone := LinesNamed(g.store.items, g.id, ids);
      DeleteNamed(g.store, g.id, ids);
      assert h == Handled(DeleteLines(g.store, gone), Json(200, true, Count(|gone|)), []);
      var i :| 0 <= i < |pieces| && IsDigits(pieces[i]);
      assert IsDigits(Split(text, ',')[i]);
    } else {
      assert h == Handled(g.store, Json(200, false, Error(MissingArguments)), []);
      assert forall i :: 0 <= i < |pieces| ==> !IsDigits(pieces[i]);
    }
  }

  /** Deleting the basket's lines named in `ids` removes exactly those, and
      their number is the number of rows that go. */
  lemma DeleteNamed(s: Store, basket: nat, ids: set<nat>)
    ensures var gone := LinesNamed(s.items, basket, ids); var t := DeleteLines(s, gone);
      && (forall k :: k in s.items ==> (k !in t.items <==> s.items[k].order == basket && k in ids))
      && s.items.Keys - t.items.Keys == gone
  {
  }

  lemma BasketDeleteValid(s: Store, who: Principal, items: Option<string>, now: int)
    requires Valid(s)
    ensures Valid(BasketDelete(s, who, items, now).store)
  {
    if who.Member? && Truthy(items) && who.id in s.users {
      GetOrCreateBasketValid(s, who.id, now);
      var g := GetOrCreateBasket(s, who.id, now);
      var gone := LinesNamed(g.store.items, g.id, DigitIds(Split(items.value, ',')));
      DeleteLinesValid(g.store, gone);
    }
  }

  lemma DeleteLinesValid(s: Store, gone: set<nat>)
    requires Valid(s)
    ensures Valid(DeleteLines(s, gone))
  {
    var t := DeleteLines(s, gone);
    assert Below(t.items, t.next.item);
    assert Fresh(t);
    assert LinesLinked(t.items, t.orders, t.infos);
    assert Linked(t);
    assert UniqueLines(t.items);
    assert Unique(t);
  }

  // ----- totals (get) -----------------------------------------------------------------

  /** The price of a line's listing; a line always has one in a consistent store. */
  function LinePrice(s: Store, k: nat): nat
    requires k in s.items
  {
    var info := s.items[k].productInfo;
    if info in s.infos then s.infos[info].price else 0
  }

  /** Σ quantity × price over the lines of `order` with ids below `n`. */
  function LineSum(s: Store, order: nat, n: nat): nat {
    if n == 0 then 0
    else
      var k := n - 1;
      LineSum(s, order, k) + (if k in s.items && s.items[k].order == order then s.items[k].quantity * LinePrice(s, k) else 0)
  }

  /** The order has at least one line. */
  function HasLines(items: map<nat, OrderItem>, order: nat): bool {
    exists k :: k in items && items[k].order == order
  }

  /** The `total_sum` annotation: SQL's Sum over the order's lines, which is
      NULL for an order without lines. */
  function Total(s: Store, order: nat): (r: Option<nat>)
    ensures r.None? <==> !HasLines(s.items, order)
  {
    if HasLines(s.items, order) then Some(LineSum(s, order, s.next.item)) else None
  }

  /** A line under a fresh id leaves the sums below it alone. */
  lemma {:induction false} LineSumBelow(s: Store, t: Store, order: nat, line: OrderItem, n: nat)
    requires Below(s.items, s.next.item) && n <= s.next.item
    requires t.items == s.items[s.next.item := line] && t.infos == s.infos
    ensures LineSum(t, order, n) == LineSum(s, order, n)
  {
    if n > 0 {
      LineSumBelow(s, t, order, line, n - 1);
    }
  }

  /** A new line adds its quantity × price to its order's sum and nothing to
      any other order's. */
  lemma LineSumAdd(s: Store, t: Store, order: nat, line: OrderItem)
    requires Below(s.items, s.next.item)
    requires t.items == s.items[s.next.item := line] && t.infos == s.infos
    ensures LineSum(t, order, s.next.item + 1) == LineSum(s, order, s.next.item) +
      (if line.order == order then line.quantity * (if line.productInfo in s.infos then s.infos[line.productInfo].price else 0) else 0)
  {
    LineSumBelow(s, t, order, line, s.next.item);
  }

  /** After a post that completes on a consistent store, the basket's total
      is its old total plus quantity × price of every new line. */
  lemma {:induction false} AddLinesTotal(s: Store, order: nat, entries: seq<LineRequest>, valid: LineRequest -> bool)
    requires Below(s.items, s.next.item)
    ensures var r := AddLines(s, order, entries, valid);
      LineSum(r.store, order, r.store.next.item) == LineSum(s, order, s.next.item) + AddedValue(s, entries, r.count)
    decreases |entries|
  {
    var r := AddLines(s, order, entries, valid);
    if entries != [] {
      var e := entries[0];
      if Acceptable(s, e, valid) && !LineTaken(s.items, order, e.productInfo) {
        var s1 := AddLine(s, order, e);
        LineSumAdd(s, s1, order, OrderItem(order, e.productInfo, e.quantity));
        AddLinesTotal(s1, order, entries[1..], valid);
        AddedValueStep(s, s1, entries, r.count);
      }
    }
  }

  /** Σ quantity × price over the first `n` entries. */
  function AddedValue(s: Store, entries: seq<LineRequest>, n: nat): int
    requires n <= |entries|
  {
    if n == 0 then 0
    else
      var e := entries[n - 1];
      AddedValue(s, entries, n - 1) + e.quantity * (if e.productInfo in s.infos then s.infos[e.productInfo].price else 0)
  }

  lemma {:induction false} AddedValueStep(s: Store, s1: Store, entries: seq<LineRequest>, n: nat)
    requires 0 < n <= |entries| && s1.infos == s.infos
    ensures AddedValue(s, entries, n) ==
      entries[0].quantity * (if entries[0].productInfo in s.infos then s.infos[entries[0].productInfo].price else 0)
      + AddedValue(s1, entries[1..], n - 1)
  {
    if n > 1 {
      AddedValueStep(s, s1, entries, n - 1);
      assert entries[1..][n - 2] == entries[n - 1];
    }
  }

  /** The views' answer to a read: refused, or the orders shown with their totals. */
  datatype Listing = Denied(reply: Reply) | Shown(totals: map<nat, Option<nat>>)

  /** `BasketView.get`: the caller's baskets with their totals. */
  function BasketGet(s: Store, who: Principal): (r: Listing)
    ensures who.Anonymous? ==> r == Denied(Json(403, false, Error(NotAuthenticated)))
    ensures who.Member? ==> r.Shown? && r.totals.Keys == Baskets(s.orders, who.id)
    ensures r.Shown? ==> forall k :: k in r.totals ==> r.totals[k] == Total(s, k)
  {
    if who.Anonymous? then Denied(Json(403, false, Error(NotAuthenticated)))
    else Shown(map k | k in Baskets(s.orders, who.id) :: Total(s, k))
  }

  /** On a consistent store the caller sees at most one basket. */
  lemma BasketGetAtMostOne(s: Store, user: nat, kind: UserType)
    requires Valid(s)
    ensures |BasketGet(s, Member(user, kind)).totals| <= 1
  {
    var found := Baskets(s.orders, user);
    if |found| > 1 {
      var a, b := TwoOf(found);
    }
    assert BasketGet(s, Member(user, kind)).totals.Keys == found;
  }
}
