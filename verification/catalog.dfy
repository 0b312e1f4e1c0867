/** The partner price-list import: `PartnerUpdate.post` in
    orders/backend/views.py and its task twin `do_import_task` in
    orders/backend/tasks.py.  The feed arrives already fetched and parsed; the
    four steps are get-or-create of the shop, get-or-create of each category
    with the shop added to it, deletion of every listing of the shop, and one
    new listing per good with its parameters.  Nothing wraps the steps in a
    transaction, so an exception keeps every write made before it. */
module Catalog {
  import opened Common
  import opened Models

  datatype FeedCategory = FeedCategory(id: int, name: string)

  /** One entry of `goods`; `parameters` keeps the order of the YAML mapping. */
  datatype Good = Good(
    id: int, category: int, name: string, model: string,
    price: int, priceRrc: int, quantity: int,
    parameters: seq<(string, string)>)

  datatype Feed = Feed(shop: string, categories: seq<FeedCategory>, goods: seq<Good>)

  // ----- get-or-create of the master data ------------------------------------

  function ShopsNamed(shops: map<nat, Shop>, name: string, user: nat): set<nat> {
    set k | k in shops && shops[k].name == name && shops[k].user == Some(user)
  }

  predicate OwnsShop(shops: map<nat, Shop>, user: nat) {
    exists k :: k in shops && shops[k].user == Some(user)
  }

  /** `Shop.objects.get_or_create(name=..., user_id=...)`.  Creating a shop
      for a user who already owns one breaks the one-to-one `Shop.user`;
      creating one for a user id that names no user breaks its foreign key. */
  function GetOrCreateShop(s: Store, name: string, user: nat): (r: Got)
    ensures r.Got? ==> r.id in r.store.shops && r.store.shops[r.id].name == name && r.store.shops[r.id].user == Some(user)
    ensures r.Got? ==> r.store.(shops := s.shops, next := s.next) == s && r.store.next.(shop := s.next.shop) == s.next
    ensures r.Got? && ShopsNamed(s.shops, name, user) != {} ==> r.store == s
    ensures r.Failed? <==>
      || |ShopsNamed(s.shops, name, user)| > 1
      || (ShopsNamed(s.shops, name, user) == {} && (OwnsShop(s.shops, user) || user !in s.users))
    ensures r.Failed? && ShopsNamed(s.shops, name, user) == {} ==>
      r.fault == IntegrityError(if OwnsShop(s.shops, user) then ShopUserUnique else ForeignKey)
  {
    var found := ShopsNamed(s.shops, name, user);
    if |found| > 1 then Failed(MultipleObjectsReturned)
    else if found != {} then Got(s, TheOnly(found))
    else if OwnsShop(s.shops, user) then Failed(IntegrityError(ShopUserUnique))
    else if user !in s.users then Failed(IntegrityError(ForeignKey))
    else
      Got(s.(shops := s.shops[s.next.shop := Shop(name, None, Some(user), true)],
             next := s.next.(shop := s.next.shop + 1)),
          s.next.shop)
  }

  function ProductsNamed(products: map<nat, Product>, name: string, category: int): set<nat> {
    set k | k in products && products[k].name == name && products[k].category == category
  }

  /** `Product.objects.get_or_create(name=..., category_id=...)`; creating a
      product of an unknown category breaks its foreign key. */
  function GetOrCreateProduct(s: Store, name: string, category: int): (r: Got)
    ensures r.Got? ==> r.id in r.store.products && r.store.products[r.id].name == name && r.store.products[r.id].category == category
    ensures r.Got? ==> r.store.(products := s.products, next := s.next) == s && r.store.next.(product := s.next.product) == s.next
    ensures r.Got? && ProductsNamed(s.products, name, category) != {} ==> r.store == s
    ensures r.Failed? <==>
      |ProductsNamed(s.products, name, category)| > 1 || (ProductsNamed(s.products, name, category) == {} && category !in s.categories)
  {
    var found := ProductsNamed(s.products, name, category);
    if |found| > 1 then Failed(MultipleObjectsReturned)
    else if found != {} then Got(s, TheOnly(found))
    else if category !in s.categories then Failed(IntegrityError(ForeignKey))
    else
      Got(s.(products := s.products[s.next.product := Product(name, category)],
             next := s.next.(product := s.next.product + 1)),
          s.next.product)
  }

  function ParametersNamed(parameters: map<nat, Parameter>, name: string): set<nat> {
    set k | k in parameters && parameters[k].name == name
  }

  /** `Parameter.objects.get_or_create(name=...)`; the name is not unique in
      the schema, so two rows of one name make the lookup raise. */
  function GetOrCreateParameter(s: Store, name: string): (r: Got)
    ensures r.Got? ==> r.id in r.store.parameters && r.store.parameters[r.id].name == name
    ensures r.Got? ==> r.store.(parameters := s.parameters, next := s.next) == s && r.store.next.(parameter := s.next.parameter) == s.next
    ensures r.Got? && ParametersNamed(s.parameters, name) != {} ==> r.store == s
    ensures r.Failed? <==> |ParametersNamed(s.parameters, name)| > 1
  {
    var found := ParametersNamed(s.parameters, name);
    if |found| > 1 then Failed(MultipleObjectsReturned)
    else if found != {} then Got(s, TheOnly(found))
    else
      Got(s.(parameters := s.parameters[s.next.parameter := Parameter(name)],
             next := s.next.(parameter := s.next.parameter + 1)),
          s.next.parameter)
  }

  /** A created shop takes a fresh id and leaves its owner with one shop. */
  lemma GetOrCreateShopValid(s: Store, name: string, user: nat)
    requires Valid(s)
    ensures var r := GetOrCreateShop(s, name, user);
      r.Got? ==> Valid(r.store) && SubMap(s.shops, r.store.shops)
  {
    var r := GetOrCreateShop(s, name, user);
    if r.Got? && r.store != s {
      var t := r.store;
      assert t == s.(shops := t.shops, next := t.next);
      assert t.shops == s.shops[s.next.shop := Shop(name, None, Some(user), true)];
      assert Fresh(t);
      assert CategoriesLinked(t.categories, t.shops);
      assert InfosLinked(t.infos, t.products, t.shops);
      assert OneShopPerUser(t.shops);
    }
  }

  /** A created product takes a fresh id and names an existing category. */
  lemma GetOrCreateProductValid(s: Store, name: string, category: int)
    requires Valid(s)
    ensures var r := GetOrCreateProduct(s, name, category);
      r.Got? ==> Valid(r.store) && SubMap(s.products, r.store.products)
  {
  }

  /** A created parameter takes a fresh id. */
  lemma GetOrCreateParameterValid(s: Store, name: string)
    requires Valid(s)
    ensures var r := GetOrCreateParameter(s, name);
      r.Got? ==> Valid(r.store) && SubMap(s.parameters, r.store.parameters)
  {
  }

  // ----- step 2: categories ---------------------------------------------------

  /** The feed category is stored under its id, with its name, and lists the shop. */
  predicate Attached(categories: map<int, Category>, c: FeedCategory, shop: nat) {
    c.id in categories && categories[c.id].name == c.name && shop in categories[c.id].shops
  }

  /** Every feed category agrees on its name with the stored category of the
      same id and with every other feed category of the same id. */
  predicate Agree(categories: map<int, Category>, cats: seq<FeedCategory>) {
    && (forall i :: 0 <= i < |cats| && cats[i].id in categories ==> categories[cats[i].id].name == cats[i].name)
    && (forall i, j :: 0 <= i < j < |cats| && cats[i].id == cats[j].id ==> cats[i].name == cats[j].name)
  }

  /** The shops a category lists, none for an id not in the table. */
  function ListedShops(categories: map<int, Category>, id: int): set<nat> {
    if id in categories then categories[id].shops else {}
  }

  /** Categories keep their ids, names and shops, and gain at most `shop`. */
  predicate CategoriesGrow(before: map<int, Category>, after: map<int, Category>, shop: nat) {
    && (forall id :: id in before ==> id in after && after[id].name == before[id].name)
    && (forall id :: id in after ==> ListedShops(before, id) <= after[id].shops <= ListedShops(before, id) + {shop})
  }

  lemma CategoriesGrowTrans(a: map<int, Category>, b: map<int, Category>, c: map<int, Category>, shop: nat)
    requires CategoriesGrow(a, b, shop) && CategoriesGrow(b, c, shop)
    ensures CategoriesGrow(a, c, shop)
  {
    forall id | id in c
      ensures ListedShops(a, id) <= c[id].shops <= ListedShops(a, id) + {shop}
    {
      assert ListedShops(a, id) <= ListedShops(b, id);
    }
  }

  /** `Category.objects.get_or_create(id=..., name=...)` then
      `shops.add(shop)`: an id already used under another name raises. */
  function AttachCategory(s: Store, shop: nat, c: FeedCategory): (r: Step)
    ensures r.fault.Some? <==> c.id in s.categories && s.categories[c.id].name != c.name
    ensures r.fault.Some? ==> r == Step(s, Some(IntegrityError(CategoryPrimaryKey)))
    ensures r.fault.None? ==>
      r.store == s.(categories := s.categories[c.id := Category(c.name, ListedShops(s.categories, c.id) + {shop})])
  {
    if c.id in s.categories && s.categories[c.id].name != c.name then
      Step(s, Some(IntegrityError(CategoryPrimaryKey)))
    else
      Step(s.(categories := s.categories[c.id := Category(c.name, ListedShops(s.categories, c.id) + {shop})]), None)
  }

  /** The feed's categories in order, stopping at the first clash. */
  function AttachCategories(s: Store, shop: nat, cats: seq<FeedCategory>): (r: Step)
    ensures r.store.(categories := s.categories) == s
    ensures CategoriesGrow(s.categories, r.store.categories, shop)
    ensures r.fault.None? <==> Agree(s.categories, cats)
    ensures r.fault.Some? ==> r.fault.value == IntegrityError(CategoryPrimaryKey)
    ensures r.fault.None? ==> forall i :: 0 <= i < |cats| ==> Attached(r.store.categories, cats[i], shop)
    decreases |cats|
  {
    if cats == [] then Step(s, None)
    else
      var r1 := AttachCategory(s, shop, cats[0]);
      if r1.fault.Some? then r1
      else
        var r := AttachCategories(r1.store, shop, cats[1..]);
        AttachStep(s, r1.store, r.store, shop, cats);
        r
  }

  /** Attaching the head and then the tail attaches the whole list. */
  lemma AttachStep(s: Store, s1: Store, t: Store, shop: nat, cats: seq<FeedCategory>)
    requires |cats| > 0
    requires s1 == s.(categories := s.categories[cats[0].id := Category(cats[0].name, ListedShops(s.categories, cats[0].id) + {shop})])
    requires !(cats[0].id in s.categories && s.categories[cats[0].id].name != cats[0].name)
    requires CategoriesGrow(s1.categories, t.categories, shop)
    requires Agree(s1.categories, cats[1..]) ==> forall i :: 0 <= i < |cats| - 1 ==> Attached(t.categories, cats[1..][i], shop)
    ensures CategoriesGrow(s.categories, t.categories, shop)
    ensures Agree(s1.categories, cats[1..]) <==> Agree(s.categories, cats)
    ensures Agree(s1.categories, cats[1..]) ==> forall i :: 0 <= i < |cats| ==> Attached(t.categories, cats[i], shop)
  {
    assert CategoriesGrow(s.categories, s1.categories, shop);
    CategoriesGrowTrans(s.categories, s1.categories, t.categories, shop);
    AgreeStep(s.categories, s1.categories, cats);
    if Agree(s1.categories, cats[1..]) {
      forall i | 0 <= i < |cats|
        ensures Attached(t.categories, cats[i], shop)
      {
        if i > 0 {
          assert cats[1..][i - 1] == cats[i];
        }
      }
    }
  }

  /** Categories only gain ids and existing shops, so the links into them stay valid. */
  lemma CategoriesGrowValid(s: Store, t: Store, shop: nat)
    requires Valid(s) && shop in s.shops
    requires t.(categories := s.categories) == s
    requires CategoriesGrow(s.categories, t.categories, shop)
    ensures Valid(t)
  {
    assert CategoriesLinked(t.categories, t.shops);
    assert ProductsLinked(t.products, t.categories);
  }

  /** Agreement of a list is agreement of its head with the store and of its
      tail with the store after the head is attached. */
  lemma AgreeStep(before: map<int, Category>, after: map<int, Category>, cats: seq<FeedCategory>)
    requires |cats| > 0
    requires before.Keys + {cats[0].id} == after.Keys
    requires forall id :: id in before && id != cats[0].id ==> after[id].name == before[id].name
    requires cats[0].id in after && after[cats[0].id].name == cats[0].name
    requires cats[0].id in before ==> before[cats[0].id].name == cats[0].name
    ensures Agree(after, cats[1..]) <==> Agree(before, cats)
  {
    var tail := cats[1..];
    if Agree(before, cats) {
      forall i | 0 <= i < |tail| && tail[i].id in after
        ensures after[tail[i].id].name == tail[i].name
      {
        assert tail[i] == cats[i + 1];
        if tail[i].id == cats[0].id {
          assert cats[0].name == cats[i + 1].name;
        }
      }
      forall i, j | 0 <= i < j < |tail| && tail[i].id == tail[j].id
        ensures tail[i].name == tail[j].name
      {
        assert tail[i] == cats[i + 1] && tail[j] == cats[j + 1];
      }
    }
    if Agree(after, tail) {
      forall i | 0 <= i < |cats| && cats[i].id in before
        ensures before[cats[i].id].name == cats[i].name
      {
        if i > 0 {
          assert cats[i] == tail[i - 1];
        }
      }
      forall i, j | 0 <= i < j < |cats| && cats[i].id == cats[j].id
        ensures cats[i].name == cats[j].name
      {
        assert cats[j] == tail[j - 1];
        if i > 0 {
          assert cats[i] == tail[i - 1];
        }
      }
    }
  }

  // ----- step 3: delete the shop's listings -----------------------------------

  function ShopInfos(infos: map<nat, ProductInfo>, shop: nat): set<nat> {
    set k | k in infos && infos[k].shop == shop
  }

  /** Deleting the listings `gone`, with the rows that cascade from them:
      their parameter rows and the order lines that refer to them. */
  function CascadeInfos(s: Store, gone: set<nat>): (r: Store)
    ensures r.(infos := s.infos, productParameters := s.productParameters, items := s.items) == s
    ensures forall k :: k in r.infos <==> k in s.infos && k !in gone
    ensures forall k :: k in s.productParameters ==>
      (k in r.productParameters <==> s.productParameters[k].productInfo !in gone)
    ensures forall k :: k in s.items ==> (k in r.items <==> s.items[k].productInfo !in gone)
    ensures SubMap(r.infos, s.infos) && SubMap(r.productParameters, s.productParameters) && SubMap(r.items, s.items)
  {
    s.(infos := s.infos - gone,
       productParameters := map k | k in s.productParameters && s.productParameters[k].productInfo !in gone :: s.productParameters[k],
       items := map k | k in s.items && s.items[k].productInfo !in gone :: s.items[k])
  }

  /** The cascade removes rows only, and every row left still finds what it
      refers to: a parameter row or line whose listing goes, goes with it. */
  lemma CascadeKeepsLinks(s: Store, gone: set<nat>)
    requires InfosLinked(s.infos, s.products, s.shops)
    requires ParameterRowsLinked(s.productParameters, s.infos, s.parameters)
    requires LinesLinked(s.items, s.orders, s.infos)
    ensures var r := CascadeInfos(s, gone);
      && InfosLinked(r.infos, r.products, r.shops)
      && ParameterRowsLinked(r.productParameters, r.infos, r.parameters)
      && LinesLinked(r.items, r.orders, r.infos)
  {
  }

  /** Removing rows keeps ids below their sequences and keys unique. */
  lemma CascadeKeepsKeys(s: Store, gone: set<nat>)
    requires Below(s.infos, s.next.info) && Below(s.productParameters, s.next.productParameter) && Below(s.items, s.next.item)
    requires UniqueInfoKeys(s.infos) && UniqueParameterRows(s.productParameters) && UniqueLines(s.items)
    ensures var r := CascadeInfos(s, gone);
      && Below(r.infos, r.next.info) && Below(r.productParameters, r.next.productParameter) && Below(r.items, r.next.item)
      && UniqueInfoKeys(r.infos) && UniqueParameterRows(r.productParameters) && UniqueLines(r.items)
  {
  }

  lemma CascadeInfosValid(s: Store, gone: set<nat>)
    requires Valid(s)
    ensures Valid(CascadeInfos(s, gone))
  {
    var r := CascadeInfos(s, gone);
    assert r == s.(infos := r.infos, productParameters := r.productParameters, items := r.items,
                   next := s.next.(info := r.next.info, productParameter := r.next.productParameter, item := r.next.item));
    CascadeKeepsLinks(s, gone);
    CascadeKeepsKeys(s, gone);
    ListingsWriteValid(s, r);
  }

  /** `ProductInfo.objects.filter(shop_id=shop).delete()`: the listings go,
      and the cascade takes their parameter rows and every order line that
      refers to them, whatever the state of the order. */
  function DeleteShopInfos(s: Store, shop: nat): (r: Store)
    ensures r.(infos := s.infos, productParameters := s.productParameters, items := s.items) == s
    ensures forall k :: k in r.infos <==> k in s.infos && s.infos[k].shop != shop
    ensures forall k :: k in s.productParameters ==>
      (k in r.productParameters <==> s.productParameters[k].productInfo !in ShopInfos(s.infos, shop))
    ensures forall k :: k in s.items ==> (k in r.items <==> s.items[k].productInfo !in ShopInfos(s.infos, shop))
    ensures SubMap(r.infos, s.infos) && SubMap(r.productParameters, s.productParameters) && SubMap(r.items, s.items)
  {
    CascadeInfos(s, ShopInfos(s.infos, shop))
  }

  // ----- step 4: the goods --------------------------------------------------------

  /** Parameter row `k` links listing `info` to a parameter named `kv.0` with value `kv.1`. */
  predicate ParamRow(s: Store, k: nat, info: nat, kv: (string, string)) {
    && k in s.productParameters
    && s.productParameters[k].productInfo == info
    && s.productParameters[k].value == kv.1
    && s.productParameters[k].parameter in s.parameters
    && s.parameters[s.productParameters[k].parameter].name == kv.0
  }

  /** Rows `base`, `base + 1`, ... hold the parameters of `info`, in order. */
  predicate ParamsAt(s: Store, base: nat, info: nat, params: seq<(string, string)>) {
    forall j :: 0 <= j < |params| ==> ParamRow(s, base + j, info, params[j])
  }

  /** Only the catalog tables and their sequences change. */
  predicate CatalogFrame(s: Store, t: Store) {
    && t.(products := s.products, infos := s.infos, parameters := s.parameters,
          productParameters := s.productParameters, next := s.next) == s
    && t.next.(product := s.next.product, info := s.next.info, parameter := s.next.parameter,
               productParameter := s.next.productParameter) == s.next
  }

  /** The catalog tables only grow, and their sequences only advance. */
  predicate CatalogGrows(s: Store, t: Store) {
    && SubMap(s.products, t.products) && SubMap(s.infos, t.infos)
    && SubMap(s.parameters, t.parameters) && SubMap(s.productParameters, t.productParameters)
    && s.next.product <= t.next.product && s.next.info <= t.next.info
    && s.next.parameter <= t.next.parameter && s.next.productParameter <= t.next.productParameter
  }

  function ParameterRowTaken(pps: map<nat, ProductParameter>, info: nat, parameter: nat): bool {
    exists k :: k in pps && pps[k].productInfo == info && pps[k].parameter == parameter
  }

  /** `ProductParameter.objects.create(...)` under the next id. */
  function AddParamRow(s: Store, info: nat, parameter: nat, value: string): (r: Store)
    ensures CatalogFrame(s, r)
    ensures r.products == s.products && r.infos == s.infos && r.parameters == s.parameters
    ensures r.next == s.next.(productParameter := s.next.productParameter + 1)
    ensures r.productParameters == s.productParameters[s.next.productParameter := ProductParameter(info, parameter, value)]
  {
    s.(productParameters := s.productParameters[s.next.productParameter := ProductParameter(info, parameter, value)],
       next := s.next.(productParameter := s.next.productParameter + 1))
  }

  /** A parameter row of an existing listing and parameter, for a pair not
      yet taken, keeps the store consistent. */
  lemma AddParamRowValid(s: Store, info: nat, parameter: nat, value: string)
    requires Valid(s) && info in s.infos && parameter in s.parameters
    requires !ParameterRowTaken(s.productParameters, info, parameter)
    ensures Valid(AddParamRow(s, info, parameter, value)) && CatalogGrows(s, AddParamRow(s, info, parameter, value))
  {
    var r := AddParamRow(s, info, parameter, value);
    assert r == s.(infos := r.infos, productParameters := r.productParameters, items := r.items,
                   next := s.next.(info := r.next.info, productParameter := r.next.productParameter, item := r.next.item));
    AddParamRowKeepsRules(s, info, parameter, value);
    ListingsWriteValid(s, r);
  }

  /** The new row refers to a stored listing and parameter, takes a fresh
      id, and its pair is free. */
  lemma AddParamRowKeepsRules(s: Store, info: nat, parameter: nat, value: string)
    requires info in s.infos && parameter in s.parameters
    requires !ParameterRowTaken(s.productParameters, info, parameter)
    requires Below(s.productParameters, s.next.productParameter)
    requires ParameterRowsLinked(s.productParameters, s.infos, s.parameters) && UniqueParameterRows(s.productParameters)
    ensures var r := AddParamRow(s, info, parameter, value);
      && Below(r.productParameters, r.next.productParameter)
      && ParameterRowsLinked(r.productParameters, r.infos, r.parameters) && UniqueParameterRows(r.productParameters)
  {
  }

  /** One parameter of a good: get-or-create of its name, then
      `ProductParameter.objects.create(...)`. */
  function ImportParameter(s: Store, info: nat, kv: (string, string)): (r: Step)
    ensures CatalogFrame(s, r.store)
    ensures r.store.products == s.products && r.store.infos == s.infos && r.store.next.info == s.next.info
    ensures r.store.next.product == s.next.product
    ensures r.store.next.productParameter == s.next.productParameter + (if r.fault.None? then 1 else 0)
  {
    match GetOrCreateParameter(s, kv.0)
    case Failed(f) => Step(s, Some(f))
    case Got(s1, p) =>
      if ParameterRowTaken(s1.productParameters, info, p) then
        Step(s1, Some(IntegrityError(ProductParameterUnique)))
      else if info !in s1.infos then Step(s1, Some(IntegrityError(ForeignKey)))
      else Step(AddParamRow(s1, info, p, kv.1), None)
  }

  /** The parameters of one good, in order, stopping at the first exception. */
  function ImportParameters(s: Store, info: nat, params: seq<(string, string)>): (r: Step)
    ensures CatalogFrame(s, r.store)
    ensures r.store.products == s.products && r.store.infos == s.infos && r.store.next.info == s.next.info
    ensures r.store.next.product == s.next.product
    ensures s.next.productParameter <= r.store.next.productParameter <= s.next.productParameter + |params|
    ensures r.fault.None? ==> r.store.next.productParameter == s.next.productParameter + |params|
    decreases |params|
  {
    if params == [] then Step(s, None)
    else
      var r1 := ImportParameter(s, info, params[0]);
      if r1.fault.Some? then r1 else ImportParameters(r1.store, info, params[1..])
  }

  /** The parameter rows in `t` that are not in `s` take fresh ids and
      belong to listing `info`. */
  predicate AddsParamsOf(s: Store, t: Store, info: nat) {
    forall k :: k in t.productParameters && k !in s.productParameters ==>
      s.next.productParameter <= k < t.next.productParameter && t.productParameters[k].productInfo == info
  }

  /** The parameter named `kv.0` and the store after its get-or-create. */
  lemma ImportParameterHead(s: Store, kv: (string, string), s1: Store, p: nat)
    requires Valid(s)
    requires GetOrCreateParameter(s, kv.0) == Got(s1, p)
    ensures Valid(s1) && CatalogGrows(s, s1) && p in s1.parameters && s1.parameters[p].name == kv.0
    ensures s1.infos == s.infos && s1.productParameters == s.productParameters
    ensures s1.next.productParameter == s.next.productParameter
  {
    GetOrCreateParameterValid(s, kv.0);
  }

  /** On a consistent store one parameter keeps it consistent and only adds rows. */
  lemma ImportParameterValid(s: Store, info: nat, kv: (string, string))
    requires Valid(s)
    ensures Valid(ImportParameter(s, info, kv).store) && CatalogGrows(s, ImportParameter(s, info, kv).store)
  {
    match GetOrCreateParameter(s, kv.0)
    case Failed(f) =>
    case Got(s1, p) =>
      ImportParameterHead(s, kv, s1, p);
      if !ParameterRowTaken(s1.productParameters, info, p) && info in s1.infos {
        AddParamRowValid(s1, info, p, kv.1);
        GrowsTrans(s, s1, AddParamRow(s1, info, p, kv.1));
      }
  }

  /** After a successful parameter its row is under the next id. */
  lemma ImportParameterRow(s: Store, info: nat, kv: (string, string))
    ensures var r := ImportParameter(s, info, kv);
      r.fault.None? ==> ParamRow(r.store, s.next.productParameter, info, kv)
  {
  }

  lemma {:induction false} ImportParametersValid(s: Store, info: nat, params: seq<(string, string)>)
    requires Valid(s)
    ensures Valid(ImportParameters(s, info, params).store) && CatalogGrows(s, ImportParameters(s, info, params).store)
    decreases |params|
  {
    if params != [] {
      var r1 := ImportParameter(s, info, params[0]);
      ImportParameterValid(s, info, params[0]);
      if r1.fault.None? {
        ImportParametersValid(r1.store, info, params[1..]);
        GrowsTrans(s, r1.store, ImportParameters(r1.store, info, params[1..]).store);
      }
    }
  }

  /** The parameter tables' ids are below their sequences: what parameters
      need so that creating rows never overwrites one. */
  predicate ParamsFresh(s: Store) {
    Below(s.parameters, s.next.parameter) && Below(s.productParameters, s.next.productParameter)
  }

  /** One parameter only adds rows, under fresh ids. */
  lemma ImportParameterGrows(s: Store, info: nat, kv: (string, string))
    requires ParamsFresh(s)
    ensures ParamsFresh(ImportParameter(s, info, kv).store) && CatalogGrows(s, ImportParameter(s, info, kv).store)
  {
    GetOrCreateParameterGrows(s, kv.0);
    match GetOrCreateParameter(s, kv.0)
    case Failed(f) =>
    case Got(s1, p) =>
      if !ParameterRowTaken(s1.productParameters, info, p) && info in s1.infos {
        var t := AddParamRow(s1, info, p, kv.1);
        assert ParamsFresh(t) && CatalogGrows(s1, t);
        GrowsTrans(s, s1, t);
      }
  }

  /** The parameter lookup creates, if anything, a row under a fresh id. */
  lemma GetOrCreateParameterGrows(s: Store, name: string)
    requires ParamsFresh(s)
    ensures var r := GetOrCreateParameter(s, name);
      r.Got? ==> ParamsFresh(r.store) && CatalogGrows(s, r.store)
  {
    var r := GetOrCreateParameter(s, name);
    if r.Got? && r.store != s {
      var t := r.store;
      assert t == s.(parameters := t.parameters, next := t.next);
      assert t.parameters == s.parameters[s.next.parameter := Parameter(name)];
    }
  }

  lemma {:induction false} ImportParametersGrow(s: Store, info: nat, params: seq<(string, string)>)
    requires ParamsFresh(s)
    ensures ParamsFresh(ImportParameters(s, info, params).store) && CatalogGrows(s, ImportParameters(s, info, params).store)
    decreases |params|
  {
    if params != [] {
      var r1 := ImportParameter(s, info, params[0]);
      ImportParameterGrows(s, info, params[0]);
      if r1.fault.None? {
        ImportParametersGrow(r1.store, info, params[1..]);
        GrowsTrans(s, r1.store, ImportParameters(r1.store, info, params[1..]).store);
      }
    }
  }

  /** A successful parameter fills the next row and keeps the ids fresh. */
  lemma ImportParameterHeadAt(s: Store, info: nat, kv: (string, string))
    requires ParamsFresh(s)
    ensures var r := ImportParameter(s, info, kv);
      r.fault.None? ==> ParamsFresh(r.store) && ParamRow(r.store, s.next.productParameter, info, kv)
  {
    ImportParameterGrows(s, info, kv);
    ImportParameterRow(s, info, kv);
  }

  /** After a successful run the good's parameters fill consecutive rows, in order. */
  lemma {:induction false} ImportParametersAt(s: Store, info: nat, params: seq<(string, string)>)
    requires ParamsFresh(s)
    ensures var r := ImportParameters(s, info, params);
      r.fault.None? ==> ParamsAt(r.store, s.next.productParameter, info, params)
    decreases |params|
  {
    if params != [] {
      var r1 := ImportParameter(s, info, params[0]);
      ImportParameterHeadAt(s, info, params[0]);
      if r1.fault.None? {
        var r := ImportParameters(r1.store, info, params[1..]);
        assert ImportParameters(s, info, params) == r;
        ImportParametersAt(r1.store, info, params[1..]);
        ImportParametersGrow(r1.store, info, params[1..]);
        if r.fault.None? {
          ParamsAtStep(r1.store, r.store, s.next.productParameter, info, params);
        }
      }
    }
  }

  /** The rows of `a` under ids below `n` are still in `b`, unchanged. */
  predicate KeepsBelow<V(==)>(a: map<nat, V>, b: map<nat, V>, n: int) {
    forall k :: k in a && k < n ==> k in b && b[k] == a[k]
  }

  /** One parameter writes only its own row, under the next id. */
  lemma ImportParameterAdds(s: Store, info: nat, kv: (string, string))
    ensures var r := ImportParameter(s, info, kv);
      KeepsBelow(s.productParameters, r.store.productParameters, s.next.productParameter)
      && AddsParamsOf(s, r.store, info)
  {
  }

  /** The parameters of a good write only rows of its listing, under fresh
      ids, and leave the rows under older ids alone. */
  lemma {:induction false} ImportParametersAdds(s: Store, info: nat, params: seq<(string, string)>)
    ensures var r := ImportParameters(s, info, params);
      KeepsBelow(s.productParameters, r.store.productParameters, s.next.productParameter)
      && AddsParamsOf(s, r.store, info)
    decreases |params|
  {
    if params != [] {
      var r1 := ImportParameter(s, info, params[0]);
      ImportParameterAdds(s, info, params[0]);
      if r1.fault.None? {
        ImportParametersAdds(r1.store, info, params[1..]);
      }
    }
  }

  lemma GrowsTrans(a: Store, b: Store, c: Store)
    requires CatalogGrows(a, b) && CatalogGrows(b, c)
    ensures CatalogGrows(a, c)
  {
  }

  /** The first parameter's row, written before the rest, survives them. */
  lemma ParamsAtStep(s: Store, t: Store, base: nat, info: nat, params: seq<(string, string)>)
    requires |params| > 0
    requires ParamRow(s, base, info, params[0])
    requires SubMap(s.productParameters, t.productParameters) && SubMap(s.parameters, t.parameters)
    requires ParamsAt(t, base + 1, info, params[1..])
    ensures ParamsAt(t, base, info, params)
  {
    forall j | 0 <= j < |params|
      ensures ParamRow(t, base + j, info, params[j])
    {
      if j > 0 {
        assert params[1..][j - 1] == params[j];
      }
    }
  }

  /** The listing copies the good's fields, belongs to the shop, and points at
      a product with the good's name and category. */
  predicate Copies(s: Store, row: ProductInfo, g: Good, shop: nat) {
    && row.externalId == g.id && row.model == g.model
    && row.price == g.price && row.priceRrc == g.priceRrc && row.quantity == g.quantity
    && row.shop == shop
    && row.product in s.products
    && s.products[row.product].name == g.name && s.products[row.product].category == g.category
  }

  function InfoKeyTaken(infos: map<nat, ProductInfo>, product: nat, shop: nat, externalId: nat): bool {
    exists k :: k in infos && infos[k].product == product && infos[k].shop == shop && infos[k].externalId == externalId
  }

  /** The listing's product and shop exist and its key is free. */
  predicate InfoFits(s: Store, row: ProductInfo) {
    row.product in s.products && row.shop in s.shops
    && !InfoKeyTaken(s.infos, row.product, row.shop, row.externalId)
  }

  /** `ProductInfo.objects.create(...)` under the next id. */
  function AddInfo(s: Store, row: ProductInfo): (r: Store)
    ensures CatalogFrame(s, r)
    ensures r.products == s.products && r.parameters == s.parameters && r.productParameters == s.productParameters
    ensures r.next == s.next.(info := s.next.info + 1)
    ensures r.infos == s.infos[s.next.info := row]
  {
    s.(infos := s.infos[s.next.info := row], next := s.next.(info := s.next.info + 1))
  }

  /** A listing of an existing product and shop, under a free key, keeps the
      store consistent. */
  lemma AddInfoValid(s: Store, row: ProductInfo)
    requires Valid(s) && InfoFits(s, row)
    ensures Valid(AddInfo(s, row)) && CatalogGrows(s, AddInfo(s, row))
  {
    var r := AddInfo(s, row);
    assert r == s.(infos := r.infos, productParameters := r.productParameters, items := r.items,
                   next := s.next.(info := r.next.info, productParameter := r.next.productParameter, item := r.next.item));
    AddInfoKeepsRules(s, row);
    ListingsWriteValid(s, r);
  }

  /** The new listing refers to a stored product and shop, takes a fresh
      id, and its key is free; rows that referred to listings still do. */
  lemma AddInfoKeepsRules(s: Store, row: ProductInfo)
    requires InfoFits(s, row) && Below(s.infos, s.next.info)
    requires InfosLinked(s.infos, s.products, s.shops) && UniqueInfoKeys(s.infos)
    requires ParameterRowsLinked(s.productParameters, s.infos, s.parameters) && LinesLinked(s.items, s.orders, s.infos)
    ensures var r := AddInfo(s, row);
      && Below(r.infos, r.next.info) && InfosLinked(r.infos, r.products, r.shops) && UniqueInfoKeys(r.infos)
      && ParameterRowsLinked(r.productParameters, r.infos, r.parameters) && LinesLinked(r.items, r.orders, r.infos)
  {
  }

  /** One good: get-or-create its product, create its listing, then its
      parameters.  A negative number breaks a PositiveIntegerField check. */
  function ImportGood(s: Store, shop: nat, g: Good): (r: Step)
    ensures CatalogFrame(s, r.store)
    ensures s.next.info <= r.store.next.info <= s.next.info + 1
    ensures s.next.productParameter <= r.store.next.productParameter <= s.next.productParameter + |g.parameters|
    ensures r.fault.None? ==>
      && r.store.next.info == s.next.info + 1
      && r.store.next.productParameter == s.next.productParameter + |g.parameters|
  {
    match GetOrCreateProduct(s, g.name, g.category)
    case Failed(f) => Step(s, Some(f))
    case Got(s1, p) => AddListing(s1, p, shop, g)
  }

  /** The listing of good `g` for product `p`, then its parameters. */
  function AddListing(s: Store, p: nat, shop: nat, g: Good): (r: Step)
    ensures CatalogFrame(s, r.store) && r.store.products == s.products
    ensures s.next.info <= r.store.next.info <= s.next.info + 1
    ensures s.next.productParameter <= r.store.next.productParameter <= s.next.productParameter + |g.parameters|
    ensures r.fault.None? ==>
      && r.store.next.info == s.next.info + 1
      && r.store.next.productParameter == s.next.productParameter + |g.parameters|
  {
    if g.id < 0 || g.quantity < 0 || g.price < 0 || g.priceRrc < 0 then
      Step(s, Some(IntegrityError(NonNegative)))
    else if InfoKeyTaken(s.infos, p, shop, g.id) then
      Step(s, Some(IntegrityError(ProductInfoUnique)))
    else if shop !in s.shops then Step(s, Some(IntegrityError(ForeignKey)))
    else ImportParameters(AddInfo(s, ProductInfo(g.model, g.id, p, shop, g.quantity, g.price, g.priceRrc)), s.next.info, g.parameters)
  }

  /** The listing a good writes when every check passes. */
  function ListingOf(p: nat, shop: nat, g: Good): ProductInfo
    requires g.id >= 0 && g.quantity >= 0 && g.price >= 0 && g.priceRrc >= 0
  {
    ProductInfo(g.model, g.id, p, shop, g.quantity, g.price, g.priceRrc)
  }

  /** The listings in `t` that are not in `s` belong to `shop` and take
      fresh ids, and the new parameter rows belong to new listings. */
  predicate AddsInfosOf(s: Store, t: Store, shop: nat) {
    && (forall k :: k in t.infos && k !in s.infos ==> s.next.info <= k < t.next.info && t.infos[k].shop == shop)
    && (forall k :: k in t.productParameters && k !in s.productParameters ==>
          s.next.info <= t.productParameters[k].productInfo < t.next.info
          && s.next.productParameter <= k < t.next.productParameter)
  }

  /** One listing writes only itself, under the next id, and parameter rows
      of it, and leaves older rows alone. */
  lemma AddListingAdds(s: Store, p: nat, shop: nat, g: Good)
    ensures var r := AddListing(s, p, shop, g);
      && KeepsBelow(s.infos, r.store.infos, s.next.info)
      && KeepsBelow(s.productParameters, r.store.productParameters, s.next.productParameter)
      && AddsInfosOf(s, r.store, shop)
  {
    if ListingFits(s, p, shop, g) {
      var s2 := AddInfo(s, ListingOf(p, shop, g));
      var t := ImportParameters(s2, s.next.info, g.parameters).store;
      assert AddListing(s, p, shop, g).store == t;
      ImportParametersAdds(s2, s.next.info, g.parameters);
      assert t.infos == s.infos[s.next.info := ListingOf(p, shop, g)];
      assert t.next.info == s.next.info + 1;
    } else {
      AddListingRefused(s, p, shop, g);
    }
  }

  /** One good writes only its own listing, under the next id, and parameter
      rows of that listing, and leaves older rows alone. */
  lemma ImportGoodAdds(s: Store, shop: nat, g: Good)
    ensures var r := ImportGood(s, shop, g);
      && KeepsBelow(s.infos, r.store.infos, s.next.info)
      && KeepsBelow(s.productParameters, r.store.productParameters, s.next.productParameter)
      && AddsInfosOf(s, r.store, shop)
  {
    match GetOrCreateProduct(s, g.name, g.category)
    case Failed(f) =>
    case Got(s1, p) => AddListingAdds(s1, p, shop, g);
  }

  /** On a consistent store a listing of an existing product keeps it
      consistent and only adds catalog rows. */
  lemma AddListingValid(s: Store, p: nat, shop: nat, g: Good)
    requires Valid(s) && p in s.products
    ensures Valid(AddListing(s, p, shop, g).store) && CatalogGrows(s, AddListing(s, p, shop, g).store)
  {
    if ListingFits(s, p, shop, g) {
      AddListingWritesValid(s, p, shop, g);
    } else {
      AddListingRefused(s, p, shop, g);
    }
  }

  /** Every check before the listing is written passes. */
  predicate ListingFits(s: Store, p: nat, shop: nat, g: Good) {
    !(g.id < 0 || g.quantity < 0 || g.price < 0 || g.priceRrc < 0) && !InfoKeyTaken(s.infos, p, shop, g.id) && shop in s.shops
  }

  lemma AddListingRefused(s: Store, p: nat, shop: nat, g: Good)
    requires !ListingFits(s, p, shop, g)
    ensures AddListing(s, p, shop, g).store == s
  {
  }

  lemma AddListingWritesValid(s: Store, p: nat, shop: nat, g: Good)
    requires Valid(s) && p in s.products && ListingFits(s, p, shop, g)
    ensures Valid(AddListing(s, p, shop, g).store) && CatalogGrows(s, AddListing(s, p, shop, g).store)
  {
    var s2 := AddInfo(s, ListingOf(p, shop, g));
    AddInfoValid(s, ListingOf(p, shop, g));
    ParametersAfterValid(s, s2, s.next.info, g.parameters, AddListing(s, p, shop, g).store);
  }

  lemma ParametersAfterValid(s: Store, s2: Store, info: nat, params: seq<(string, string)>, t: Store)
    requires Valid(s2) && CatalogGrows(s, s2)
    requires t == ImportParameters(s2, info, params).store
    ensures Valid(t) && CatalogGrows(s, t)
  {
    ImportParametersValid(s2, info, params);
    GrowsTrans(s, s2, t);
  }

  /** On a consistent store one good keeps it consistent and only adds catalog rows. */
  lemma ImportGoodValid(s: Store, shop: nat, g: Good)
    requires Valid(s)
    ensures Valid(ImportGood(s, shop, g).store) && CatalogGrows(s, ImportGood(s, shop, g).store)
  {
    GetOrCreateProductValid(s, g.name, g.category);
    match GetOrCreateProduct(s, g.name, g.category)
    case Failed(f) =>
    case Got(s1, p) =>
      AddListingValid(s1, p, shop, g);
      GrowsTrans(s, s1, AddListing(s1, p, shop, g).store);
  }

  /** After a successful listing it sits under the next id, copies the good,
      and its parameters fill the next rows. */
  lemma AddListingCopies(s: Store, p: nat, shop: nat, g: Good)
    requires ParamsFresh(s) && p in s.products && s.products[p].name == g.name && s.products[p].category == g.category
    ensures var r := AddListing(s, p, shop, g);
      r.fault.None? ==>
        && s.next.info in r.store.infos
        && Copies(r.store, r.store.infos[s.next.info], g, shop)
        && ParamsAt(r.store, s.next.productParameter, s.next.info, g.parameters)
  {
    if !(g.id < 0 || g.quantity < 0 || g.price < 0 || g.priceRrc < 0) && !InfoKeyTaken(s.infos, p, shop, g.id) && shop in s.shops {
      var s2 := AddInfo(s, ListingOf(p, shop, g));
      assert AddListing(s, p, shop, g) == ImportParameters(s2, s.next.info, g.parameters);
      ImportParametersAt(s2, s.next.info, g.parameters);
    }
  }

  /** After a successful good its listing, under the next id, copies it and
      its parameters fill the next rows. */
  lemma ImportGoodCopies(s: Store, shop: nat, g: Good)
    requires ParamsFresh(s)
    ensures var r := ImportGood(s, shop, g);
      r.fault.None? ==>
        && s.next.info in r.store.infos
        && Copies(r.store, r.store.infos[s.next.info], g, shop)
        && ParamsAt(r.store, s.next.productParameter, s.next.info, g.parameters)
  {
    match GetOrCreateProduct(s, g.name, g.category)
    case Failed(f) =>
    case Got(s1, p) => AddListingCopies(s1, p, shop, g);
  }

  /** The catalog tables' ids are below their sequences. */
  predicate CatalogFresh(s: Store) {
    Below(s.products, s.next.product) && Below(s.infos, s.next.info) && ParamsFresh(s)
  }

  /** The product lookup creates, if anything, a row under a fresh id. */
  lemma GetOrCreateProductGrows(s: Store, name: string, category: int)
    requires CatalogFresh(s)
    ensures var r := GetOrCreateProduct(s, name, category);
      r.Got? ==> CatalogFresh(r.store) && CatalogGrows(s, r.store)
  {
    var r := GetOrCreateProduct(s, name, category);
    if r.Got? && r.store != s {
      var t := r.store;
      assert t == s.(products := t.products, next := t.next);
      assert t.products == s.products[s.next.product := Product(name, category)];
    }
  }

  lemma AddInfoGrows(s: Store, row: ProductInfo)
    requires CatalogFresh(s)
    ensures CatalogFresh(AddInfo(s, row)) && CatalogGrows(s, AddInfo(s, row))
  {
  }

  /** A listing only adds catalog rows, under fresh ids. */
  lemma AddListingGrows(s: Store, p: nat, shop: nat, g: Good)
    requires CatalogFresh(s)
    ensures CatalogFresh(AddListing(s, p, shop, g).store) && CatalogGrows(s, AddListing(s, p, shop, g).store)
  {
    if !(g.id < 0 || g.quantity < 0 || g.price < 0 || g.priceRrc < 0) && !InfoKeyTaken(s.infos, p, shop, g.id) && shop in s.shops {
      var s2 := AddInfo(s, ListingOf(p, shop, g));
      assert AddListing(s, p, shop, g) == ImportParameters(s2, s.next.info, g.parameters);
      AddInfoGrows(s, ListingOf(p, shop, g));
      ImportParametersGrow(s2, s.next.info, g.parameters);
      GrowsTrans(s, s2, AddListing(s, p, shop, g).store);
    }
  }

  /** One good only adds catalog rows, under fresh ids. */
  lemma ImportGoodGrows(s: Store, shop: nat, g: Good)
    requires CatalogFresh(s)
    ensures CatalogFresh(ImportGood(s, shop, g).store) && CatalogGrows(s, ImportGood(s, shop, g).store)
  {
    GetOrCreateProductGrows(s, g.name, g.category);
    match GetOrCreateProduct(s, g.name, g.category)
    case Failed(f) =>
    case Got(s1, p) =>
      AddListingGrows(s1, p, shop, g);
      GrowsTrans(s, s1, AddListing(s1, p, shop, g).store);
  }

  lemma {:induction false} ImportGoodsGrow(s: Store, shop: nat, goods: seq<Good>)
    requires CatalogFresh(s)
    ensures CatalogFresh(ImportGoods(s, shop, goods).store) && CatalogGrows(s, ImportGoods(s, shop, goods).store)
    decreases |goods|
  {
    if goods != [] {
      var r1 := ImportGood(s, shop, goods[0]);
      ImportGoodGrows(s, shop, goods[0]);
      if r1.fault.None? {
        ImportGoodsGrow(r1.store, shop, goods[1..]);
        GrowsTrans(s, r1.store, ImportGoods(r1.store, shop, goods[1..]).store);
      }
    }
  }

  /** Listing `info + i` copies good `i`, and the good's parameters fill the
      rows from `base` on after those of the goods before it. */
  predicate GoodAt(t: Store, info: nat, base: nat, goods: seq<Good>, i: nat, shop: nat)
    requires i < |goods|
  {
    && info + i in t.infos
    && Copies(t, t.infos[info + i], goods[i], shop)
    && ParamsAt(t, base + ParamOffset(goods, i), info + i, goods[i].parameters)
  }

  /** How many parameter rows the goods before good `i` create. */
  function ParamOffset(goods: seq<Good>, i: nat): nat
    requires i <= |goods|
  {
    if i == 0 then 0 else |goods[0].parameters| + ParamOffset(goods[1..], i - 1)
  }

  /** The goods in feed order, stopping at the first exception. */
  function ImportGoods(s: Store, shop: nat, goods: seq<Good>): (r: Step)
    ensures CatalogFrame(s, r.store)
    ensures s.next.info <= r.store.next.info <= s.next.info + |goods|
    ensures s.next.productParameter <= r.store.next.productParameter
    ensures r.fault.None? ==>
      && r.store.next.info == s.next.info + |goods|
      && r.store.next.productParameter == s.next.productParameter + ParamOffset(goods, |goods|)
    decreases |goods|
  {
    if goods == [] then Step(s, None)
    else
      var r1 := ImportGood(s, shop, goods[0]);
      if r1.fault.Some? then r1 else ImportGoods(r1.store, shop, goods[1..])
  }

  /** On a consistent store the goods keep it consistent and only add
      catalog rows. */
  lemma {:induction false} ImportGoodsValid(s: Store, shop: nat, goods: seq<Good>)
    requires Valid(s)
    ensures Valid(ImportGoods(s, shop, goods).store) && CatalogGrows(s, ImportGoods(s, shop, goods).store)
    decreases |goods|
  {
    if goods != [] {
      var r1 := ImportGood(s, shop, goods[0]);
      ImportGoodValid(s, shop, goods[0]);
      if r1.fault.None? {
        ImportGoodsValid(r1.store, shop, goods[1..]);
        GrowsTrans(s, r1.store, ImportGoods(r1.store, shop, goods[1..]).store);
      }
    }
  }

  /** Parameter row `k` of listing `p` lies in the block of rows that the
      good behind `p` fills, when the goods take listing ids from `info` and
      parameter row ids from `base` on. */
  predicate InBlock(info: int, base: int, goods: seq<Good>, p: int, k: int) {
    && info <= p < info + |goods|
    && base + ParamOffset(goods, p - info) <= k
    && k < base + ParamOffset(goods, p - info + 1)
  }

  /** The listings in `t` that are not in `s` belong to `shop` and take fresh
      ids; each new parameter row lies in the block of its listing's good. */
  predicate GoodsAdd(s: Store, t: Store, shop: nat, goods: seq<Good>) {
    && (forall k :: k in t.infos && k !in s.infos ==> s.next.info <= k < t.next.info && t.infos[k].shop == shop)
    && (forall k :: k in t.productParameters && k !in s.productParameters ==>
          InBlock(s.next.info, s.next.productParameter, goods, t.productParameters[k].productInfo, k))
  }

  /** The goods write only listings of this shop under fresh ids, and
      parameter rows of those listings, and leave older rows alone. */
  lemma {:induction false} ImportGoodsAdds(s: Store, shop: nat, goods: seq<Good>)
    ensures var r := ImportGoods(s, shop, goods);
      && KeepsBelow(s.infos, r.store.infos, s.next.info)
      && KeepsBelow(s.productParameters, r.store.productParameters, s.next.productParameter)
      && GoodsAdd(s, r.store, shop, goods)
    decreases |goods|
  {
    if goods != [] {
      var r1 := ImportGood(s, shop, goods[0]);
      ImportGoodAdds(s, shop, goods[0]);
      if r1.fault.None? {
        var r := ImportGoods(r1.store, shop, goods[1..]);
        ImportGoodsAdds(r1.store, shop, goods[1..]);
        BlocksStep(s, r1.store, r.store, shop, goods);
      }
    }
  }

  /** The first good's rows and the later goods' rows together lie in their blocks. */
  lemma BlocksStep(s: Store, s1: Store, t: Store, shop: nat, goods: seq<Good>)
    requires |goods| > 0
    requires s1.next.info == s.next.info + 1 && s1.next.info <= t.next.info
    requires s1.next.productParameter == s.next.productParameter + |goods[0].parameters|
    requires KeepsBelow(s.infos, s1.infos, s.next.info) && KeepsBelow(s1.infos, t.infos, s1.next.info)
    requires KeepsBelow(s.productParameters, s1.productParameters, s.next.productParameter)
    requires KeepsBelow(s1.productParameters, t.productParameters, s1.next.productParameter)
    requires AddsInfosOf(s, s1, shop) && GoodsAdd(s1, t, shop, goods[1..])
    ensures KeepsBelow(s.infos, t.infos, s.next.info)
    ensures KeepsBelow(s.productParameters, t.productParameters, s.next.productParameter)
    ensures GoodsAdd(s, t, shop, goods)
  {
    forall k | k in t.productParameters && k !in s.productParameters
      ensures InBlock(s.next.info, s.next.productParameter, goods, t.productParameters[k].productInfo, k)
    {
      if k in s1.productParameters {
        assert t.productParameters[k] == s1.productParameters[k];
      } else {
        var p := t.productParameters[k].productInfo;
        assert InBlock(s1.next.info, s1.next.productParameter, goods[1..], p, k);
        assert ParamOffset(goods, p - s.next.info) == |goods[0].parameters| + ParamOffset(goods[1..], p - s1.next.info);
        assert ParamOffset(goods, p - s.next.info + 1) == |goods[0].parameters| + ParamOffset(goods[1..], p - s1.next.info + 1);
      }
    }
    forall k | k in t.infos && k !in s.infos
      ensures s.next.info <= k < t.next.info && t.infos[k].shop == shop
    {
      if k in s1.infos {
        assert t.infos[k] == s1.infos[k];
      }
    }
  }

  /** After a successful run listing `next + i` copies good `i`, and its
      parameters fill the rows after those of the goods before it. */
  lemma {:induction false} ImportGoodsCopies(s: Store, shop: nat, goods: seq<Good>)
    requires CatalogFresh(s)
    ensures var r := ImportGoods(s, shop, goods);
      r.fault.None? ==> forall i :: 0 <= i < |goods| ==> GoodAt(r.store, s.next.info, s.next.productParameter, goods, i, shop)
    decreases |goods|
  {
    if goods != [] {
      var r1 := ImportGood(s, shop, goods[0]);
      ImportGoodGrows(s, shop, goods[0]);
      ImportGoodCopies(s, shop, goods[0]);
      if r1.fault.None? {
        var r := ImportGoods(r1.store, shop, goods[1..]);
        ImportGoodsCopies(r1.store, shop, goods[1..]);
        ImportGoodsGrow(r1.store, shop, goods[1..]);
        if r.fault.None? {
          GoodsSuccessStep(s, r1.store, r.store, shop, goods);
        }
      }
    }
  }

  /** The first good's listing and parameter rows survive the rest of the run. */
  lemma GoodsSuccessStep(s: Store, s1: Store, t: Store, shop: nat, goods: seq<Good>)
    requires |goods| > 0
    requires CatalogGrows(s1, t)
    requires s1.next.info == s.next.info + 1 && s.next.info in s1.infos
    requires s1.next.productParameter == s.next.productParameter + |goods[0].parameters|
    requires Copies(s1, s1.infos[s.next.info], goods[0], shop)
    requires ParamsAt(s1, s.next.productParameter, s.next.info, goods[0].parameters)
    requires forall i :: 0 <= i < |goods| - 1 ==> GoodAt(t, s1.next.info, s1.next.productParameter, goods[1..], i, shop)
    ensures forall i :: 0 <= i < |goods| ==> GoodAt(t, s.next.info, s.next.productParameter, goods, i, shop)
  {
    forall i | 0 <= i < |goods|
      ensures GoodAt(t, s.next.info, s.next.productParameter, goods, i, shop)
    {
      if i == 0 {
        FirstGoodKept(s1, t, s.next.info, s.next.productParameter, goods[0], shop);
      } else {
        assert GoodAt(t, s1.next.info, s1.next.productParameter, goods[1..], i - 1, shop);
        assert goods[1..][i - 1] == goods[i];
        assert s1.next.info + (i - 1) == s.next.info + i;
      }
    }
  }

  /** A listing and its parameter rows survive when the catalog only grows. */
  lemma FirstGoodKept(s: Store, t: Store, n: nat, base: nat, g: Good, shop: nat)
    requires CatalogGrows(s, t)
    requires n in s.infos && Copies(s, s.infos[n], g, shop)
    requires ParamsAt(s, base, n, g.parameters)
    ensures n in t.infos && Copies(t, t.infos[n], g, shop)
    ensures ParamsAt(t, base, n, g.parameters)
  {
    forall j | 0 <= j < |g.parameters|
      ensures ParamRow(t, base + j, n, g.parameters[j])
    {
      assert ParamRow(s, base + j, n, g.parameters[j]);
    }
  }

  // ----- the whole import ------------------------------------------------------------

  /** Steps 2 to 4 for a shop already resolved. */
  function ImportInto(s: Store, shop: nat, feed: Feed): (r: Step)
    ensures r.store.users == s.users && r.store.shops == s.shops
    ensures r.store.orders == s.orders && r.store.contacts == s.contacts
  {
    var r2 := AttachCategories(s, shop, feed.categories);
    if r2.fault.Some? then r2
    else ImportGoods(DeleteShopInfos(r2.store, shop), shop, feed.goods)
  }

  /** The four steps for the shop named in the feed and owned by `user`. */
  function Import(s: Store, user: nat, feed: Feed): (r: Step)
    ensures r.store.users == s.users && r.store.orders == s.orders && r.store.contacts == s.contacts
  {
    match GetOrCreateShop(s, feed.shop, user)
    case Failed(f) => Step(s, Some(f))
    case Got(s1, shop) => ImportInto(s1, shop, feed)
  }

  lemma ImportIntoValid(s: Store, shop: nat, feed: Feed)
    requires Valid(s) && shop in s.shops
    ensures Valid(ImportInto(s, shop, feed).store)
  {
    var r2 := AttachCategories(s, shop, feed.categories);
    CategoriesGrowValid(s, r2.store, shop);
    if r2.fault.None? {
      CascadeInfosValid(r2.store, ShopInfos(r2.store.infos, shop));
      ImportGoodsValid(DeleteShopInfos(r2.store, shop), shop, feed.goods);
    }
  }

  /** Whatever step raises, the import leaves a consistent store. */
  lemma ImportValid(s: Store, user: nat, feed: Feed)
    requires Valid(s)
    ensures Valid(Import(s, user, feed).store)
  {
    GetOrCreateShopValid(s, feed.shop, user);
    match GetOrCreateShop(s, feed.shop, user)
    case Failed(f) =>
    case Got(s1, shop) => ImportIntoValid(s1, shop, feed);
  }

  /** Some shop of `user` is named other than `name`. */
  predicate OwnsOtherShop(shops: map<nat, Shop>, user: nat, name: string) {
    exists k :: k in shops && shops[k].user == Some(user) && shops[k].name != name
  }

  /** On a consistent store the shop step raises exactly when the user
      already owns a shop under another name, and then the one-to-one owner
      is violated, or when the user id names no user, and then its foreign
      key is. */
  lemma ShopStepFails(s: Store, name: string, user: nat)
    requires Valid(s)
    ensures GetOrCreateShop(s, name, user).Failed? <==> OwnsOtherShop(s.shops, user, name) || user !in s.users
    ensures GetOrCreateShop(s, name, user).Failed? ==>
      GetOrCreateShop(s, name, user).fault == IntegrityError(if user in s.users then ShopUserUnique else ForeignKey)
    ensures GetOrCreateShop(s, name, user).Got? && ShopsNamed(s.shops, name, user) != {} ==>
      ShopsNamed(s.shops, name, user) == {GetOrCreateShop(s, name, user).id}
  {
    var found := ShopsNamed(s.shops, name, user);
    if found != {} {
      var a :| a in found;
      assert found == {a};
      assert !OwnsOtherShop(s.shops, user, name);
    } else if OwnsShop(s.shops, user) {
      var k :| k in s.shops && s.shops[k].user == Some(user);
      assert k !in found;
    }
  }

  /** The first step of the import, when the shop is found or created. */
  lemma ShopStep(s: Store, user: nat, feed: Feed, s1: Store, shop: nat)
    requires Valid(s)
    requires GetOrCreateShop(s, feed.shop, user) == Got(s1, shop)
    ensures Valid(s1) && shop in s1.shops && s1.shops[shop].user == Some(user) && s1.shops[shop].name == feed.shop
    ensures SubMap(s.shops, s1.shops) && s1.infos == s.infos && s1.items == s.items
    ensures s1.productParameters == s.productParameters && s1.categories == s.categories
    ensures s1.next.info == s.next.info && s1.next.productParameter == s.next.productParameter
    ensures forall k :: k in s.shops && s.shops[k].user != Some(user) ==> k != shop
  {
    GetOrCreateShopValid(s, feed.shop, user);
  }

  /** The store after steps 1 to 3, when the shop and category steps pass. */
  function Cleared(s1: Store, shop: nat, feed: Feed): Store {
    DeleteShopInfos(AttachCategories(s1, shop, feed.categories).store, shop)
  }

  /** After steps 1 to 3 the listings, parameter rows and order lines of other
      shops are as before, and the shop has no listing left. */
  lemma ClearedFacts(s: Store, s1: Store, shop: nat, feed: Feed)
    requires Valid(s1) && shop in s1.shops
    ensures var t := Cleared(s1, shop, feed);
      && Valid(t) && t.next == s1.next
      && t.products == s1.products && t.parameters == s1.parameters
      && (forall k :: k in t.infos <==> k in s1.infos && s1.infos[k].shop != shop)
      && SubMap(t.infos, s1.infos) && SubMap(t.productParameters, s1.productParameters) && SubMap(t.items, s1.items)
      && (forall k :: k in s1.productParameters ==>
            (k in t.productParameters <==> s1.productParameters[k].productInfo !in ShopInfos(s1.infos, shop)))
      && (forall k :: k in s1.items ==> (k in t.items <==> s1.items[k].productInfo !in ShopInfos(s1.infos, shop)))
  {
    var r2 := AttachCategories(s1, shop, feed.categories);
    CategoriesGrowValid(s1, r2.store, shop);
    CascadeInfosValid(r2.store, ShopInfos(r2.store.infos, shop));
  }

  /** The result of steps 1 to 4 when the shop and category steps pass. */
  lemma ImportShape(s: Store, user: nat, feed: Feed)
    requires Valid(s)
    requires GetOrCreateShop(s, feed.shop, user).Got?
    requires Agree(s.categories, feed.categories)
    ensures var g := GetOrCreateShop(s, feed.shop, user);
      Import(s, user, feed) == ImportGoods(Cleared(g.store, g.id, feed), g.id, feed.goods)
  {
  }

  /** A listing of a shop that `user` does not own survives the import, and
      so do its parameter rows and the order lines that refer to it. */
  lemma ImportKeepsOthersListing(s: Store, user: nat, feed: Feed, k: nat)
    requires Valid(s)
    requires k in s.infos && s.shops[s.infos[k].shop].user != Some(user)
    ensures k in Import(s, user, feed).store.infos && Import(s, user, feed).store.infos[k] == s.infos[k]
  {
    match GetOrCreateShop(s, feed.shop, user)
    case Failed(f) =>
    case Got(s1, shop) =>
      ShopStep(s, user, feed, s1, shop);
      if AttachCategories(s1, shop, feed.categories).fault.None? {
        var t := Cleared(s1, shop, feed);
        ClearedFacts(s, s1, shop, feed);
        ImportGoodsAdds(t, shop, feed.goods);
      }
  }

  /** A parameter row of a listing of a shop that `user` does not own
      survives the import. */
  lemma ImportKeepsOthersParameter(s: Store, user: nat, feed: Feed, k: nat)
    requires Valid(s)
    requires k in s.productParameters
    requires s.shops[s.infos[s.productParameters[k].productInfo].shop].user != Some(user)
    ensures k in Import(s, user, feed).store.productParameters
    ensures Import(s, user, feed).store.productParameters[k] == s.productParameters[k]
  {
    match GetOrCreateShop(s, feed.shop, user)
    case Failed(f) =>
    case Got(s1, shop) =>
      ShopStep(s, user, feed, s1, shop);
      if AttachCategories(s1, shop, feed.categories).fault.None? {
        var t := Cleared(s1, shop, feed);
        ClearedFacts(s, s1, shop, feed);
        ImportGoodsAdds(t, shop, feed.goods);
      }
  }

  /** An order line of a listing of a shop that `user` does not own survives
      the import. */
  lemma ImportKeepsOthersLine(s: Store, user: nat, feed: Feed, k: nat)
    requires Valid(s)
    requires k in s.items && s.shops[s.infos[s.items[k].productInfo].shop].user != Some(user)
    ensures k in Import(s, user, feed).store.items && Import(s, user, feed).store.items[k] == s.items[k]
  {
    match GetOrCreateShop(s, feed.shop, user)
    case Failed(f) =>
    case Got(s1, shop) =>
      ShopStep(s, user, feed, s1, shop);
      if AttachCategories(s1, shop, feed.categories).fault.None? {
        ClearedFacts(s, s1, shop, feed);
      }
  }

  /** Once the shop and category steps pass, every earlier listing of the
      shop is gone, with every order line that referred to it, whatever the
      order's state, and even when a later good raises. */
  lemma ImportDropsOldListings(s: Store, user: nat, feed: Feed, k: nat)
    requires Valid(s)
    requires GetOrCreateShop(s, feed.shop, user).Got? && Agree(s.categories, feed.categories)
    ensures var shop := GetOrCreateShop(s, feed.shop, user).id;
      && (k in s.infos && s.infos[k].shop == shop ==> k !in Import(s, user, feed).store.infos)
      && (k in s.items && s.infos[s.items[k].productInfo].shop == shop ==> k !in Import(s, user, feed).store.items)
  {
    var g := GetOrCreateShop(s, feed.shop, user);
    ShopStep(s, user, feed, g.store, g.id);
    ImportShape(s, user, feed);
    var t := Cleared(g.store, g.id, feed);
    ClearedFacts(s, g.store, g.id, feed);
    ImportGoodsAdds(t, g.id, feed.goods);
  }

  /** The goods add no listing of the shop but theirs: imported into a store
      with no listing of the shop, the shop's listings afterwards all carry
      the new ids. */
  lemma GoodsListOnlyNew(t: Store, shop: nat, goods: seq<Good>)
    requires Below(t.infos, t.next.info) && ShopInfos(t.infos, shop) == {}
    ensures var r := ImportGoods(t, shop, goods).store;
      forall k :: k in r.infos && r.infos[k].shop == shop ==> t.next.info <= k < r.next.info
  {
    var r := ImportGoods(t, shop, goods).store;
    ImportGoodsAdds(t, shop, goods);
    forall k | k in r.infos && r.infos[k].shop == shop
      ensures t.next.info <= k < r.next.info
    {
      assert k !in t.infos || k in ShopInfos(t.infos, shop);
    }
  }

  /** Every parameter row of a new listing lies in the block of its good. */
  lemma GoodsParamsInBlocks(t: Store, shop: nat, goods: seq<Good>)
    requires Below(t.infos, t.next.info) && Below(t.productParameters, t.next.productParameter)
    requires ParameterRowsLinked(t.productParameters, t.infos, t.parameters)
    ensures var r := ImportGoods(t, shop, goods).store;
      forall k :: k in r.productParameters && t.next.info <= r.productParameters[k].productInfo ==>
        InBlock(t.next.info, t.next.productParameter, goods, r.productParameters[k].productInfo, k)
  {
    ImportGoodsAdds(t, shop, goods);
  }

  /** Steps 1 to 3 of a successful import leave a consistent store with no
      listing of the shop, from which step 4 runs the goods. */
  lemma ImportStart(s: Store, user: nat, feed: Feed)
    requires Valid(s)
    requires Import(s, user, feed).fault.None?
    ensures GetOrCreateShop(s, feed.shop, user).Got?
    ensures var g := GetOrCreateShop(s, feed.shop, user); var t := Cleared(g.store, g.id, feed);
      && Valid(t) && ShopInfos(t.infos, g.id) == {}
      && t.next.info == s.next.info && t.next.productParameter == s.next.productParameter
      && g.id in t.shops && t.shops[g.id].name == feed.shop && t.shops[g.id].user == Some(user)
      && Import(s, user, feed) == ImportGoods(t, g.id, feed.goods)
  {
    var g := GetOrCreateShop(s, feed.shop, user);
    ShopStep(s, user, feed, g.store, g.id);
    ImportShape(s, user, feed);
    ClearedFacts(s, g.store, g.id, feed);
  }

  /** When the shop's listings all lie in the new id range and good `i` sits
      at listing `info + i`, the shop's listings are exactly that range. */
  lemma ListingsExactly(r: Store, info: nat, base: nat, shop: nat, goods: seq<Good>)
    requires forall k :: k in r.infos && r.infos[k].shop == shop ==> info <= k < info + |goods|
    requires forall i :: 0 <= i < |goods| ==> GoodAt(r, info, base, goods, i, shop)
    ensures forall k :: k in r.infos && r.infos[k].shop == shop <==> info <= k < info + |goods|
  {
    forall k | info <= k < info + |goods|
      ensures k in r.infos && r.infos[k].shop == shop
    {
      assert GoodAt(r, info, base, goods, k - info, shop);
    }
  }

  /** After a successful import the shop's listings are exactly one per good,
      under consecutive ids, each copying its good and holding its parameter
      rows in order. */
  lemma ImportListsGoods(s: Store, user: nat, feed: Feed)
    requires Valid(s)
    requires Import(s, user, feed).fault.None?
    ensures GetOrCreateShop(s, feed.shop, user).Got?
    ensures var shop := GetOrCreateShop(s, feed.shop, user).id; var r := Import(s, user, feed).store;
      && shop in r.shops && r.shops[shop].name == feed.shop && r.shops[shop].user == Some(user)
      && (forall k :: k in r.infos && r.infos[k].shop == shop <==> s.next.info <= k < s.next.info + |feed.goods|)
      && (forall i :: 0 <= i < |feed.goods| ==> GoodAt(r, s.next.info, s.next.productParameter, feed.goods, i, shop))
  {
    ImportStart(s, user, feed);
    var g := GetOrCreateShop(s, feed.shop, user);
    var t := Cleared(g.store, g.id, feed);
    var r := Import(s, user, feed).store;
    ImportGoodsCopies(t, g.id, feed.goods);
    GoodsListOnlyNew(t, g.id, feed.goods);
    ListingsExactly(r, s.next.info, s.next.productParameter, g.id, feed.goods);
  }

  /** After a successful import every parameter row of one of the new
      listings lies in the block of its good, which `GoodAt` fills: a
      listing has no rows but its good's. */
  lemma ImportListsOnlyGoodParameters(s: Store, user: nat, feed: Feed)
    requires Valid(s)
    requires Import(s, user, feed).fault.None?
    ensures var r := Import(s, user, feed).store;
      forall k :: k in r.productParameters && s.next.info <= r.productParameters[k].productInfo ==>
        InBlock(s.next.info, s.next.productParameter, feed.goods, r.productParameters[k].productInfo, k)
  {
    ImportStart(s, user, feed);
    var g := GetOrCreateShop(s, feed.shop, user);
    GoodsParamsInBlocks(Cleared(g.store, g.id, feed), g.id, feed.goods);
  }

  /** After a successful import every feed category is stored under its id
      and name and lists the shop. */
  lemma ImportAttachesCategories(s: Store, user: nat, feed: Feed)
    requires Valid(s)
    requires Import(s, user, feed).fault.None?
    ensures GetOrCreateShop(s, feed.shop, user).Got?
    ensures forall i :: 0 <= i < |feed.categories| ==>
      Attached(Import(s, user, feed).store.categories, feed.categories[i], GetOrCreateShop(s, feed.shop, user).id)
  {
  }

  // ----- re-import --------------------------------------------------------------------

  /** Every product and parameter name the goods ask for already exists. */
  predicate Known(products: map<nat, Product>, parameters: map<nat, Parameter>, goods: seq<Good>) {
    forall i :: 0 <= i < |goods| ==> KnownGood(products, parameters, goods[i])
  }

  predicate KnownGood(products: map<nat, Product>, parameters: map<nat, Parameter>, g: Good) {
    && ProductsNamed(products, g.name, g.category) != {}
    && forall j :: 0 <= j < |g.parameters| ==> ParametersNamed(parameters, g.parameters[j].0) != {}
  }

  /** Parameters of known names create no parameter. */
  lemma {:induction false} ImportParametersKnown(s: Store, info: nat, params: seq<(string, string)>)
    requires forall j :: 0 <= j < |params| ==> ParametersNamed(s.parameters, params[j].0) != {}
    ensures ImportParameters(s, info, params).store.parameters == s.parameters
    decreases |params|
  {
    if params != [] {
      var r1 := ImportParameter(s, info, params[0]);
      assert r1.store.parameters == s.parameters;
      if r1.fault.None? {
        ImportParametersKnown(r1.store, info, params[1..]);
      }
    }
  }

  /** A good of a known product and known parameter names creates neither. */
  lemma ImportGoodKnown(s: Store, shop: nat, g: Good)
    requires KnownGood(s.products, s.parameters, g)
    ensures ImportGood(s, shop, g).store.products == s.products
    ensures ImportGood(s, shop, g).store.parameters == s.parameters
  {
    match GetOrCreateProduct(s, g.name, g.category)
    case Failed(f) =>
    case Got(s1, p) =>
      assert s1 == s;
      if !(g.id < 0 || g.quantity < 0 || g.price < 0 || g.priceRrc < 0) && !InfoKeyTaken(s.infos, p, shop, g.id) && shop in s.shops {
        ImportParametersKnown(AddInfo(s, ListingOf(p, shop, g)), s.next.info, g.parameters);
      }
  }

  /** Goods of known products and parameter names create neither. */
  lemma {:induction false} ImportGoodsKnown(s: Store, shop: nat, goods: seq<Good>)
    requires Known(s.products, s.parameters, goods)
    ensures ImportGoods(s, shop, goods).store.products == s.products
    ensures ImportGoods(s, shop, goods).store.parameters == s.parameters
    decreases |goods|
  {
    if goods != [] {
      var r1 := ImportGood(s, shop, goods[0]);
      ImportGoodKnown(s, shop, goods[0]);
      if r1.fault.None? {
        assert ImportGoods(s, shop, goods) == ImportGoods(r1.store, shop, goods[1..]);
        assert forall i :: 0 <= i < |goods| - 1 ==> goods[1..][i] == goods[i + 1];
        ImportGoodsKnown(r1.store, shop, goods[1..]);
      }
    }
  }

  /** Attaching categories that are all attached already changes nothing. */
  lemma {:induction false} AttachCategoriesIdem(s: Store, shop: nat, cats: seq<FeedCategory>)
    requires forall i :: 0 <= i < |cats| ==> Attached(s.categories, cats[i], shop)
    ensures AttachCategories(s, shop, cats) == Step(s, None)
    decreases |cats|
  {
    if cats != [] {
      var c := cats[0];
      assert Attached(s.categories, c, shop);
      assert ListedShops(s.categories, c.id) + {shop} == s.categories[c.id].shops;
      assert s.categories[c.id := Category(c.name, ListedShops(s.categories, c.id) + {shop})] == s.categories;
      assert forall i :: 0 <= i < |cats| - 1 ==> cats[1..][i] == cats[i + 1];
      AttachCategoriesIdem(s, shop, cats[1..]);
    }
  }

  /** After a successful import every good's product and parameter names exist. */
  lemma ImportKnowsGoods(s: Store, user: nat, feed: Feed)
    requires Valid(s)
    requires Import(s, user, feed).fault.None?
    ensures Known(Import(s, user, feed).store.products, Import(s, user, feed).store.parameters, feed.goods)
  {
    var r := Import(s, user, feed).store;
    ImportListsGoods(s, user, feed);
    forall i | 0 <= i < |feed.goods|
      ensures KnownGood(r.products, r.parameters, feed.goods[i])
    {
      var g := feed.goods[i];
      assert GoodAt(r, s.next.info, s.next.productParameter, feed.goods, i, GetOrCreateShop(s, feed.shop, user).id);
      var row := r.infos[s.next.info + i];
      assert row.product in ProductsNamed(r.products, g.name, g.category);
      forall j | 0 <= j < |g.parameters|
        ensures ParametersNamed(r.parameters, g.parameters[j].0) != {}
      {
        var k := s.next.productParameter + ParamOffset(feed.goods, i) + j;
        assert ParamRow(r, k, s.next.info + i, g.parameters[j]);
        assert r.productParameters[k].parameter in ParametersNamed(r.parameters, g.parameters[j].0);
      }
    }
  }

  /** Importing the same feed again after a successful import creates no
      shop, category, product or parameter and adds the shop to no new
      category: the get-or-create steps all find their rows. */
  lemma ReimportKeepsMasterData(s: Store, user: nat, feed: Feed)
    requires Valid(s)
    requires Import(s, user, feed).fault.None?
    ensures var r1 := Import(s, user, feed).store; var r2 := Import(r1, user, feed).store;
      && r2.shops == r1.shops && r2.categories == r1.categories
      && r2.products == r1.products && r2.parameters == r1.parameters
  {
    var r1 := Import(s, user, feed).store;
    ImportValid(s, user, feed);
    ImportListsGoods(s, user, feed);
    ImportAttachesCategories(s, user, feed);
    ImportKnowsGoods(s, user, feed);
    var shop := GetOrCreateShop(s, feed.shop, user).id;
    assert shop in ShopsNamed(r1.shops, feed.shop, user);
    ShopStepFails(r1, feed.shop, user);
    assert GetOrCreateShop(r1, feed.shop, user) == Got(r1, shop);
    AttachCategoriesIdem(r1, shop, feed.categories);
    ClearedFacts(r1, r1, shop, feed);
    ImportGoodsKnown(Cleared(r1, shop, feed), shop, feed.goods);
  }

  // ----- the parsed document ------------------------------------------------------------

  /** The YAML document as parsed, with its top-level keys `shop`,
      `categories` and `goods`, each of which may be missing.  Each key is
      read only when its step starts, so a missing key raises KeyError after
      the earlier steps have written. */
  datatype Document = Document(shop: Option<string>, categories: Option<seq<FeedCategory>>, goods: Option<seq<Good>>)

  predicate Complete(d: Document) {
    d.shop.Some? && d.categories.Some? && d.goods.Some?
  }

  function FeedOf(d: Document): Feed
    requires Complete(d)
  {
    Feed(d.shop.value, d.categories.value, d.goods.value)
  }

  /** Steps 2 to 4 for a shop already resolved, each reading its key when
      it starts. */
  function ImportRest(s: Store, shop: nat, d: Document): (r: Step)
    ensures r.store.users == s.users && r.store.shops == s.shops
    ensures r.store.orders == s.orders && r.store.contacts == s.contacts
    ensures d.categories.None? ==> r == Step(s, Some(KeyError))
    ensures r.fault.None? ==> d.categories.Some? && d.goods.Some?
  {
    if d.categories.None? then Step(s, Some(KeyError))
    else
      var r2 := AttachCategories(s, shop, d.categories.value);
      if r2.fault.Some? then r2
      else if d.goods.None? then Step(DeleteShopInfos(r2.store, shop), Some(KeyError))
      else ImportGoods(DeleteShopInfos(r2.store, shop), shop, d.goods.value)
  }

  /** The import as the view and the import task run it on a parsed
      document: a missing `shop` raises before anything is written, and a
      missing `categories` after the shop step has written. */
  function ImportDocument(s: Store, user: nat, d: Document): (r: Step)
    ensures r.store.users == s.users && r.store.orders == s.orders && r.store.contacts == s.contacts
    ensures d.shop.None? ==> r == Step(s, Some(KeyError))
    ensures d.shop.Some? && d.categories.None? && GetOrCreateShop(s, d.shop.value, user).Got? ==>
      r == Step(GetOrCreateShop(s, d.shop.value, user).store, Some(KeyError))
    ensures r.fault.None? ==> Complete(d)
  {
    if d.shop.None? then Step(s, Some(KeyError))
    else match GetOrCreateShop(s, d.shop.value, user)
      case Failed(f) => Step(s, Some(f))
      case Got(s1, shop) => ImportRest(s1, shop, d)
  }

  /** A document with all three keys imports exactly as its feed does. */
  lemma CompleteDocumentImports(s: Store, user: nat, d: Document)
    requires Complete(d)
    ensures ImportDocument(s, user, d) == Import(s, user, FeedOf(d))
  {
  }

  /** A document without `goods` still runs the first three steps: once the
      shop and category steps pass, the categories list the shop, and every
      listing of the shop is gone, with the order lines that referred to
      one, before the KeyError. */
  lemma MissingGoodsClearsShop(s: Store, user: nat, d: Document)
    requires Valid(s)
    requires d.shop.Some? && d.categories.Some? && d.goods.None?
    requires GetOrCreateShop(s, d.shop.value, user).Got?
    requires Agree(s.categories, d.categories.value)
    ensures var r := ImportDocument(s, user, d); var shop := GetOrCreateShop(s, d.shop.value, user).id;
      && r.fault == Some(KeyError)
      && (forall k :: k in r.store.infos ==> r.store.infos[k].shop != shop)
      && (forall k :: k in s.items && s.items[k].productInfo in ShopInfos(s.infos, shop) ==> k !in r.store.items)
      && (forall i :: 0 <= i < |d.categories.value| ==> Attached(r.store.categories, d.categories.value[i], shop))
  {
    var feed := Feed(d.shop.value, d.categories.value, []);
    var g := GetOrCreateShop(s, d.shop.value, user);
    ShopStep(s, user, feed, g.store, g.id);
    var r := ImportDocument(s, user, d);
    assert r == Step(Cleared(g.store, g.id, feed), Some(KeyError));
    ClearedFacts(s, g.store, g.id, feed);
  }

  /** Whatever step raises, and whichever key is missing, the import leaves
      a consistent store. */
  lemma ImportDocumentValid(s: Store, user: nat, d: Document)
    requires Valid(s)
    ensures Valid(ImportDocument(s, user, d).store)
  {
    if d.shop.Some? {
      GetOrCreateShopValid(s, d.shop.value, user);
      match GetOrCreateShop(s, d.shop.value, user)
      case Failed(f) =>
      case Got(s1, shop) =>
        if d.categories.Some? {
          var r2 := AttachCategories(s1, shop, d.categories.value);
          CategoriesGrowValid(s1, r2.store, shop);
          if r2.fault.None? {
            CascadeInfosValid(r2.store, ShopInfos(r2.store.infos, shop));
            if d.goods.Some? {
              ImportGoodsValid(DeleteShopInfos(r2.store, shop), shop, d.goods.value);
            }
          }
        }
    }
  }

  // ----- the entry points ----------------------------------------------------------------

  /** `PartnerUpdate.post`: only a logged-in shop user may import; a missing
      or invalid url is refused before anything is fetched or written; every
      exception of the import escapes the view. `isValidUrl` stands for
      Django's URLValidator and `load` for the fetch and YAML parse (None when
      either fails). */
  function PartnerUpdate(s: Store, who: Principal, url: Option<string>,
                         isValidUrl: string -> bool, load: string -> Option<Document>): (h: Handled)
    ensures h.events == [] && h.reply != NoResponse
    ensures who.Anonymous? ==> h == Handled(s, Json(403, false, Error(NotAuthenticated)), [])
    ensures who.Member? && who.kind != ShopUser ==> h == Handled(s, Json(403, false, Error(ShopsOnly)), [])
    ensures !Truthy(url) || !isValidUrl(url.value) ==> h.store == s && h.reply.Json? && !h.reply.status
    ensures h.reply.Json? && h.reply.status <==>
      && who.Member? && who.kind == ShopUser && Truthy(url) && isValidUrl(url.value) && load(url.value).Some?
      && ImportDocument(s, who.id, load(url.value).value).fault.None?
    ensures who.Member? && who.kind == ShopUser && Truthy(url) && isValidUrl(url.value) && load(url.value).None? ==>
      h == Handled(s, Raised(FeedUnavailable), [])
    ensures who.Member? && who.kind == ShopUser && Truthy(url) && isValidUrl(url.value) && load(url.value).Some? ==>
      && h.store == ImportDocument(s, who.id, load(url.value).value).store
      && (h.reply.Raised? ==> Some(h.reply.fault) == ImportDocument(s, who.id, load(url.value).value).fault)
  {
    if who.Anonymous? then Handled(s, Json(403, false, Error(NotAuthenticated)), [])
    else if who.kind != ShopUser then Handled(s, Json(403, false, Error(ShopsOnly)), [])
    else if !Truthy(url) then Handled(s, Json(200, false, Error(MissingArguments)), [])
    else if !isValidUrl(url.value) then Handled(s, Json(200, false, Error(InvalidUrl)), [])
    else match load(url.value)
      case None => Handled(s, Raised(FeedUnavailable), [])
      case Some(d) =>
        var r := ImportDocument(s, who.id, d);
        match r.fault
        case None => Handled(r.store, Json(200, true, Empty), [])
        case Some(f) => Handled(r.store, Raised(f), [])
  }

  /** A missing or invalid url is answered before the feed is fetched: the
      outcome does not depend on what the url would have returned. */
  lemma PartnerUpdateChecksUrlFirst(s: Store, who: Principal, url: Option<string>, isValidUrl: string -> bool,
                                    load: string -> Option<Document>, other: string -> Option<Document>)
    requires !Truthy(url) || !isValidUrl(url.value)
    ensures PartnerUpdate(s, who, url, isValidUrl, load) == PartnerUpdate(s, who, url, isValidUrl, other)
  {
  }

  lemma PartnerUpdateValid(s: Store, who: Principal, url: Option<string>,
                           isValidUrl: string -> bool, load: string -> Option<Document>)
    requires Valid(s)
    ensures Valid(PartnerUpdate(s, who, url, isValidUrl, load).store)
  {
    if who.Member? && who.kind == ShopUser && Truthy(url) && isValidUrl(url.value) && load(url.value).Some? {
      ImportDocumentValid(s, who.id, load(url.value).value);
    }
  }

  /** What `do_import_task` returns: a status dict, or an exception. */
  datatype TaskResult = Status(ok: bool, body: Body) | TaskRaised(fault: Fault)

  datatype TaskRun = TaskRun(store: Store, result: TaskResult)

  /** `do_import_task`: the same import for the partner with id `partner`; it
      returns a failed status, with nothing written, when the shop step raises
      IntegrityError. */
  function ImportTask(s: Store, partner: nat, url: Option<string>,
                      isValidUrl: string -> bool, load: string -> Option<Document>): (t: TaskRun)
    ensures !Truthy(url) ==> t == TaskRun(s, Status(false, Error(MissingArguments)))
    ensures Truthy(url) && !isValidUrl(url.value) ==> t == TaskRun(s, Status(false, Error(InvalidUrl)))
    ensures Truthy(url) && isValidUrl(url.value) && load(url.value).None? ==> t == TaskRun(s, TaskRaised(FeedUnavailable))
    ensures Truthy(url) && isValidUrl(url.value) && load(url.value).Some? && load(url.value).value.shop.None? ==>
      t == TaskRun(s, TaskRaised(KeyError))
    ensures t.result == Status(true, Empty) <==>
      && Truthy(url) && isValidUrl(url.value) && load(url.value).Some?
      && ImportDocument(s, partner, load(url.value).value).fault.None?
  {
    if !Truthy(url) then TaskRun(s, Status(false, Error(MissingArguments)))
    else if !isValidUrl(url.value) then TaskRun(s, Status(false, Error(InvalidUrl)))
    else match load(url.value)
      case None => TaskRun(s, TaskRaised(FeedUnavailable))
      case Some(d) =>
        if d.shop.None? then TaskRun(s, TaskRaised(KeyError))
        else match GetOrCreateShop(s, d.shop.value, partner)
        case Failed(IntegrityError(c)) => TaskRun(s, Status(false, Error(Violated(c))))
        case Failed(f) => TaskRun(s, TaskRaised(f))
        case Got(s1, shop) =>
          var r := ImportRest(s1, shop, d);
          match r.fault
          case None => TaskRun(r.store, Status(true, Empty))
          case Some(f) => TaskRun(r.store, TaskRaised(f))
  }

  /** The view run by a shop user and the import task write the same store; their
      answers differ only where the import task turns the shop step's IntegrityError
      into a failed status. */
  lemma ViewMatchesTask(s: Store, user: nat, url: Option<string>,
                        isValidUrl: string -> bool, load: string -> Option<Document>)
    ensures var h := PartnerUpdate(s, Member(user, ShopUser), url, isValidUrl, load);
      var t := ImportTask(s, user, url, isValidUrl, load);
      && h.store == t.store
      && (h.reply.Json? ==> t.result == Status(h.reply.status, h.reply.body))
      && (h.reply.Raised? ==>
            || t.result == TaskRaised(h.reply.fault)
            || (h.reply.fault.IntegrityError? && t.store == s
                && t.result == Status(false, Error(Violated(h.reply.fault.constraint)))))
  {
  }

  /** A user who already owns a shop under another name gets a failed status
      from the import task, and nothing is written. */
  lemma TaskRefusesSecondShop(s: Store, user: nat, url: Option<string>,
                              isValidUrl: string -> bool, load: string -> Option<Document>)
    requires Valid(s)
    requires Truthy(url) && isValidUrl(url.value) && load(url.value).Some? && load(url.value).value.shop.Some?
    requires OwnsOtherShop(s.shops, user, load(url.value).value.shop.value)
    ensures ImportTask(s, user, url, isValidUrl, load) == TaskRun(s, Status(false, Error(Violated(ShopUserUnique))))
  {
    var k :| k in s.shops && s.shops[k].user == Some(user) && s.shops[k].name != load(url.value).value.shop.value;
    assert user in s.users;
    ShopStepFails(s, load(url.value).value.shop.value, user);
  }

  /** A partner id that names no user gets a failed status from the import
      task for the owner's foreign key, and nothing is written. */
  lemma TaskRefusesUnknownPartner(s: Store, partner: nat, url: Option<string>,
                                  isValidUrl: string -> bool, load: string -> Option<Document>)
    requires Valid(s)
    requires Truthy(url) && isValidUrl(url.value) && load(url.value).Some? && load(url.value).value.shop.Some?
    requires partner !in s.users
    ensures ImportTask(s, partner, url, isValidUrl, load) == TaskRun(s, Status(false, Error(Violated(ForeignKey))))
  {
    ShopStepFails(s, load(url.value).value.shop.value, partner);
  }

  lemma ImportTaskValid(s: Store, partner: nat, url: Option<string>,
                        isValidUrl: string -> bool, load: string -> Option<Document>)
    requires Valid(s)
    ensures Valid(ImportTask(s, partner, url, isValidUrl, load).store)
  {
    if Truthy(url) && isValidUrl(url.value) && load(url.value).Some? {
      ImportDocumentValid(s, partner, load(url.value).value);
    }
  }
}
