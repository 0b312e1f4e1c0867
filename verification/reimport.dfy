/** Importing the same feed twice: when the first import of a feed raises
    nothing, a second import of that feed by the same partner raises nothing
    either.  The first run leaves exactly one product per (name, category)
    and one parameter per name the feed asks for, and its listings and
    parameter rows, held apart by the unique constraints, show that the
    feed's keys are distinct; the second run then finds every product and
    parameter and writes under keys that are free. */
module Reimport {
  import opened Common
  import opened Models
  import opened Catalog

  // ----- names that already exist keep their rows --------------------------------------

  /** A (name, category) that has a product, and a name that has a
      parameter, keep exactly those rows from `s` to `t`: get_or_create only
      creates for a name nothing has yet. */
  ghost predicate NamesKept(s: Store, t: Store) {
    && (forall n, c :: ProductsNamed(s.products, n, c) != {} ==> ProductsNamed(t.products, n, c) == ProductsNamed(s.products, n, c))
    && (forall n :: ParametersNamed(s.parameters, n) != {} ==> ParametersNamed(t.parameters, n) == ParametersNamed(s.parameters, n))
  }

  lemma NamesKeptTrans(a: Store, b: Store, c: Store)
    requires NamesKept(a, b) && NamesKept(b, c)
    ensures NamesKept(a, c)
  {
  }

  /** The good's product and each of its parameter names have exactly one row. */
  predicate SettledGood(products: map<nat, Product>, parameters: map<nat, Parameter>, g: Good) {
    && |ProductsNamed(products, g.name, g.category)| == 1
    && forall j :: 0 <= j < |g.parameters| ==> |ParametersNamed(parameters, g.parameters[j].0)| == 1
  }

  predicate Settled(t: Store, goods: seq<Good>) {
    forall i :: 0 <= i < |goods| ==> SettledGood(t.products, t.parameters, goods[i])
  }

  lemma SettledKept(a: Store, b: Store, g: Good)
    requires SettledGood(a.products, a.parameters, g) && NamesKept(a, b)
    ensures SettledGood(b.products, b.parameters, g)
  {
    assert ProductsNamed(a.products, g.name, g.category) != {};
    forall j | 0 <= j < |g.parameters|
      ensures |ParametersNamed(b.parameters, g.parameters[j].0)| == 1
    {
      assert |ParametersNamed(a.parameters, g.parameters[j].0)| == 1;
      assert ParametersNamed(a.parameters, g.parameters[j].0) != {};
    }
  }

  /** Product get-or-create keeps the names that exist and leaves exactly
      one product of the name it was asked for. */
  lemma ProductStepKeeps(s: Store, name: string, category: int)
    requires Valid(s) && GetOrCreateProduct(s, name, category).Got?
    ensures var t := GetOrCreateProduct(s, name, category).store;
      NamesKept(s, t) && |ProductsNamed(t.products, name, category)| == 1
  {
    var found := ProductsNamed(s.products, name, category);
    var t := GetOrCreateProduct(s, name, category).store;
    if found == {} {
      var np := s.next.product;
      assert np !in s.products;
      assert t.products == s.products[np := Product(name, category)];
      assert ProductsNamed(t.products, name, category) == {np};
      forall n, c | ProductsNamed(s.products, n, c) != {}
        ensures ProductsNamed(t.products, n, c) == ProductsNamed(s.products, n, c)
      {
        assert (n, c) != (name, category);
      }
    }
  }

  /** Parameter get-or-create keeps the names that exist and leaves exactly
      one parameter of the name it was asked for. */
  lemma ParameterStepKeeps(s: Store, name: string)
    requires Valid(s) && GetOrCreateParameter(s, name).Got?
    ensures var t := GetOrCreateParameter(s, name).store;
      NamesKept(s, t) && |ParametersNamed(t.parameters, name)| == 1
  {
    var found := ParametersNamed(s.parameters, name);
    var t := GetOrCreateParameter(s, name).store;
    if found == {} {
      var np := s.next.parameter;
      assert np !in s.parameters;
      assert t.parameters == s.parameters[np := Parameter(name)];
      assert ParametersNamed(t.parameters, name) == {np};
      forall n | ParametersNamed(s.parameters, n) != {}
        ensures ParametersNamed(t.parameters, n) == ParametersNamed(s.parameters, n)
      {
        assert n != name;
      }
    }
  }

  lemma ImportParameterKeeps(s: Store, info: nat, kv: (string, string))
    requires Valid(s)
    ensures var r := ImportParameter(s, info, kv);
      && NamesKept(s, r.store)
      && (r.fault.None? ==> |ParametersNamed(r.store.parameters, kv.0)| == 1)
  {
    match GetOrCreateParameter(s, kv.0)
    case Failed(f) =>
    case Got(s1, p) =>
      ParameterStepKeeps(s, kv.0);
      var r := ImportParameter(s, info, kv);
      assert r.store.products == s1.products && r.store.parameters == s1.parameters;
  }

  /** A parameter run keeps the names that exist and, when it raises
      nothing, leaves exactly one parameter of each name it read. */
  lemma {:induction false} ImportParametersKeeps(s: Store, info: nat, params: seq<(string, string)>)
    requires Valid(s)
    ensures var r := ImportParameters(s, info, params);
      && NamesKept(s, r.store)
      && (r.fault.None? ==> forall j :: 0 <= j < |params| ==> |ParametersNamed(r.store.parameters, params[j].0)| == 1)
    decreases |params|
  {
    if params != [] {
      var r1 := ImportParameter(s, info, params[0]);
      ImportParameterKeeps(s, info, params[0]);
      if r1.fault.None? {
        ImportParameterValid(s, info, params[0]);
        assert ImportParameters(s, info, params) == ImportParameters(r1.store, info, params[1..]);
        ImportParametersKeeps(r1.store, info, params[1..]);
        ParamsKeptStep(s, r1.store, ImportParameters(r1.store, info, params[1..]), params);
      }
    }
  }

  /** The inductive step of `ImportParametersKeeps`, apart from the run. */
  lemma ParamsKeptStep(s: Store, m: Store, r: Step, params: seq<(string, string)>)
    requires params != [] && NamesKept(s, m) && NamesKept(m, r.store)
    requires |ParametersNamed(m.parameters, params[0].0)| == 1
    requires r.fault.None? ==> forall j :: 0 <= j < |params[1..]| ==> |ParametersNamed(r.store.parameters, params[1..][j].0)| == 1
    ensures NamesKept(s, r.store)
    ensures r.fault.None? ==> forall j :: 0 <= j < |params| ==> |ParametersNamed(r.store.parameters, params[j].0)| == 1
  {
    NamesKeptTrans(s, m, r.store);
    if r.fault.None? {
      assert ParametersNamed(m.parameters, params[0].0) != {};
      forall j | 0 <= j < |params|
        ensures |ParametersNamed(r.store.parameters, params[j].0)| == 1
      {
        if j > 0 {
          assert params[j] == params[1..][j - 1];
        }
      }
    }
  }

  /** One good keeps the names that exist and, when it raises nothing,
      settles its own product and parameter names. */
  lemma ImportGoodKeeps(s: Store, shop: nat, g: Good)
    requires Valid(s)
    ensures var r := ImportGood(s, shop, g);
      && NamesKept(s, r.store)
      && (r.fault.None? ==> SettledGood(r.store.products, r.store.parameters, g))
  {
    match GetOrCreateProduct(s, g.name, g.category)
    case Failed(f) =>
    case Got(s1, p) =>
      ProductStepKeeps(s, g.name, g.category);
      GetOrCreateProductValid(s, g.name, g.category);
      if ListingFits(s1, p, shop, g) {
        var row := ProductInfo(g.model, g.id, p, shop, g.quantity, g.price, g.priceRrc);
        var u := AddInfo(s1, row);
        AddInfoValid(s1, row);
        ImportParametersKeeps(u, s1.next.info, g.parameters);
        NamesKeptTrans(s, s1, ImportParameters(u, s1.next.info, g.parameters).store);
      }
  }

  /** A goods run keeps the names that exist and, when it raises nothing,
      leaves every good settled. */
  lemma {:induction false} ImportGoodsKeeps(s: Store, shop: nat, goods: seq<Good>)
    requires Valid(s)
    ensures var r := ImportGoods(s, shop, goods);
      && NamesKept(s, r.store)
      && (r.fault.None? ==> Settled(r.store, goods))
    decreases |goods|
  {
    if goods != [] {
      var r1 := ImportGood(s, shop, goods[0]);
      ImportGoodKeeps(s, shop, goods[0]);
      if r1.fault.None? {
        ImportGoodValid(s, shop, goods[0]);
        assert ImportGoods(s, shop, goods) == ImportGoods(r1.store, shop, goods[1..]);
        ImportGoodsKeeps(r1.store, shop, goods[1..]);
        GoodsKeptStep(s, r1.store, ImportGoods(r1.store, shop, goods[1..]), goods);
      }
    }
  }

  /** The inductive step of `ImportGoodsKeeps`, apart from the run. */
  lemma GoodsKeptStep(s: Store, m: Store, r: Step, goods: seq<Good>)
    requires goods != [] && NamesKept(s, m) && NamesKept(m, r.store)
    requires SettledGood(m.products, m.parameters, goods[0])
    requires r.fault.None? ==> Settled(r.store, goods[1..])
    ensures NamesKept(s, r.store)
    ensures r.fault.None? ==> Settled(r.store, goods)
  {
    NamesKeptTrans(s, m, r.store);
    if r.fault.None? {
      SettledKept(m, r.store, goods[0]);
      forall i | 0 <= i < |goods|
        ensures SettledGood(r.store.products, r.store.parameters, goods[i])
      {
        if i > 0 {
          assert goods[i] == goods[1..][i - 1];
        }
      }
    }
  }

  // ----- what a successful first run says about the feed -------------------------------

  /** No number of the good is negative. */
  predicate FieldsFit(g: Good) {
    g.id >= 0 && g.quantity >= 0 && g.price >= 0 && g.priceRrc >= 0
  }

  /** No two goods share name, category and id. */
  predicate DistinctGoods(goods: seq<Good>) {
    forall a, b :: 0 <= a < b < |goods| ==>
      (goods[a].name, goods[a].category, goods[a].id) != (goods[b].name, goods[b].category, goods[b].id)
  }

  /** No two parameters of a good share a name. */
  predicate DistinctNames(params: seq<(string, string)>) {
    forall a, b :: 0 <= a < b < |params| ==> params[a].0 != params[b].0
  }

  /** A good that raises nothing had no negative number. */
  lemma GoodFieldsFit(s: Store, shop: nat, g: Good)
    requires ImportGood(s, shop, g).fault.None?
    ensures FieldsFit(g)
  {
  }

  /** A goods run that raises nothing met no negative number. */
  lemma {:induction false} GoodsFieldsFit(s: Store, shop: nat, goods: seq<Good>)
    requires ImportGoods(s, shop, goods).fault.None?
    ensures forall i :: 0 <= i < |goods| ==> FieldsFit(goods[i])
    decreases |goods|
  {
    if goods != [] {
      var r1 := ImportGood(s, shop, goods[0]);
      assert r1.fault.None? && ImportGoods(s, shop, goods) == ImportGoods(r1.store, shop, goods[1..]);
      GoodFieldsFit(s, shop, goods[0]);
      GoodsFieldsFit(r1.store, shop, goods[1..]);
      forall i | 0 < i < |goods|
        ensures FieldsFit(goods[i])
      {
        assert goods[i] == goods[1..][i - 1];
      }
    }
  }

  /** In a one-element set, any element other than one member is absent. */
  lemma SingletonApart(xs: set<nat>, x: nat, y: nat)
    requires |xs| == 1 && x in xs && x != y
    ensures y !in xs
  {
    var m := TheOnly(xs);
  }

  /** Listings that copy settled goods, in a consistent store, show the
      goods' keys and each good's parameter names to be distinct: two goods
      of one key would share the one product and so break
      unique_product_info, and two parameters of one name would share the one
      parameter and so break unique_product_parameter. */
  lemma ListedGoodsDistinct(r: Store, info: nat, base: nat, goods: seq<Good>, shop: nat)
    requires Valid(r) && Settled(r, goods)
    requires forall i :: 0 <= i < |goods| ==> GoodAt(r, info, base, goods, i, shop)
    ensures DistinctGoods(goods)
    ensures forall i :: 0 <= i < |goods| ==> DistinctNames(goods[i].parameters)
  {
    forall a, b | 0 <= a < b < |goods|
      ensures (goods[a].name, goods[a].category, goods[a].id) != (goods[b].name, goods[b].category, goods[b].id)
    {
      assert GoodAt(r, info, base, goods, a, shop) && GoodAt(r, info, base, goods, b, shop);
      var ra := r.infos[info + a];
      var rb := r.infos[info + b];
      assert UniqueInfoKeys(r.infos);
      if ra.product != rb.product {
        assert SettledGood(r.products, r.parameters, goods[a]);
        SingletonApart(ProductsNamed(r.products, goods[a].name, goods[a].category), ra.product, rb.product);
      }
    }
    forall i | 0 <= i < |goods|
      ensures DistinctNames(goods[i].parameters)
    {
      var g := goods[i];
      assert GoodAt(r, info, base, goods, i, shop);
      assert SettledGood(r.products, r.parameters, g);
      var off := base + ParamOffset(goods, i);
      forall a, b | 0 <= a < b < |g.parameters|
        ensures g.parameters[a].0 != g.parameters[b].0
      {
        assert ParamRow(r, off + a, info + i, g.parameters[a]) && ParamRow(r, off + b, info + i, g.parameters[b]);
        var qa := r.productParameters[off + a].parameter;
        var qb := r.productParameters[off + b].parameter;
        assert UniqueParameterRows(r.productParameters);
        assert |ParametersNamed(r.parameters, g.parameters[a].0)| == 1;
        SingletonApart(ParametersNamed(r.parameters, g.parameters[a].0), qa, qb);
      }
    }
  }

  // ----- the second run ------------------------------------------------------------------

  /** Some listing of `shop` has the good's external id and a product of its
      name and category. */
  predicate KeyListed(t: Store, shop: nat, g: Good) {
    exists k :: k in t.infos && t.infos[k].shop == shop && t.infos[k].externalId == g.id
      && t.infos[k].product in ProductsNamed(t.products, g.name, g.category)
  }

  /** Some parameter row of listing `info` points at a parameter named `n`. */
  predicate RowNamed(t: Store, info: nat, n: string) {
    exists k :: k in t.productParameters && t.productParameters[k].productInfo == info
      && t.productParameters[k].parameter in ParametersNamed(t.parameters, n)
  }

  /** Distinct, settled parameter names with no row yet for the listing all
      get their row. */
  lemma {:induction false} ParamsSucceed(t: Store, info: nat, params: seq<(string, string)>)
    requires Valid(t) && info in t.infos && DistinctNames(params)
    requires forall j :: 0 <= j < |params| ==> |ParametersNamed(t.parameters, params[j].0)| == 1
    requires forall j :: 0 <= j < |params| ==> !RowNamed(t, info, params[j].0)
    ensures ImportParameters(t, info, params).fault.None?
    decreases |params|
  {
    if params != [] {
      var n0 := params[0].0;
      var named := ParametersNamed(t.parameters, n0);
      assert |named| == 1;
      var q := TheOnly(named);
      assert GetOrCreateParameter(t, n0) == Got(t, q);
      assert !ParameterRowTaken(t.productParameters, info, q) by {
        assert !RowNamed(t, info, n0);
      }
      var u := AddParamRow(t, info, q, params[0].1);
      assert ImportParameter(t, info, params[0]) == Step(u, None);
      AddParamRowValid(t, info, q, params[0].1);
      var rest := params[1..];
      forall j | 0 <= j < |rest|
        ensures |ParametersNamed(u.parameters, rest[j].0)| == 1 && !RowNamed(u, info, rest[j].0)
      {
        assert rest[j] == params[j + 1];
        assert !RowNamed(t, info, rest[j].0);
        assert n0 != rest[j].0;
        assert q in named;
        forall k | k in u.productParameters && u.productParameters[k].productInfo == info
          ensures u.productParameters[k].parameter !in ParametersNamed(u.parameters, rest[j].0)
        {
          if k != t.next.productParameter {
            assert k in t.productParameters;
          }
        }
      }
      assert DistinctNames(rest) by {
        forall a, b | 0 <= a < b < |rest|
          ensures rest[a].0 != rest[b].0
        {
          assert rest[a] == params[a + 1] && rest[b] == params[b + 1];
        }
      }
      ParamsSucceed(u, info, rest);
    }
  }

  /** One good whose product and parameter names are settled, whose numbers
      fit, whose parameter names are distinct and whose key the shop has not
      listed gets its listing and rows, and leaves the master data as it
      was. */
  lemma GoodSucceeds(t: Store, shop: nat, g: Good)
    requires Valid(t) && shop in t.shops
    requires SettledGood(t.products, t.parameters, g) && FieldsFit(g) && DistinctNames(g.parameters)
    requires !KeyListed(t, shop, g)
    ensures var r := ImportGood(t, shop, g);
      && r.fault.None? && r.store.products == t.products && r.store.parameters == t.parameters
      && r.store.infos == t.infos[t.next.info := ProductInfo(g.model, g.id, TheOnly(ProductsNamed(t.products, g.name, g.category)), shop, g.quantity, g.price, g.priceRrc)]
  {
    var named := ProductsNamed(t.products, g.name, g.category);
    var p := TheOnly(named);
    assert GetOrCreateProduct(t, g.name, g.category) == Got(t, p);
    assert !InfoKeyTaken(t.infos, p, shop, g.id) by {
      assert p in named;
    }
    var row := ProductInfo(g.model, g.id, p, shop, g.quantity, g.price, g.priceRrc);
    var u := AddInfo(t, row);
    AddInfoValid(t, row);
    var info := t.next.info;
    forall j | 0 <= j < |g.parameters|
      ensures |ParametersNamed(u.parameters, g.parameters[j].0)| == 1 && !RowNamed(u, info, g.parameters[j].0)
    {
      assert ParameterRowsLinked(t.productParameters, t.infos, t.parameters);
      assert info !in t.infos;
    }
    ParamsSucceed(u, info, g.parameters);
    forall j | 0 <= j < |g.parameters|
      ensures ParametersNamed(u.parameters, g.parameters[j].0) != {}
    {
      assert |ParametersNamed(u.parameters, g.parameters[j].0)| == 1;
    }
    ImportParametersKnown(u, info, g.parameters);
  }

  /** A listing written for one good does not list the key of another good
      whose key differs. */
  lemma NewListingApart(t: Store, shop: nat, g0: Good, g: Good)
    requires FieldsFit(g0) && !KeyListed(t, shop, g)
    requires |ProductsNamed(t.products, g0.name, g0.category)| == 1
    requires (g0.name, g0.category, g0.id) != (g.name, g.category, g.id)
    ensures var p := TheOnly(ProductsNamed(t.products, g0.name, g0.category));
      !KeyListed(t.(infos := t.infos[t.next.info := ProductInfo(g0.model, g0.id, p, shop, g0.quantity, g0.price, g0.priceRrc)]), shop, g)
  {
    var p := TheOnly(ProductsNamed(t.products, g0.name, g0.category));
    var u := t.(infos := t.infos[t.next.info := ProductInfo(g0.model, g0.id, p, shop, g0.quantity, g0.price, g0.priceRrc)]);
    assert p in ProductsNamed(t.products, g0.name, g0.category);
    forall k | k in u.infos && u.infos[k].shop == shop && u.infos[k].externalId == g.id
      ensures u.infos[k].product !in ProductsNamed(u.products, g.name, g.category)
    {
      if k != t.next.info {
        assert k in t.infos;
      }
    }
  }

  /** Settled goods with fitting numbers, distinct keys and distinct
      parameter names, none of whose keys the shop has listed, all import. */
  lemma {:induction false} GoodsSucceed(t: Store, shop: nat, goods: seq<Good>)
    requires Valid(t) && shop in t.shops
    requires Settled(t, goods) && DistinctGoods(goods)
    requires forall i :: 0 <= i < |goods| ==> FieldsFit(goods[i]) && DistinctNames(goods[i].parameters)
    requires forall i :: 0 <= i < |goods| ==> !KeyListed(t, shop, goods[i])
    ensures ImportGoods(t, shop, goods).fault.None?
    decreases |goods|
  {
    if goods != [] {
      var g0 := goods[0];
      GoodSucceeds(t, shop, g0);
      ImportGoodValid(t, shop, g0);
      var t1 := ImportGood(t, shop, g0).store;
      var rest := goods[1..];
      forall i | 0 <= i < |rest|
        ensures SettledGood(t1.products, t1.parameters, rest[i])
        ensures FieldsFit(rest[i]) && DistinctNames(rest[i].parameters)
        ensures !KeyListed(t1, shop, rest[i])
      {
        assert rest[i] == goods[i + 1];
        assert SettledGood(t.products, t.parameters, g0);
        NewListingApart(t, shop, g0, rest[i]);
        assert t1.products == t.products;
      }
      assert DistinctGoods(rest) by {
        forall a, b | 0 <= a < b < |rest|
          ensures (rest[a].name, rest[a].category, rest[a].id) != (rest[b].name, rest[b].category, rest[b].id)
        {
          assert rest[a] == goods[a + 1] && rest[b] == goods[b + 1];
        }
      }
      GoodsSucceed(t1, shop, rest);
    }
  }

  /** What a first import that raised nothing leaves known about the feed. */
  lemma FirstRunSettles(s: Store, user: nat, feed: Feed)
    requires Valid(s)
    requires Import(s, user, feed).fault.None?
    ensures var r1 := Import(s, user, feed).store;
      && Settled(r1, feed.goods) && DistinctGoods(feed.goods)
      && forall i :: 0 <= i < |feed.goods| ==> FieldsFit(feed.goods[i]) && DistinctNames(feed.goods[i].parameters)
  {
    var r1 := Import(s, user, feed).store;
    ImportValid(s, user, feed);
    ImportListsGoods(s, user, feed);
    ImportStart(s, user, feed);
    var g := GetOrCreateShop(s, feed.shop, user);
    var t := Cleared(g.store, g.id, feed);
    ImportGoodsKeeps(t, g.id, feed.goods);
    GoodsFieldsFit(t, g.id, feed.goods);
    ListedGoodsDistinct(r1, s.next.info, s.next.productParameter, feed.goods, g.id);
  }

  /** The second import finds the shop and every category as the first left
      them, so it comes down to the goods on the cleared store. */
  lemma SecondRunShape(s: Store, user: nat, feed: Feed)
    requires Valid(s)
    requires Import(s, user, feed).fault.None?
    ensures GetOrCreateShop(s, feed.shop, user).Got?
    ensures var r1 := Import(s, user, feed).store; var shop := GetOrCreateShop(s, feed.shop, user).id;
      var b := Cleared(r1, shop, feed);
      && Valid(b) && shop in b.shops && b.products == r1.products && b.parameters == r1.parameters
      && ShopInfos(b.infos, shop) == {}
      && Import(r1, user, feed) == ImportGoods(b, shop, feed.goods)
  {
    var r1 := Import(s, user, feed).store;
    ImportValid(s, user, feed);
    ImportListsGoods(s, user, feed);
    ImportAttachesCategories(s, user, feed);
    var shop := GetOrCreateShop(s, feed.shop, user).id;
    assert shop in ShopsNamed(r1.shops, feed.shop, user);
    ShopStepFails(r1, feed.shop, user);
    assert GetOrCreateShop(r1, feed.shop, user) == Got(r1, shop);
    AttachCategoriesIdem(r1, shop, feed.categories);
    ClearedFacts(r1, r1, shop, feed);
  }

  /** A second import of a feed whose first import raised nothing raises
      nothing either. */
  lemma ReimportSucceeds(s: Store, user: nat, feed: Feed)
    requires Valid(s)
    requires Import(s, user, feed).fault.None?
    ensures Import(Import(s, user, feed).store, user, feed).fault.None?
  {
    var r1 := Import(s, user, feed).store;
    FirstRunSettles(s, user, feed);
    SecondRunShape(s, user, feed);
    var shop := GetOrCreateShop(s, feed.shop, user).id;
    var b := Cleared(r1, shop, feed);
    forall i | 0 <= i < |feed.goods|
      ensures SettledGood(b.products, b.parameters, feed.goods[i]) && !KeyListed(b, shop, feed.goods[i])
    {
      assert SettledGood(r1.products, r1.parameters, feed.goods[i]);
      forall k | k in b.infos
        ensures b.infos[k].shop != shop
      {
        assert k !in ShopInfos(b.infos, shop);
      }
    }
    GoodsSucceed(b, shop, feed.goods);
  }
}
