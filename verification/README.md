# Order backend: catalog import, basket and order placement

A Dafny model of the state logic of a Django order backend (the `orders/backend`
app). The database is an in-memory relational store. It has one map from id to row
per table (users, shops, categories, products, product listings (`ProductInfo`),
parameters, listing parameters, orders, order lines, contacts) and one id sequence
per table. Category ids come from the partner's feed, so categories have no sequence.
Each view is a pure function of a store and a request. The views that can write
return a `Handled` value: the store after the view, the reply, and the notifications
sent. The two GET views (`BasketGet`, `OrderGet`) write nothing and return a
`Listing`: a refusal, or the orders shown with their totals. The import task returns
a `TaskRun`: the store after it, and the status it returns or the exception it raises.

The reply is one of three things:
- a JSON reply with its HTTP code;
- an exception that escapes the view;
- no reply at all, when the view falls off its end.

No view wraps its writes in a transaction. So when an exception stops a view, every
write made before it stays. The model keeps those writes too, for the exceptions it
models. These include a partner document that lacks one of its top-level keys
(`shop`, `categories`, `goods`): each key is read only when its step starts, so a
missing `goods` raises KeyError after the shop and its categories are written and
the shop's old listings are deleted.

`Valid` (in `models.dfy`) collects what the schema guarantees:
- every id is below its sequence;
- every foreign key names an existing row, including the owner (`user`) of a shop,
  an order and a contact;
- the three `UniqueConstraint`s hold;
- e-mail addresses are unique;
- the one-to-one `Shop.user` holds;
- each user has at most one order in state `basket`. The views keep this rule, not
  the schema.

Each operation has a lemma stating that it preserves `Valid`, plus lemmas for its
specific promises.

The files:
- `common.dfy`: option values, faults, replies, and the request-string helpers (`split(',')`, `isdigit`, `int`).
- `models.dfy`: the tables, `STATE_CHOICES`, the consistency predicates and the `UserManager` checks.
- `catalog.dfy`: `PartnerUpdate.post` and `do_import_task`.
- `reimport.dfy`: a second import of a feed whose first import succeeded succeeds too.
- `basket.dfy`: `BasketView` (get, post, put, delete).
- `orders.dfy`: `OrderView` (get, post) and `ContactView.delete` and `put`.

Notes on the code:
- The shop step of the import does not fail because another user holds the shop's name. `Shop.name` is not unique. The step fails because `Shop.user` is one-to-one: a user who already owns a shop under a different name cannot get a second one (`Catalog.ShopStepFails`). It also fails, on the owner's foreign key, for a partner id that names no user; only the import task can be given such an id.
- `Parameter.name` carries no unique constraint. So `get_or_create(name=...)` raises `MultipleObjectsReturned` when two rows share a name.
- `OrderView.post` places any order of the caller, whatever its state. It does not check who owns the contact.
- Deleting a contact cascades to the orders that name it and to their lines. The count that `ContactView.delete` reports includes those rows.
- An order's `total_sum` is SQL `SUM` over its lines. That is NULL for an order without lines, so the model's total is an `Option`.
- A partner import or a basket post that fails half way keeps the rows it wrote first.
- `OrderView.post` stores `contact_id=''` as NULL: an empty contact places the order without a contact.

## Model

| member | source | states |
|---|---|---|
| Models.ParseState | orders/backend/models.py:11-19 | exactly the seven `STATE_CHOICES` names are read back, each to its own state, and anything else is rejected |
| Models.NormalizeEmailIdempotent | orders/backend/models.py:43 | normalizing an address a second time changes nothing |
| Models.NormalizeEmail | orders/backend/models.py:43 | the result has the same length; everything up to the last `@` is kept; only the domain part is lower-cased; an address without `@` is kept as it is |
| Models.CreateUser | orders/backend/models.py:36-47 | an empty address raises ValueError; a taken normalized address violates the unique e-mail; otherwise one inactive buyer with the normalized address is stored under a fresh id, nothing else changes, and consistency is kept |
| Models.CreateSuperuser | orders/backend/models.py:58-74 | an explicit false for is_staff, then for is_superuser, raises ValueError before anything is stored; a created user has both flags set |
| Catalog.GetOrCreateShop | orders/backend/views.py:55-56 | the lookup is by name and owner; it raises exactly when two rows match, or when none matches and either the user already owns a shop (the one-to-one owner) or the user id names no user (the owner's foreign key), with that constraint named; otherwise the row found or created has that name and owner and nothing else changes |
| Catalog.GetOrCreateProduct | orders/backend/views.py:65-67 | raises exactly when two products match, or when none matches and the category does not exist; otherwise the row has that name and category |
| Catalog.GetOrCreateParameter | orders/backend/views.py:75-77 | raises exactly when two parameters share the name; otherwise the row has that name |
| Catalog.ShopStepFails | orders/backend/models.py:115-119 | on a consistent store the shop step fails exactly when the user owns a shop of another name or names no stored user; the failure is the one-to-one violation for a stored user and the owner's foreign key otherwise |
| Catalog.GetOrCreateShopValid | orders/backend/models.py:118-119 | a created shop keeps each user at one shop and keeps the store consistent |
| Catalog.ImportValid | orders/backend/views.py:55-81 | whichever step raises, the import leaves a consistent store |
| Catalog.ImportKeepsOthersListing | orders/backend/views.py:63 | a listing of a shop the importing user does not own survives the import unchanged |
| Catalog.ImportKeepsOthersParameter | orders/backend/views.py:63 | a parameter row of another owner's listing survives the import unchanged |
| Catalog.ImportKeepsOthersLine | orders/backend/views.py:63 | an order line of another owner's listing survives the import unchanged |
| Catalog.ImportDropsOldListings | orders/backend/views.py:63 | once the shop and category steps pass, every earlier listing of the shop is gone, and so is every order line that referred to one, placed orders included |
| Catalog.ImportListsGoods | orders/backend/views.py:63-73 | after a successful import the shop's listings are exactly the new ids, one per good in feed order, and each copies the good's external id, model, price, recommended price and quantity |
| Catalog.ImportListsOnlyGoodParameters | orders/backend/views.py:74-81 | after a successful import every parameter row of a new listing lies in the block of its good |
| Catalog.ImportAttachesCategories | orders/backend/views.py:57-61 | after a successful import every feed category is stored under its id with its name and lists the shop |
| Catalog.AttachCategoriesIdem | orders/backend/views.py:60-61 | attaching categories that already list the shop changes nothing |
| Catalog.ReimportKeepsMasterData | orders/backend/views.py:55-77 | importing the same feed again after a successful import creates no shop, category, product or parameter row |
| Reimport.ReimportSucceeds | orders/backend/views.py:55-81 | importing the same feed again after a successful import raises nothing either |
| Reimport.ImportGoodsKeeps | orders/backend/views.py:64-81 | the goods step never adds a product or parameter to a name that already has one, and after a successful run each good's product and parameter names have exactly one row |
| Reimport.ListedGoodsDistinct | orders/backend/models.py:160-213 | listings that copy the goods in a consistent store prove that no two goods share name, category and external id and that no good repeats a parameter name |
| Reimport.GoodsSucceed | orders/backend/views.py:64-81 | goods whose names each have one row, whose numbers are not negative, whose keys are distinct and not yet listed by the shop, and whose parameter names are distinct, all import without an exception |
| Catalog.Import | orders/backend/views.py:55-81 | the import writes no user, order or contact; what it writes to the catalog is stated by the lemmas about it |
| Catalog.AttachCategories | orders/backend/views.py:57-61 | the category step changes only the categories; it succeeds exactly when no feed category clashes with a stored category of its id or with an earlier feed entry of that id, and then every feed category is stored with its name and lists the shop; a clash raises the primary-key IntegrityError |
| Catalog.DeleteShopInfos | orders/backend/views.py:63 | exactly the listings of the shop are removed, together with exactly the parameter rows and order lines that refer to them; no other table changes |
| Catalog.ImportGoods | orders/backend/views.py:64-81 | the goods step changes only the catalog tables; a successful run uses one listing id per good and one parameter row id per parameter |
| Catalog.ImportDocument | orders/backend/views.py:55-81 | a document without `shop` raises KeyError with nothing written; one without `categories` raises KeyError after the shop step has written; a successful import had all three keys |
| Catalog.ImportRest | orders/backend/views.py:57-81 | after the shop step, a missing `categories` raises KeyError with nothing further written, and a successful run had `categories` and `goods` |
| Catalog.CompleteDocumentImports | orders/backend/views.py:55-81 | a document with all three keys imports exactly as its feed does |
| Catalog.MissingGoodsClearsShop | orders/backend/views.py:63-64 | a document without `goods` raises KeyError only after the categories are attached and every listing of the shop, with its order lines, is deleted |
| Catalog.ImportDocumentValid | orders/backend/views.py:55-81 | the import of a document, whichever key is missing, leaves a consistent store |
| Catalog.PartnerUpdate | orders/backend/views.py:35-86 | anonymous users and non-shop users are refused with 403; a missing or invalid url writes nothing; a feed that cannot be fetched or parsed raises with nothing written; otherwise the store is the one the document's import leaves, including its KeyError for a missing top-level key, the exception raised is the import's, and the reply is a success exactly when the import completes |
| Catalog.PartnerUpdateChecksUrlFirst | orders/backend/views.py:44-51 | a missing or invalid url is answered without reading the feed |
| Catalog.PartnerUpdateValid | orders/backend/views.py:35-86 | the view keeps the store consistent |
| Catalog.ImportTask | orders/backend/tasks.py:84-128 | a falsy or invalid url gives a failed status with nothing written; a feed that cannot be loaded, or a document without `shop`, raises with nothing written; the status is success exactly when the feed loads and the document's import completes |
| Catalog.ViewMatchesTask | orders/backend/tasks.py:96-100 | the view and the import task write the same store; their answers differ only where the import task turns the shop step's IntegrityError into a failed status |
| Catalog.TaskRefusesSecondShop | orders/backend/tasks.py:96-100 | a user who owns a shop of another name gets a failed status for the one-to-one violation, and nothing is written |
| Catalog.TaskRefusesUnknownPartner | orders/backend/tasks.py:96-100 | a partner id that names no user gets a failed status for the owner's foreign key, and nothing is written |
| Catalog.ImportTaskValid | orders/backend/tasks.py:84-128 | the import task keeps the store consistent |
| Basket.GetOrCreateBasket | orders/backend/views.py:361-362 | raises exactly when the user has more than one basket (MultipleObjectsReturned), or has none and names no stored user (the owner's foreign key); a found basket leaves the store alone; a new one is the user's only basket |
| Basket.GetOrCreateBasketValid | orders/backend/views.py:361-362 | on a consistent store the lookup always yields the caller's only basket and keeps the store consistent |
| Basket.GetOrCreateBasketAgain | orders/backend/views.py:391-392 | asking a second time returns the same basket and writes nothing |
| Basket.BasketPostAdds | orders/backend/views.py:348-381 | the lines created are the accepted entries, in order, under consecutive fresh ids; earlier lines stay; the run stops at the first refused or duplicate entry, for that reason; success means every entry became a line, and the count is the number created |
| Basket.AddLinesTotal | orders/backend/views.py:339-341 | the basket's sum grows by quantity × price of exactly the lines created |
| Basket.AddLines | orders/backend/views.py:363-379 | the lines step writes only order lines and their sequence; the sequence advances by the count created, at most one per entry, and a run that does not stop creates one per entry |
| Basket.BasketPost | orders/backend/views.py:348-381 | anonymous callers get 403; a missing `items` and an undecodable one are answered with nothing written; a success reports one created line per entry; no notification is sent |
| Basket.BasketPostValid | orders/backend/views.py:348-381 | a post keeps the store consistent, even when it stops half way |
| Basket.UpdateLines | orders/backend/views.py:425-433 | the update writes only the quantities of existing lines: no line appears or disappears and no other field changes; the count is at most the number of entries |
| Basket.UpdateLinesApplies | orders/backend/views.py:425-433 | a completed run counts the entries that name a line of the basket with int fields, and leaves each line with the quantity of the last such entry |
| Basket.BasketPutUpdates | orders/backend/views.py:407-438 | a put touches only the lines of the caller's basket and no other field of them; it reports the number of matching entries |
| Basket.BasketPut | orders/backend/views.py:407-438 | anonymous callers get 403; a missing `items` and an undecodable one are answered with nothing written; a success needs decoded entries; no notification is sent |
| Basket.BasketPutValid | orders/backend/views.py:407-438 | a put keeps the store consistent |
| Basket.BasketDeleteScoped | orders/backend/views.py:384-404 | a delete removes exactly the lines of the caller's basket whose ids the list writes as digit pieces, and reports how many; a list without a digit piece removes nothing and is refused |
| Basket.BasketDelete | orders/backend/views.py:384-404 | anonymous callers get 403; a missing `items` is answered with nothing written; a delete never adds an order line; no notification is sent |
| Basket.BasketDeleteValid | orders/backend/views.py:384-404 | a delete keeps the store consistent |
| Basket.BasketGet | orders/backend/views.py:329-345 | anonymous callers get 403; otherwise the caller's baskets are shown, each with its total |
| Basket.BasketGetAtMostOne | orders/backend/views.py:334-335 | on a consistent store the caller sees at most one basket |
| Basket.Total | orders/backend/views.py:339-341 | the total is absent exactly when the order has no lines |
| Orders.OrderPost | orders/backend/views.py:559-577 | anonymous callers get 403; a missing field or a non-digit id falls off the end of the view with nothing written; a contact that is neither empty nor a digit string raises ValueError with nothing written; only orders change, no order appears or disappears, and the only notification is the caller's new order |
| Orders.OrderPostScoped | orders/backend/views.py:567-569 | a placement changes no order other than the caller's order with the given id, in particular no order of another user |
| Orders.OrderPostPlaces | orders/backend/views.py:564-577 | for a digit id and a contact that is empty or a digit string, the notification fires exactly when the caller owns that order and the contact is empty or names a stored contact; the order is then in state new with that contact, or with none for an empty one, with the same owner and creation time, and the reply is a success; without the notification nothing is written |
| Orders.OrderPostNotifiesOnSuccess | orders/backend/views.py:574-577 | the notification is sent exactly when the reply reports success |
| Orders.OrderPostValid | orders/backend/views.py:559-577 | a placement keeps the store consistent |
| Orders.OrderGet | orders/backend/views.py:539-557 | anonymous callers get 403; otherwise only the caller's orders are shown, each with its total |
| Orders.OrderGetSplitsWithBasket | orders/backend/views.py:544-545 | the order list and the basket list together show each of the caller's orders exactly once |
| Orders.PlacedOrderListed | orders/backend/views.py:564-577 | a placed order leaves the basket list and appears in the order list with its total unchanged |
| Orders.ContactDelete | orders/backend/views.py:486-505 | anonymous callers get 403; a missing `items` is answered with nothing written; no notification is sent |
| Orders.ContactDeleteScoped | orders/backend/views.py:486-505 | a delete removes exactly the caller's contacts that the list names by digit pieces, the orders naming a removed contact, and those orders' lines; the count is all rows removed; a list without a digit piece removes nothing |
| Orders.ContactDeleteKeepsOthers | orders/backend/views.py:497 | when every order names a contact of its own owner, a contact delete removes no order or line of another user |
| Orders.ForeignContactPlaced | orders/backend/views.py:567-569 | a user can place an order with another user's contact |
| Orders.ForeignContactCascade | orders/backend/models.py:222-224 | the contact's owner then deletes that other user's order by deleting the contact |
| Orders.ContactDeleteValid | orders/backend/models.py:222-224 | a contact delete, with its cascade, keeps the store consistent |
| Orders.PatchIdempotent | orders/backend/views.py:519-522 | applying a partial update twice is applying it once, and an empty update changes nothing |
| Orders.ContactPut | orders/backend/views.py:508-528 | anonymous callers get 403 with nothing written; no notification is sent |
| Orders.ContactPutScoped | orders/backend/views.py:508-528 | a change succeeds exactly when the id is a digit string naming a contact of the caller and the patch validates; it then rewrites that contact only and keeps its owner; otherwise nothing is written |
| Orders.ContactPutValid | orders/backend/views.py:508-528 | a contact change keeps the store consistent |

## Left out

- The HTTP fetch and the YAML parse of the feed are one parameter, `load`, which yields the parsed document with each of its top-level keys present or absent. A failed fetch and a failed parse appear as one `FeedUnavailable` exception.
- Catalog.PartnerUpdate, Catalog.ImportTask: an entry of `categories` or `goods` that lacks one of its own keys (`id`, `name`, `category`, `price`, `parameters`, ...) is not modelled: the document's entries are already records. The code raises KeyError at that entry, after the earlier entries are written.
- Catalog.PartnerUpdate, Catalog.ImportTask: YAML values of the wrong type (a string price, a list for `parameters`) are not modelled; goods are typed records.
- Django's `URLValidator` is the parameter `isValidUrl`.
- The serializers are not modelled: serializers.py is not part of this model. `OrderItemSerializer.is_valid` is the parameter `valid`. The model adds the checks such a serializer derives from the model: the listing exists and the quantity is not negative. A duplicate (order, listing) line is treated as an IntegrityError at save time, not as a serializer error.
- `ContactSerializer` validation is the parameter `valid` of `ContactPut`. Its error texts are one `InvalidContact` kind.
- Orders.ContactPutScoped: a partial update never changes a contact's owner. Whether the serializer would accept a `user` field is not known without serializers.py.
- `load_json` of the basket views is the parameter `decode`. Entries are already decoded into `LineRequest` (post) and `UpdateEntry` (put) values.
- Authentication is the `Principal` argument. Password hashing is left out, and so are e-mail, celery, signals other than the notification, and the confirmation tokens.
- The `new_order` signal appears as an event in the result. What its receivers do is not modelled.
- Concurrency is left out: requests run one at a time.
- Database-generated timestamps are left out; a new basket takes its creation time from the parameter `now`.
- The views' JSON error texts are represented by error kinds. The serializers' output for the GET views is represented by the order ids and their totals.
- `UserManager.create_user` is left out: it calls itself without end and never reaches `_create_user`.
- `ContactView.get` and `post`, the other views, admin, urls and migrations are not part of this model.
- Orders.OrderPost: request values are strings. A contact is read as empty (no contact) or as a digit string. Python's `int()` also accepts signs and surrounding blanks; the model sends those to the ValueError path.
- Basket.BasketDeleteScoped, Orders.ContactDeleteScoped, Orders.ContactPutScoped, Orders.OrderPost: a digit is an ASCII digit. Python's `str.isdigit` also accepts other Unicode digits: '٣' passes and reads as 3, while '²' passes `isdigit` but makes `int()` raise. Those strings are treated as non-digits.
- Column widths are not enforced. The `PositiveIntegerField` columns (external id, quantity, price, recommended price, line quantity) are checked for sign only; a value beyond the database's integer range, which raises DataError or OverflowError, is not modelled. `CharField` `max_length` limits (shop, category, product and parameter names, model, contact fields) are not checked either.
- Models.CreateSuperuser: a flag is a boolean or absent. The code refuses any value that `is not True`, such as 1 or "yes"; the model can only pass an explicit false.
- Basket.GetOrCreateBasketValid, Basket.GetOrCreateBasketAgain, Basket.BasketPostAdds, Basket.BasketPutUpdates, Basket.BasketDeleteScoped: these lemmas assume the caller is a stored user, as an authenticated request's user always is. For a user id that is not stored, the basket lookup raises the foreign-key IntegrityError before anything is written. `Basket.GetOrCreateBasket` states that case, and the consistency lemmas of the views cover it.
- Models.NormalizeEmail: lower-cases ASCII letters only, and does not strip blanks around an address that contains `@`. Django's `normalize_email` does both.
- Basket.BasketDeleteScoped: the request fields (`items`, `id`, `contact`) are taken to be strings, here and in the contact and order views. A JSON number or list there would make `split` or `isdigit` raise; that case is not modelled.
- The ordering, prefetching and `distinct()` of the GET queries are not modelled.
