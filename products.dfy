/** `create_product` of app.py: the request checks, run in a fixed order before
    anything is written, and the atomic insert of the product together with the
    upsert of its inventory row in one warehouse. */
module Products {
  import opened Wrappers
  import opened Decimals
  import opened Text

  /** The request's `price`: absent or JSON null, or present with the result of
      parsing it as a `Decimal` (`None` when the parse raises). */
  datatype PriceField = PriceMissing | PriceGiven(parsed: Option<Decimal>)

  /** The JSON body of the request, reduced to what the checks look at:
      `name` and `sku` are `data.get(..) or ""` before stripping, `warehouseId`
      is `None` when absent or null, `initialQuantity` is the result of `int()`
      on the field (an absent field gives `Some(0)`, a value `int()` rejects
      gives `None`). */
  datatype CreateRequest = CreateRequest(
    name: string,
    sku: string,
    price: PriceField,
    warehouseId: Option<int>,
    initialQuantity: Option<int>)

  /** Why a request is answered with 400. */
  datatype Rejection = MissingFields | InvalidPrice | NegativeQuantity | NonIntegerQuantity

  /** The answer of the endpoint; `Created` carries the new product's id and
      the resulting inventory quantity. */
  datatype Outcome = Created(productId: int, quantity: int) | BadRequest(reason: Rejection) | NotFound | Conflict

  /** The HTTP status that app.py returns for each outcome. */
  function StatusCode(o: Outcome): (code: int)
    ensures o.Created? <==> code == 201
    ensures o.BadRequest? <==> code == 400
    ensures o.NotFound? <==> code == 404
    ensures o.Conflict? <==> code == 409
  {
    match o
    case Created(_, _) => 201
    case BadRequest(_) => 400
    case NotFound => 404
    case Conflict => 409
  }

  /** A request that passed every check, with its stripped name and sku. */
  datatype NewProduct = NewProduct(name: string, sku: string, price: Decimal, warehouseId: int, quantity: int)

  /** The first check: name and sku are not blank, price and warehouse_id are given. */
  predicate HasRequiredFields(req: CreateRequest) {
    Strip(req.name) != [] && Strip(req.sku) != [] && req.price.PriceGiven? && req.warehouseId.Some?
  }

  /** The checks of `create_product`, in the order the endpoint runs them.
      A failure is always a 400 or a 404; a success carries a non-blank name
      and sku, a price that is a number not below zero, a quantity not below
      zero and a warehouse that exists. */
  function Validate(req: CreateRequest, warehouses: set<int>): (r: Result<NewProduct, Outcome>)
    ensures r.Failure? ==> r.error.BadRequest? || r.error.NotFound?
    ensures r.Success? ==> && r.value.name == Strip(req.name) && r.value.name != []
                           && r.value.sku == Strip(req.sku) && r.value.sku != []
                           && req.price == PriceGiven(Some(r.value.price))
                           && !r.value.price.NaN? && r.value.price != Infinite(true)
                           && (r.value.price.Finite? ==> Value(r.value.price) >= 0.0)
                           && req.initialQuantity == Some(r.value.quantity) && r.value.quantity >= 0
                           && req.warehouseId == Some(r.value.warehouseId) && r.value.warehouseId in warehouses
    // the checks in order: each one decides only when every earlier one passed
    ensures !HasRequiredFields(req) ==> r == Failure(BadRequest(MissingFields))
    ensures HasRequiredFields(req) && DecimalFrom(req.price.parsed).None? ==> r == Failure(BadRequest(InvalidPrice))
    ensures HasRequiredFields(req) && DecimalFrom(req.price.parsed).Some? ==>
              && (req.initialQuantity.None? ==> r == Failure(BadRequest(NonIntegerQuantity)))
              && (req.initialQuantity.Some? && req.initialQuantity.value < 0 ==> r == Failure(BadRequest(NegativeQuantity)))
              && (req.initialQuantity.Some? && req.initialQuantity.value >= 0 ==>
                    (r == Failure(NotFound) <==> req.warehouseId.value !in warehouses))
  {
    if !HasRequiredFields(req) then
      Failure(BadRequest(MissingFields))
    else
      match DecimalFrom(req.price.parsed)
      case None => Failure(BadRequest(InvalidPrice))
      case Some(price) =>
        match req.initialQuantity
        case None => Failure(BadRequest(NonIntegerQuantity))
        case Some(q) =>
          if q < 0 then Failure(BadRequest(NegativeQuantity))
          else if req.warehouseId.value !in warehouses then Failure(NotFound)
          else Success(NewProduct(Strip(req.name), Strip(req.sku), price, req.warehouseId.value, q))
  }

  /** A request is accepted exactly when every check passes. */
  lemma ValidateAcceptsExactly(req: CreateRequest, warehouses: set<int>)
    ensures Validate(req, warehouses).Success? <==>
              && HasRequiredFields(req)
              && DecimalFrom(req.price.parsed).Some?
              && req.initialQuantity.Some? && req.initialQuantity.value >= 0
              && req.warehouseId.value in warehouses
  {
  }

  /** The inventory after adding `delta` to the row `key`, creating the row
      with `delta` when it is absent; every other row is left as it was. */
  function Upsert(inventory: map<(int, int), int>, key: (int, int), delta: int): (r: map<(int, int), int>)
    ensures r.Keys == inventory.Keys + {key}
    ensures r[key] == if key in inventory then inventory[key] + delta else delta
    ensures forall k :: k in inventory && k != key ==> r[k] == inventory[k]
  {
    if key in inventory then inventory[key := inventory[key] + delta] else inventory[key := delta]
  }

  /** A product row as stored. */
  datatype ProductRecord = ProductRecord(sku: string, name: string, price: Decimal)

  /** The tables `create_product` reads and writes, as a value: the products
      by id, the unique index on their sku, the inventory quantities keyed by
      (product id, warehouse id), and the next id the database hands out.
      Inventory rows need not belong to a stored product: no foreign key is
      assumed, so the upsert may find a row for a new id. */
  datatype Tables = Tables(products: map<int, ProductRecord>, skus: set<string>,
                           inventory: map<(int, int), int>, nextId: int)

  /** Ids come from a counter above every stored id, the sku index lists the
      stored skus, no two products share a sku, and no quantity is below zero. */
  ghost predicate StoreInvariant(t: Tables)
  {
    && (forall id :: id in t.products ==> id < t.nextId)
    && t.skus == (set id | id in t.products :: t.products[id].sku)
    && (forall a, b :: a in t.products && b in t.products && t.products[a].sku == t.products[b].sku ==> a == b)
    && (forall k :: k in t.inventory ==> t.inventory[k] >= 0)
  }

  /** `create_product` as one transaction on the tables. It creates exactly
      when every check passes and the sku is free; a rejection, and the
      rollback after a duplicate sku, write nothing. A created product gets
      the next id, and its inventory row in the requested warehouse ends at
      the prior quantity (none counts as 0) plus the initial quantity, while
      every other row keeps its quantity. */
  function Create(t: Tables, warehouses: set<int>, req: CreateRequest): (r: (Outcome, Tables))
    ensures r.0.Created? <==> Validate(req, warehouses).Success? && Validate(req, warehouses).value.sku !in t.skus
    ensures !r.0.Created? ==> r.1 == t
    ensures !r.0.Created? ==>
              r.0 == if Validate(req, warehouses).Failure? then Validate(req, warehouses).error else Conflict
    ensures r.0.Created? ==>
              var key := (t.nextId, req.warehouseId.value);
              && r.0.productId == t.nextId && r.1.nextId == t.nextId + 1
              && r.1.products == t.products[t.nextId := ProductRecord(Strip(req.sku), Strip(req.name), req.price.parsed.value)]
              && r.1.skus == t.skus + {Strip(req.sku)}
              && r.1.inventory.Keys == t.inventory.Keys + {key}
              && r.0.quantity == r.1.inventory[key]
              && r.1.inventory[key] == (if key in t.inventory then t.inventory[key] else 0) + req.initialQuantity.value
              && (forall k :: k in t.inventory && k != key ==> r.1.inventory[k] == t.inventory[k])
  {
    match Validate(req, warehouses)
    case Failure(e) => (e, t)
    case Success(np) =>
      if np.sku in t.skus then (Conflict, t)
      else
        var key := (t.nextId, np.warehouseId);
        var inventory := Upsert(t.inventory, key, np.quantity);
        (Created(t.nextId, inventory[key]),
         Tables(t.products[t.nextId := ProductRecord(np.sku, np.name, np.price)], t.skus + {np.sku},
                inventory, t.nextId + 1))
  }

  /** Every request keeps the store invariant, and a created product's id was
      not in use. */
  lemma CreateKeepsInvariant(t: Tables, warehouses: set<int>, req: CreateRequest)
    requires StoreInvariant(t)
    ensures StoreInvariant(Create(t, warehouses, req).1)
    ensures Create(t, warehouses, req).0.Created? ==> Create(t, warehouses, req).0.productId !in t.products
  {
    var r := Create(t, warehouses, req);
    if r.0.Created? {
      var sku := Strip(req.sku);
      var ps := r.1.products;
      assert r.1.skus == (set id | id in ps :: ps[id].sku) by {
        forall x | x in t.skus + {sku} ensures exists id :: id in ps && ps[id].sku == x {
          if x == sku {
            assert ps[t.nextId].sku == x;
          } else {
            var id :| id in t.products && t.products[id].sku == x;
            assert ps[id].sku == x;
          }
        }
      }
    }
  }

  /** The tables of the database (shared by all companies), with the ids of its warehouses. */
  class Store {
    var warehouses: set<int>
    var products: map<int, ProductRecord>
    var skus: set<string>
    var inventory: map<(int, int), int>
    var nextId: int

    /** The tables as a value. */
    ghost function State(): Tables
      reads this
    {
      Tables(products, skus, inventory, nextId)
    }

    /** The store invariant holds of the current tables. */
    ghost predicate Valid()
      reads this
    {
      StoreInvariant(State())
    }

    /** A store with the given warehouses and inventory rows and no products. */
    constructor (warehouses: set<int>, inventory: map<(int, int), int>)
      requires forall k :: k in inventory ==> inventory[k] >= 0
      ensures Valid()
      ensures this.warehouses == warehouses
      ensures State() == Tables(map[], {}, inventory, 1)
    {
      this.warehouses := warehouses;
      this.inventory := inventory;
      products := map[];
      skus := {};
      nextId := 1;
    }

    /** `create_product`: the answer and the new tables are those of `Create`,
        and the invariant is kept. */
    method CreateProduct(req: CreateRequest) returns (outcome: Outcome)
      requires Valid()
      modifies this
      ensures (outcome, State()) == Create(old(State()), old(warehouses), req)
      ensures warehouses == old(warehouses)
      ensures Valid()
    {
      CreateKeepsInvariant(State(), warehouses, req);
      var checked := Validate(req, warehouses);
      if checked.Failure? {
        return checked.error;
      }
      var np := checked.value;
      // inserting the product violates the unique index on sku: roll back
      if np.sku in skus {
        return Conflict;
      }
      var id := nextId;
      products := products[id := ProductRecord(np.sku, np.name, np.price)];
      skus := skus + {np.sku};
      nextId := nextId + 1;
      var key := (id, np.warehouseId);
      if key in inventory {
        inventory := inventory[key := inventory[key] + np.quantity];
      } else {
        inventory := inventory[key := np.quantity];
      }
      outcome := Created(id, inventory[key]);
    }
  }

  /** A request whose name and sku carry no surrounding whitespace, with a
      valid price, a quantity not below zero and a known warehouse, is
      accepted with its fields unchanged. */
  lemma CleanRequestAccepted(name: string, sku: string, price: Decimal, warehouseId: int, quantity: int,
                             warehouses: set<int>)
    requires name != [] && !IsSpace(name[0]) && !IsSpace(name[|name| - 1])
    requires sku != [] && !IsSpace(sku[0]) && !IsSpace(sku[|sku| - 1])
    requires DecimalFrom(Some(price)) == Some(price)
    requires quantity >= 0 && warehouseId in warehouses
    ensures Validate(CreateRequest(name, sku, PriceGiven(Some(price)), Some(warehouseId), Some(quantity)), warehouses)
            == Success(NewProduct(name, sku, price, warehouseId, quantity))
  {
    StripKeeps(name);
    StripKeeps(sku);
  }

  /** The empty tables of a fresh database. */
  const Empty := Tables(map[], {}, map[], 1)

  /** A first product, and a second request reusing its sku. */
  const Widget := CreateRequest("Widget", "W-1", PriceGiven(Some(Finite(1999, -2))), Some(7), Some(5))
  const WidgetAgain := CreateRequest("Widget again", "W-1", PriceGiven(Some(Finite(5, 0))), Some(7), Some(9))
  const Gadget := CreateRequest("Gadget", "G-1", PriceGiven(Some(Finite(0, 0))), Some(7), Some(3))

  /** The tables after `Widget` is created in warehouse 7 of a fresh database. */
  const AfterWidget := Tables(map[1 := ProductRecord("W-1", "Widget", Finite(1999, -2))], {"W-1"}, map[(1, 7) := 5], 2)

  /** The first product of a fresh database gets id 1 and its initial quantity. */
  lemma WidgetScenario()
    ensures Create(Empty, {7}, Widget) == (Created(1, 5), AfterWidget)
  {
    CleanRequestAccepted("Widget", "W-1", Finite(1999, -2), 7, 5, {7});
    var r := Create(Empty, {7}, Widget);
    assert r.1.products == AfterWidget.products;
    assert r.1.inventory == AfterWidget.inventory;
    assert r.1.skus == AfterWidget.skus && r.1.nextId == 2;
    assert r.1 == AfterWidget;
  }

  /** A second request with a taken sku is a conflict that changes nothing. */
  lemma DuplicateSkuScenario()
    ensures Create(AfterWidget, {7}, WidgetAgain) == (Conflict, AfterWidget)
  {
    CleanRequestAccepted("Widget again", "W-1", Finite(5, 0), 7, 9, {7});
  }

  /** A second product in the same warehouse holds its own initial quantity
      and leaves the first product's row alone. */
  lemma TwoProductsScenario()
    ensures Create(AfterWidget, {7}, Gadget).0 == Created(2, 3)
    ensures Create(AfterWidget, {7}, Gadget).1.inventory == map[(1, 7) := 5, (2, 7) := 3]
  {
    CleanRequestAccepted("Gadget", "G-1", Finite(0, 0), 7, 3, {7});
    assert "G-1" !in AfterWidget.skus by {
      assert "G-1"[0] != "W-1"[0];
    }
  }
}
