/** `low_stock_alerts` of app.py: the staged computation behind
    GET /api/companies/<id>/alerts/low-stock, over the tables as values and
    with the current time as a parameter. The subqueries become functions:
    the sales in the window grouped by (product, warehouse), the company's
    inventory, the effective threshold, the supplier subquery, and the join
    that keeps a pair with sales in the window whose stock is below the
    threshold. The loop that turns the joined rows into alerts is a method. */
module LowStock {
  import opened Wrappers
  import opened Schema

  /** The window used when `days` is missing, unparsable or not positive. */
  const DefaultDays: int := 30

  /** Timestamps are whole seconds; `timedelta(days=d)` spans `d` of these days. */
  const SecondsPerDay: int := 86400

  // ---- the days parameter ----

  /** `int(request.args.get("days", 30))`, kept when positive, else 30. The
      parse is supplied by the caller: `None` when `int()` raises, `Some(30)`
      when the argument is absent. */
  function NormaliseDays(parsed: Option<int>): (days: int)
    ensures days > 0
    ensures parsed.Some? && parsed.value > 0 ==> days == parsed.value
    ensures parsed.None? || parsed.value <= 0 ==> days == DefaultDays
  {
    if parsed.Some? && parsed.value > 0 then parsed.value else DefaultDays
  }

  /** A normalised window is normalised already. */
  lemma NormaliseDaysIdempotent(parsed: Option<int>)
    ensures NormaliseDays(Some(NormaliseDays(parsed))) == NormaliseDays(parsed)
  {
  }

  /** `since`: the start of the sales window, `days` days before `now`. */
  function WindowStart(now: int, days: int): int {
    now - days * SecondsPerDay
  }

  // ---- recent_sales: the company's order items in the window, grouped ----

  /** An order of the company, placed in the window, with the given id. */
  predicate InWindow(o: SalesOrderRow, orderId: int, companyId: int, since: int) {
    o.id == orderId && o.companyId == companyId && o.orderedAt >= since
  }

  /** One row of the join of order items with orders: the item's
      (product, warehouse) pair and its quantity. */
  datatype SaleLine = SaleLine(key: (int, int), quantity: int)

  /** The join rows of one order item: one per matching order in the window. */
  function ItemLines(item: SalesOrderItemRow, orders: seq<SalesOrderRow>, companyId: int, since: int): (r: seq<SaleLine>)
    ensures forall l :: l in r ==> l == SaleLine((item.productId, item.warehouseId), item.quantity)
    ensures r != [] <==> exists o :: o in orders && InWindow(o, item.orderId, companyId, since)
  {
    if orders == [] then []
    else
      (if InWindow(orders[0], item.orderId, companyId, since)
       then [SaleLine((item.productId, item.warehouseId), item.quantity)] else [])
      + ItemLines(item, orders[1..], companyId, since)
  }

  /** The join rows of all order items with the company's orders in the window. */
  function SalesLines(items: seq<SalesOrderItemRow>, orders: seq<SalesOrderRow>, companyId: int, since: int): seq<SaleLine> {
    if items == [] then []
    else SalesLines(items[..|items| - 1], orders, companyId, since) + ItemLines(items[|items| - 1], orders, companyId, since)
  }

  /** GROUP BY (product, warehouse) with SUM(quantity): one entry per pair
      that has at least one join row. */
  function GroupSum(lines: seq<SaleLine>): map<(int, int), int> {
    if lines == [] then map[]
    else
      var m := GroupSum(lines[..|lines| - 1]);
      var l := lines[|lines| - 1];
      m[l.key := (if l.key in m then m[l.key] else 0) + l.quantity]
  }

  /** The sum of the quantities of the join rows of one pair. */
  function LineSum(lines: seq<SaleLine>, key: (int, int)): int {
    if lines == [] then 0
    else LineSum(lines[..|lines| - 1], key) + (if lines[|lines| - 1].key == key then lines[|lines| - 1].quantity else 0)
  }

  /** A key that no line carries sums to 0. */
  lemma {:induction false} LineSumAbsent(lines: seq<SaleLine>, key: (int, int))
    requires forall l :: l in lines ==> l.key != key
    ensures LineSum(lines, key) == 0
  {
    if lines != [] {
      assert lines[|lines| - 1] in lines;
      LineSumAbsent(lines[..|lines| - 1], key);
    }
  }

  /** The grouped table has a row for exactly the pairs with a join row, and
      that row holds the sum of their quantities. */
  lemma {:induction false} GroupSumMeaning(lines: seq<SaleLine>, key: (int, int))
    ensures key in GroupSum(lines) <==> exists l :: l in lines && l.key == key
    ensures key in GroupSum(lines) ==> GroupSum(lines)[key] == LineSum(lines, key)
  {
    if lines != [] {
      var init := lines[..|lines| - 1];
      GroupSumMeaning(init, key);
      assert lines == init + [lines[|lines| - 1]];
      if key !in GroupSum(init) {
        LineSumAbsent(init, key);
      }
    }
  }

  /** The sub-table `recent_sales`, pair to summed quantity. */
  function RecentSales(db: Db, companyId: int, since: int): map<(int, int), int> {
    GroupSum(SalesLines(db.orderItems, db.orders, companyId, since))
  }

  /** Some item of the pair is on an order of the company placed in the window. */
  ghost predicate HasWindowSale(db: Db, companyId: int, since: int, productId: int, warehouseId: int) {
    exists it, o :: && it in db.orderItems && o in db.orders
                    && InWindow(o, it.orderId, companyId, since)
                    && it.productId == productId && it.warehouseId == warehouseId
  }

  /** The quantity of the pair sold on the company's orders in the window, summed
      over the join of order items with orders. */
  function WindowQuantity(db: Db, companyId: int, since: int, productId: int, warehouseId: int): int {
    LineSum(SalesLines(db.orderItems, db.orders, companyId, since), (productId, warehouseId))
  }

  /** A line of a pair in the join of order items with orders comes from an
      item of the pair on a company order placed in the window. */
  lemma {:induction false} SalesLineSource(items: seq<SalesOrderItemRow>, orders: seq<SalesOrderRow>,
                                           companyId: int, since: int, l: SaleLine)
    requires l in SalesLines(items, orders, companyId, since)
    ensures exists it, o :: && it in items && o in orders && InWindow(o, it.orderId, companyId, since)
                            && (it.productId, it.warehouseId) == l.key
  {
    var init := items[..|items| - 1];
    var last := items[|items| - 1];
    assert items == init + [last];
    var tail := ItemLines(last, orders, companyId, since);
    assert SalesLines(items, orders, companyId, since) == SalesLines(init, orders, companyId, since) + tail;
    if l in tail {
      var o :| o in orders && InWindow(o, last.orderId, companyId, since);
      assert last in items;
    } else {
      SalesLineSource(init, orders, companyId, since, l);
      var it, o :| && it in init && o in orders && InWindow(o, it.orderId, companyId, since)
                   && (it.productId, it.warehouseId) == l.key;
      assert it in items;
    }
  }

  /** An item on a company order placed in the window gives a line of its
      pair in the join of order items with orders. */
  lemma {:induction false} SalesLineOfItem(items: seq<SalesOrderItemRow>, orders: seq<SalesOrderRow>,
                                           companyId: int, since: int, it: SalesOrderItemRow, o: SalesOrderRow)
    requires it in items && o in orders && InWindow(o, it.orderId, companyId, since)
    ensures exists l :: l in SalesLines(items, orders, companyId, since) && l.key == (it.productId, it.warehouseId)
  {
    var init := items[..|items| - 1];
    var last := items[|items| - 1];
    assert items == init + [last];
    var head := SalesLines(init, orders, companyId, since);
    var tail := ItemLines(last, orders, companyId, since);
    assert SalesLines(items, orders, companyId, since) == head + tail;
    if it == last {
      assert tail != [] && tail[0] in tail;
      assert tail[0].key == (it.productId, it.warehouseId);
      assert tail[0] in head + tail;
    } else {
      assert it in init;
      SalesLineOfItem(init, orders, companyId, since, it, o);
      var l :| l in head && l.key == (it.productId, it.warehouseId);
      assert l in head + tail;
    }
  }

  /** The join of order items with orders has a line of a pair exactly when
      some item of the pair is on a company order placed in the window. */
  lemma SalesLinesKey(items: seq<SalesOrderItemRow>, orders: seq<SalesOrderRow>,
                      companyId: int, since: int, key: (int, int))
    ensures (exists l :: l in SalesLines(items, orders, companyId, since) && l.key == key) <==>
            exists it, o :: && it in items && o in orders && InWindow(o, it.orderId, companyId, since)
                            && (it.productId, it.warehouseId) == key
  {
    if exists l :: l in SalesLines(items, orders, companyId, since) && l.key == key {
      var l :| l in SalesLines(items, orders, companyId, since) && l.key == key;
      SalesLineSource(items, orders, companyId, since, l);
    }
    if exists it, o :: && it in items && o in orders && InWindow(o, it.orderId, companyId, since)
                       && (it.productId, it.warehouseId) == key {
      var it, o :| && it in items && o in orders && InWindow(o, it.orderId, companyId, since)
                   && (it.productId, it.warehouseId) == key;
      SalesLineOfItem(items, orders, companyId, since, it, o);
    }
  }

  /** `recent_sales` has a row for a pair exactly when some item of the pair is
      on a company order in the window, and its sum is the window quantity. */
  lemma RecentSalesMeaning(db: Db, companyId: int, since: int, productId: int, warehouseId: int)
    ensures (productId, warehouseId) in RecentSales(db, companyId, since) <==>
            HasWindowSale(db, companyId, since, productId, warehouseId)
    ensures (productId, warehouseId) in RecentSales(db, companyId, since) ==>
            RecentSales(db, companyId, since)[(productId, warehouseId)] == WindowQuantity(db, companyId, since, productId, warehouseId)
  {
    var key := (productId, warehouseId);
    GroupSumMeaning(SalesLines(db.orderItems, db.orders, companyId, since), key);
    SalesLinesKey(db.orderItems, db.orders, companyId, since, key);
  }

  /** The window quantity read off the order items table alone: the sum of
      the quantities of the pair's items that are on a company order placed
      in the window. */
  ghost function ItemSum(items: seq<SalesOrderItemRow>, orders: seq<SalesOrderRow>, companyId: int, since: int,
                         key: (int, int)): int
  {
    if items == [] then 0
    else
      var it := items[|items| - 1];
      ItemSum(items[..|items| - 1], orders, companyId, since, key)
      + (if (it.productId, it.warehouseId) == key && exists o :: o in orders && InWindow(o, it.orderId, companyId, since)
         then it.quantity else 0)
  }

  /** The sum over a concatenation is the sum of the sums. */
  lemma {:induction false} LineSumAppend(a: seq<SaleLine>, b: seq<SaleLine>, key: (int, int))
    ensures LineSum(a + b, key) == LineSum(a, key) + LineSum(b, key)
  {
    if b == [] {
      assert a + b == a;
    } else {
      var init := b[..|b| - 1];
      LineSumAppend(a, init, key);
      assert (a + b)[..|a + b| - 1] == a + init;
      assert (a + b)[|a + b| - 1] == b[|b| - 1];
    }
  }

  /** With unique order ids an item joins at most one order: one line when its
      order is a company order in the window, none otherwise. */
  lemma {:induction false} ItemLinesAtMostOne(item: SalesOrderItemRow, orders: seq<SalesOrderRow>, companyId: int, since: int)
    requires OrderIdsDistinct(orders)
    ensures ItemLines(item, orders, companyId, since) ==
              if exists o :: o in orders && InWindow(o, item.orderId, companyId, since)
              then [SaleLine((item.productId, item.warehouseId), item.quantity)] else []
  {
    if orders != [] {
      var rest := orders[1..];
      assert OrderIdsDistinct(rest) by {
        forall i, j | 0 <= i < j < |rest| ensures rest[i].id != rest[j].id {
          assert rest[i] == orders[i + 1] && rest[j] == orders[j + 1];
        }
      }
      ItemLinesAtMostOne(item, rest, companyId, since);
      if InWindow(orders[0], item.orderId, companyId, since) {
        forall o | o in rest ensures !InWindow(o, item.orderId, companyId, since) {
          var k :| 0 <= k < |rest| && rest[k] == o;
          assert orders[k + 1] == o;
        }
        assert ItemLines(item, rest, companyId, since) == [];
      } else {
        assert forall o :: o in orders && InWindow(o, item.orderId, companyId, since) ==> o in rest;
      }
    }
  }

  /** With unique order ids, the join's sum of a pair is the sum over the
      order items table. */
  lemma {:induction false} SalesLinesSum(items: seq<SalesOrderItemRow>, orders: seq<SalesOrderRow>,
                                         companyId: int, since: int, key: (int, int))
    requires OrderIdsDistinct(orders)
    ensures LineSum(SalesLines(items, orders, companyId, since), key) == ItemSum(items, orders, companyId, since, key)
  {
    if items != [] {
      var init := items[..|items| - 1];
      var last := items[|items| - 1];
      SalesLinesSum(init, orders, companyId, since, key);
      var head := SalesLines(init, orders, companyId, since);
      var tail := ItemLines(last, orders, companyId, since);
      assert SalesLines(items, orders, companyId, since) == head + tail;
      LineSumAppend(head, tail, key);
      ItemLinesAtMostOne(last, orders, companyId, since);
      var line := SaleLine((last.productId, last.warehouseId), last.quantity);
      var joined := exists o :: o in orders && InWindow(o, last.orderId, companyId, since);
      assert tail == if joined then [line] else [];
      assert [line][..0] == [];
      assert LineSum(tail, key) == if line.key == key && joined then last.quantity else 0;
    }
  }

  /** With unique order ids, the value `recent_sales` holds for a pair is the
      summed quantity of the pair's items on company orders in the window. */
  lemma RecentSalesSum(db: Db, companyId: int, since: int, productId: int, warehouseId: int)
    requires OrderIdsDistinct(db.orders)
    ensures WindowQuantity(db, companyId, since, productId, warehouseId)
            == ItemSum(db.orderItems, db.orders, companyId, since, (productId, warehouseId))
    ensures (productId, warehouseId) in RecentSales(db, companyId, since) ==>
              RecentSales(db, companyId, since)[(productId, warehouseId)]
              == ItemSum(db.orderItems, db.orders, companyId, since, (productId, warehouseId))
  {
    RecentSalesMeaning(db, companyId, since, productId, warehouseId);
    SalesLinesSum(db.orderItems, db.orders, companyId, since, (productId, warehouseId));
  }

  // ---- inv: the company's inventory ----

  /** `wh_ids`: the ids of the company's warehouses. */
  function CompanyWarehouseIds(warehouses: seq<WarehouseRow>, companyId: int): set<int> {
    set w | w in warehouses && w.companyId == companyId :: w.id
  }

  /** `inv`: the inventory rows whose warehouse is in `ids`. */
  function ScopedInventory(inventory: seq<InventoryRow>, ids: set<int>): (r: seq<InventoryRow>)
    ensures forall x :: x in r <==> x in inventory && x.warehouseId in ids
  {
    if inventory == [] then []
    else (if inventory[0].warehouseId in ids then [inventory[0]] else []) + ScopedInventory(inventory[1..], ids)
  }

  // ---- threshold: override, else the product default, else 0 ----

  /** The product row with the given id, looked up by primary key. */
  function FindProduct(products: seq<ProductRow>, id: int): (r: Option<ProductRow>)
    ensures r.Some? ==> r.value in products && r.value.id == id
    ensures r.None? <==> forall p :: p in products ==> p.id != id
  {
    if products == [] then None
    else if products[0].id == id then Some(products[0])
    else FindProduct(products[1..], id)
  }

  /** The warehouse row with the given id, looked up by primary key. */
  function FindWarehouse(warehouses: seq<WarehouseRow>, id: int): (r: Option<WarehouseRow>)
    ensures r.Some? ==> r.value in warehouses && r.value.id == id
    ensures r.None? <==> forall w :: w in warehouses ==> w.id != id
  {
    if warehouses == [] then None
    else if warehouses[0].id == id then Some(warehouses[0])
    else FindWarehouse(warehouses[1..], id)
  }

  /** The product's default threshold row (outer join on product id). */
  function FindThreshold(thresholds: seq<ThresholdRow>, productId: int): (r: Option<ThresholdRow>)
    ensures r.Some? ==> r.value in thresholds && r.value.productId == productId
    ensures r.None? <==> forall t :: t in thresholds ==> t.productId != productId
  {
    if thresholds == [] then None
    else if thresholds[0].productId == productId then Some(thresholds[0])
    else FindThreshold(thresholds[1..], productId)
  }

  /** The pair's override row (outer join on product and warehouse id). */
  function FindOverride(overrides: seq<ThresholdOverrideRow>, productId: int, warehouseId: int): (r: Option<ThresholdOverrideRow>)
    ensures r.Some? ==> r.value in overrides && r.value.productId == productId && r.value.warehouseId == warehouseId
    ensures r.None? <==> forall o :: o in overrides ==> !(o.productId == productId && o.warehouseId == warehouseId)
  {
    if overrides == [] then None
    else if overrides[0].productId == productId && overrides[0].warehouseId == warehouseId then Some(overrides[0])
    else FindOverride(overrides[1..], productId, warehouseId)
  }

  /** `coalesce(override.threshold, default.threshold, 0)`. */
  function EffectiveThreshold(db: Db, productId: int, warehouseId: int): int {
    match FindOverride(db.overrides, productId, warehouseId)
    case Some(o) => o.threshold
    case None =>
      match FindThreshold(db.thresholds, productId)
      case Some(t) => t.threshold
      case None => 0
  }

  /** The override of the pair wins; without one the product's default
      applies; without either the threshold is 0. */
  lemma ThresholdPrecedence(db: Db, productId: int, warehouseId: int)
    requires KeysUnique(db)
    ensures forall o :: o in db.overrides && o.productId == productId && o.warehouseId == warehouseId ==>
              EffectiveThreshold(db, productId, warehouseId) == o.threshold
    ensures (forall o :: o in db.overrides ==> !(o.productId == productId && o.warehouseId == warehouseId)) ==>
              forall t :: t in db.thresholds && t.productId == productId ==>
                EffectiveThreshold(db, productId, warehouseId) == t.threshold
    ensures (forall o :: o in db.overrides ==> !(o.productId == productId && o.warehouseId == warehouseId))
            && (forall t :: t in db.thresholds ==> t.productId != productId) ==>
              EffectiveThreshold(db, productId, warehouseId) == 0
  {
  }

  // ---- supplier_sub: the product's linked suppliers ----

  /** The supplier columns an alert shows. */
  datatype SupplierRef = SupplierRef(id: int, name: string, contactEmail: Option<string>)

  /** One row of the supplier subquery. */
  datatype SupplierSubRow = SupplierSubRow(productId: int, supplier: SupplierRef)

  /** The join of one supplier-product link with the suppliers of its id. */
  function LinkSuppliers(link: SupplierProductRow, suppliers: seq<SupplierRow>): (r: seq<SupplierSubRow>)
    ensures forall x :: x in r <==> exists s :: && s in suppliers && s.id == link.supplierId
                                             && x == SupplierSubRow(link.productId, SupplierRef(s.id, s.name, s.contactEmail))
  {
    if suppliers == [] then []
    else
      (if suppliers[0].id == link.supplierId
       then [SupplierSubRow(link.productId, SupplierRef(suppliers[0].id, suppliers[0].name, suppliers[0].contactEmail))]
       else [])
      + LinkSuppliers(link, suppliers[1..])
  }

  /** The join of all links with the suppliers. */
  function SupplierJoin(links: seq<SupplierProductRow>, suppliers: seq<SupplierRow>): seq<SupplierSubRow> {
    if links == [] then [] else LinkSuppliers(links[0], suppliers) + SupplierJoin(links[1..], suppliers)
  }

  /** A row of the supplier join comes from some link joined with a supplier of
      the link's supplier id, and every such row is in the join. */
  lemma {:induction false} SupplierJoinMembership(links: seq<SupplierProductRow>, suppliers: seq<SupplierRow>, x: SupplierSubRow)
    ensures x in SupplierJoin(links, suppliers) <==> exists l :: l in links && x in LinkSuppliers(l, suppliers)
  {
    if links != [] {
      SupplierJoinMembership(links[1..], suppliers, x);
      if x in SupplierJoin(links[1..], suppliers) {
        var l :| l in links[1..] && x in LinkSuppliers(l, suppliers);
        assert l in links;
      }
      if exists l :: l in links && x in LinkSuppliers(l, suppliers) {
        var l :| l in links && x in LinkSuppliers(l, suppliers);
        if l != links[0] {
          assert l in links[1..];
        }
      }
    }
  }

  /** GROUP BY over all the selected columns: each distinct row once, in the
      order of its first occurrence. */
  function Dedup(s: seq<SupplierSubRow>): (r: seq<SupplierSubRow>)
    ensures forall x :: x in r <==> x in s
    ensures forall i, j :: 0 <= i < j < |r| ==> r[i] != r[j]
  {
    if s == [] then []
    else
      var r := Dedup(s[..|s| - 1]);
      assert s == s[..|s| - 1] + [s[|s| - 1]];
      if s[|s| - 1] in r then r else r + [s[|s| - 1]]
  }

  /** `supplier_sub`: grouped by (product, supplier id, name, email), so one
      row per link whose supplier exists; the minimum lead time it also
      computes is never read. */
  function SupplierSub(db: Db): seq<SupplierSubRow> {
    Dedup(SupplierJoin(db.supplierProducts, db.suppliers))
  }

  /** The suppliers the outer join attaches to a product. */
  function SuppliersOf(sub: seq<SupplierSubRow>, productId: int): (r: seq<SupplierRef>)
    ensures forall s :: s in r <==> SupplierSubRow(productId, s) in sub
  {
    if sub == [] then []
    else (if sub[0].productId == productId then [sub[0].supplier] else []) + SuppliersOf(sub[1..], productId)
  }

  /** `s` is the supplier of a link of the product. */
  ghost predicate Linked(db: Db, productId: int, s: SupplierRef) {
    exists l, sp :: && l in db.supplierProducts && sp in db.suppliers && l.supplierId == sp.id
                    && l.productId == productId && s == SupplierRef(sp.id, sp.name, sp.contactEmail)
  }

  /** The product has a link to a supplier that exists. */
  ghost predicate HasSupplier(db: Db, productId: int) {
    exists l, sp :: && l in db.supplierProducts && sp in db.suppliers && l.supplierId == sp.id
                    && l.productId == productId
  }

  /** The outer join attaches exactly the product's linked suppliers, and
      attaches none exactly when the product has no supplier. */
  lemma SuppliersOfMeaning(db: Db, productId: int)
    ensures forall s :: s in SuppliersOf(SupplierSub(db), productId) <==> Linked(db, productId, s)
    ensures SuppliersOf(SupplierSub(db), productId) == [] <==> !HasSupplier(db, productId)
  {
    var sups := SuppliersOf(SupplierSub(db), productId);
    forall s ensures s in sups <==> Linked(db, productId, s) {
      var x := SupplierSubRow(productId, s);
      SupplierJoinMembership(db.supplierProducts, db.suppliers, x);
      if x in SupplierJoin(db.supplierProducts, db.suppliers) {
        var l :| l in db.supplierProducts && x in LinkSuppliers(l, db.suppliers);
        var sp :| && sp in db.suppliers && sp.id == l.supplierId
                  && x == SupplierSubRow(l.productId, SupplierRef(sp.id, sp.name, sp.contactEmail));
      }
      if Linked(db, productId, s) {
        var l, sp :| && l in db.supplierProducts && sp in db.suppliers && l.supplierId == sp.id
                     && l.productId == productId && s == SupplierRef(sp.id, sp.name, sp.contactEmail);
        assert x in LinkSuppliers(l, db.suppliers);
      }
    }
    if HasSupplier(db, productId) {
      var l, sp :| && l in db.supplierProducts && sp in db.suppliers && l.supplierId == sp.id
                   && l.productId == productId;
      assert Linked(db, productId, SupplierRef(sp.id, sp.name, sp.contactEmail));
    }
    if sups != [] {
      assert Linked(db, productId, sups[0]);
    }
  }

  // ---- q: the join of inventory, threshold, recent sales and suppliers ----

  /** One row of the query `q`. */
  datatype QueryRow = QueryRow(
    product: ProductRow,
    warehouse: WarehouseRow,
    currentStock: int,
    threshold: int,
    windowQty: int,
    supplier: Option<SupplierRef>)

  /** The rows `q` yields for one company inventory row: none unless the
      product and warehouse exist, the pair has a `recent_sales` row and the
      stock is below the threshold; otherwise one per attached supplier, or a
      single row without supplier when there is none. */
  function PairRows(db: Db, sales: map<(int, int), int>, sub: seq<SupplierSubRow>, r: InventoryRow): seq<QueryRow> {
    var key := (r.productId, r.warehouseId);
    var p := FindProduct(db.products, r.productId);
    var w := FindWarehouse(db.warehouses, r.warehouseId);
    var th := EffectiveThreshold(db, r.productId, r.warehouseId);
    if p.None? || w.None? || key !in sales || r.quantity >= th then []
    else
      var sups := SuppliersOf(sub, r.productId);
      if sups == [] then [QueryRow(p.value, w.value, r.quantity, th, sales[key], None)]
      else seq(|sups|, i requires 0 <= i < |sups| => QueryRow(p.value, w.value, r.quantity, th, sales[key], Some(sups[i])))
  }

  /** What it takes for `x` to be a row of `PairRows`. */
  ghost predicate PairRow(db: Db, sales: map<(int, int), int>, sub: seq<SupplierSubRow>, r: InventoryRow, x: QueryRow) {
    var key := (r.productId, r.warehouseId);
    var sups := SuppliersOf(sub, r.productId);
    && FindProduct(db.products, r.productId) == Some(x.product)
    && FindWarehouse(db.warehouses, r.warehouseId) == Some(x.warehouse)
    && key in sales && x.windowQty == sales[key]
    && x.currentStock == r.quantity
    && x.threshold == EffectiveThreshold(db, r.productId, r.warehouseId)
    && r.quantity < x.threshold
    && (if sups == [] then x.supplier.None? else x.supplier.Some? && x.supplier.value in sups)
  }

  /** The rows `q` yields for one inventory row are exactly those `PairRow` describes. */
  lemma PairRowsMembership(db: Db, sales: map<(int, int), int>, sub: seq<SupplierSubRow>, r: InventoryRow, x: QueryRow)
    ensures x in PairRows(db, sales, sub, r) <==> PairRow(db, sales, sub, r, x)
  {
    var sups := SuppliersOf(sub, r.productId);
    var rows := PairRows(db, sales, sub, r);
    if PairRow(db, sales, sub, r, x) && sups != [] {
      var i :| 0 <= i < |sups| && sups[i] == x.supplier.value;
      assert rows[i] == x;
    }
  }

  /** `q` over a list of inventory rows. */
  function JoinRows(db: Db, sales: map<(int, int), int>, sub: seq<SupplierSubRow>, inventory: seq<InventoryRow>): (rows: seq<QueryRow>)
    ensures forall x :: x in rows <==> exists r :: r in inventory && x in PairRows(db, sales, sub, r)
  {
    if inventory == [] then [] else PairRows(db, sales, sub, inventory[0]) + JoinRows(db, sales, sub, inventory[1..])
  }

  /** The rows of `q` for the company, with the sales window starting at `since`. */
  function QueryRows(db: Db, companyId: int, since: int): seq<QueryRow> {
    JoinRows(db, RecentSales(db, companyId, since), SupplierSub(db),
             ScopedInventory(db.inventory, CompanyWarehouseIds(db.warehouses, companyId)))
  }

  // ---- the alerts ----

  /** One alert as the endpoint reports it; `supplier` is `None` when the
      JSON shows null supplier fields. */
  datatype Alert = Alert(
    productId: int,
    productName: string,
    sku: string,
    warehouseId: int,
    warehouseName: string,
    currentStock: int,
    threshold: int,
    daysUntilStockout: Option<int>,
    supplier: Option<SupplierRef>)

  /** Python's `int()` of a quotient: division truncated toward zero. */
  function TruncDiv(a: int, b: int): int
    requires b > 0
  {
    if a >= 0 then a / b else -((-a) / b)
  }

  /** `int(stock / (qty / days))` when `qty` and `days` are positive, else
      null: the whole days the stock lasts at the window's average daily
      rate, rounded toward zero. */
  function DaysUntilStockout(stock: int, windowQty: int, days: int): (r: Option<int>)
    ensures r.Some? <==> windowQty > 0 && days > 0
    ensures r.Some? && stock >= 0 ==>
              0 <= r.value && r.value * windowQty <= stock * days < (r.value + 1) * windowQty
    ensures r.Some? && stock < 0 ==>
              r.value <= 0 && -r.value * windowQty <= -stock * days < (-r.value + 1) * windowQty
  {
    if windowQty > 0 && days > 0 then
      var a := stock * days;
      var q := TruncDiv(a, windowQty);
      if a >= 0 then
        DivBounds(a, windowQty);
        Some(q)
      else
        DivBounds(-a, windowQty);
        Some(q)
    else None
  }

  /** Euclidean division of a number not below zero by a positive one: the
      quotient is the largest whose multiple does not exceed the dividend. */
  lemma DivBounds(a: int, b: int)
    requires a >= 0 && b > 0
    ensures 0 <= a / b && (a / b) * b <= a < (a / b + 1) * b
  {
    var q, m := a / b, a % b;
    assert a == q * b + m && 0 <= m < b;
    assert (q + 1) * b == q * b + b;
  }

  /** Worked examples: 50 in stock, 90 sold in 30 days gives 16
      days; 10 in stock, 60 sold in 30 days gives 5; no sales gives null. */
  lemma StockoutExamples()
    ensures DaysUntilStockout(50, 90, 30) == Some(16)
    ensures DaysUntilStockout(10, 60, 30) == Some(5)
    ensures DaysUntilStockout(10, 0, 30) == None
  {
  }

  /** The alert the loop builds from one row of `q`. */
  function ToAlert(row: QueryRow, days: int): Alert {
    Alert(row.product.id, row.product.name, row.product.sku, row.warehouse.id, row.warehouse.name,
          row.currentStock, row.threshold, DaysUntilStockout(row.currentStock, row.windowQty, days), row.supplier)
  }

  /** The alerts of a company for a window of `days` days ending at `now`. */
  function Alerts(db: Db, companyId: int, days: int, now: int): seq<Alert> {
    var rows := QueryRows(db, companyId, WindowStart(now, days));
    seq(|rows|, i requires 0 <= i < |rows| => ToAlert(rows[i], days))
  }

  /** The `for row in q.all()` loop: one alert per row, in order. */
  method BuildAlerts(rows: seq<QueryRow>, days: int) returns (alerts: seq<Alert>)
    ensures |alerts| == |rows|
    ensures forall i :: 0 <= i < |rows| ==> alerts[i] == ToAlert(rows[i], days)
  {
    alerts := [];
    var i := 0;
    while i < |rows|
      invariant 0 <= i <= |rows|
      invariant |alerts| == i
      invariant forall k :: 0 <= k < i ==> alerts[k] == ToAlert(rows[k], days)
    {
      var row := rows[i];
      var daysUntil := None;
      if row.windowQty != 0 && days > 0 && row.windowQty > 0 {
        daysUntil := Some(TruncDiv(row.currentStock * days, row.windowQty));
      }
      alerts := alerts + [Alert(row.product.id, row.product.name, row.product.sku,
                                row.warehouse.id, row.warehouse.name,
                                row.currentStock, row.threshold, daysUntil, row.supplier)];
      i := i + 1;
    }
  }

  /** The response: 404 for an unknown company, else the alerts and their count. */
  datatype AlertsResponse = CompanyNotFound | AlertReport(alerts: seq<Alert>, totalAlerts: int)

  /** `Company.query.get(company_id)` finds a row. */
  predicate CompanyExists(companies: seq<CompanyRow>, id: int) {
    exists c :: c in companies && c.id == id
  }

  /** `low_stock_alerts`: an unknown company is 404; otherwise the alerts for
      the normalised window, with `total_alerts` their number. */
  method LowStockAlerts(db: Db, companyId: int, daysArg: Option<int>, now: int) returns (resp: AlertsResponse)
    ensures resp.CompanyNotFound? <==> !CompanyExists(db.companies, companyId)
    ensures resp.AlertReport? ==> && resp.alerts == Alerts(db, companyId, NormaliseDays(daysArg), now)
                                  && resp.totalAlerts == |resp.alerts|
  {
    if !CompanyExists(db.companies, companyId) {
      return CompanyNotFound;
    }
    var days := NormaliseDays(daysArg);
    var since := WindowStart(now, days);
    var rows := QueryRows(db, companyId, since);
    var alerts := BuildAlerts(rows, days);
    return AlertReport(alerts, |alerts|);
  }

  // ---- what an alert means ----

  /** `a` reports a company warehouse holding an inventory row of an existing
      product, with sales of the pair on company orders in the window and
      stock below the effective threshold; its projection comes from the
      window quantity, and its supplier is a linked one, or none when the
      product has no supplier. */
  ghost predicate IsAlert(db: Db, companyId: int, days: int, now: int, a: Alert) {
    var since := WindowStart(now, days);
    && (exists w :: && w in db.warehouses && w.id == a.warehouseId && w.companyId == companyId
                    && w.name == a.warehouseName)
    && (exists p :: p in db.products && p.id == a.productId && p.name == a.productName && p.sku == a.sku)
    && (exists r :: && r in db.inventory && r.productId == a.productId && r.warehouseId == a.warehouseId
                    && r.quantity == a.currentStock)
    && HasWindowSale(db, companyId, since, a.productId, a.warehouseId)
    && a.threshold == EffectiveThreshold(db, a.productId, a.warehouseId)
    && a.currentStock < a.threshold
    && a.daysUntilStockout == DaysUntilStockout(a.currentStock, WindowQuantity(db, companyId, since, a.productId, a.warehouseId), days)
    && (match a.supplier
        case Some(s) => Linked(db, a.productId, s)
        case None => !HasSupplier(db, a.productId))
  }

  /** An alert of the list is the alert built from some row of `q`. */
  lemma AlertsMembership(db: Db, companyId: int, days: int, now: int, a: Alert)
    ensures a in Alerts(db, companyId, days, now) <==>
            exists x :: x in QueryRows(db, companyId, WindowStart(now, days)) && a == ToAlert(x, days)
  {
    var rows := QueryRows(db, companyId, WindowStart(now, days));
    if exists x :: x in rows && a == ToAlert(x, days) {
      var x :| x in rows && a == ToAlert(x, days);
      var i :| 0 <= i < |rows| && rows[i] == x;
      assert Alerts(db, companyId, days, now)[i] == a;
    }
  }

  /** Every alert of the list is one that `IsAlert` describes. */
  lemma {:induction false} AlertsSound(db: Db, companyId: int, days: int, now: int, a: Alert)
    requires KeysUnique(db)
    requires a in Alerts(db, companyId, days, now)
    ensures IsAlert(db, companyId, days, now, a)
  {
    var since := WindowStart(now, days);
    var sales := RecentSales(db, companyId, since);
    var sub := SupplierSub(db);
    var scoped := ScopedInventory(db.inventory, CompanyWarehouseIds(db.warehouses, companyId));
    AlertsMembership(db, companyId, days, now, a);
    var x :| x in QueryRows(db, companyId, since) && a == ToAlert(x, days);
    var r :| r in scoped && x in PairRows(db, sales, sub, r);
    PairRowsMembership(db, sales, sub, r, x);
    assert r.productId == a.productId && r.warehouseId == a.warehouseId;
    RecentSalesMeaning(db, companyId, since, a.productId, a.warehouseId);
    SuppliersOfMeaning(db, a.productId);
    var w :| w in db.warehouses && w.companyId == companyId && w.id == r.warehouseId;
    assert w == x.warehouse;
    assert exists w :: && w in db.warehouses && w.id == a.warehouseId && w.companyId == companyId
                       && w.name == a.warehouseName;
    assert exists p :: p in db.products && p.id == a.productId && p.name == a.productName && p.sku == a.sku;
    assert exists r :: && r in db.inventory && r.productId == a.productId && r.warehouseId == a.warehouseId
                       && r.quantity == a.currentStock;
    match a.supplier
    case Some(s) =>
      assert s in SuppliersOf(sub, a.productId);
    case None =>
  }

  /** Every alert that `IsAlert` describes is in the list. */
  lemma {:induction false} AlertsComplete(db: Db, companyId: int, days: int, now: int, a: Alert)
    requires KeysUnique(db)
    requires IsAlert(db, companyId, days, now, a)
    ensures a in Alerts(db, companyId, days, now)
  {
    var since := WindowStart(now, days);
    var sales := RecentSales(db, companyId, since);
    var sub := SupplierSub(db);
    var scoped := ScopedInventory(db.inventory, CompanyWarehouseIds(db.warehouses, companyId));
    var key := (a.productId, a.warehouseId);
    RecentSalesMeaning(db, companyId, since, a.productId, a.warehouseId);
    SuppliersOfMeaning(db, a.productId);
    var w :| && w in db.warehouses && w.id == a.warehouseId && w.companyId == companyId
             && w.name == a.warehouseName;
    var p :| p in db.products && p.id == a.productId && p.name == a.productName && p.sku == a.sku;
    var r :| && r in db.inventory && r.productId == a.productId && r.warehouseId == a.warehouseId
             && r.quantity == a.currentStock;
    assert r in scoped;
    var x := QueryRow(p, w, r.quantity, a.threshold, sales[key], a.supplier);
    assert FindProduct(db.products, p.id) == Some(p);
    assert FindWarehouse(db.warehouses, w.id) == Some(w);
    PairRowsMembership(db, sales, sub, r, x);
    assert x in PairRows(db, sales, sub, r);
    assert a == ToAlert(x, days);
    AlertsMembership(db, companyId, days, now, a);
  }

  /** The alert list holds exactly the alerts that `IsAlert` describes. */
  lemma AlertsCharacterised(db: Db, companyId: int, days: int, now: int, a: Alert)
    requires KeysUnique(db)
    ensures a in Alerts(db, companyId, days, now) <==> IsAlert(db, companyId, days, now, a)
  {
    if a in Alerts(db, companyId, days, now) {
      AlertsSound(db, companyId, days, now, a);
    }
    if IsAlert(db, companyId, days, now, a) {
      AlertsComplete(db, companyId, days, now, a);
    }
  }

  /** The pair (product, warehouse) is alerted. */
  ghost predicate Alerted(db: Db, companyId: int, days: int, now: int, productId: int, warehouseId: int) {
    exists a :: a in Alerts(db, companyId, days, now) && a.productId == productId && a.warehouseId == warehouseId
  }

  /** A pair is alerted exactly when its warehouse belongs to the company, the
      product exists, an inventory row of the pair is below the effective
      threshold, and an item of the pair is on a company order placed in the
      window. */
  lemma {:induction false} AlertedExactly(db: Db, companyId: int, days: int, now: int, productId: int, warehouseId: int)
    requires KeysUnique(db)
    ensures Alerted(db, companyId, days, now, productId, warehouseId) <==>
              && (exists w :: w in db.warehouses && w.id == warehouseId && w.companyId == companyId)
              && (exists p :: p in db.products && p.id == productId)
              && (exists r :: && r in db.inventory && r.productId == productId && r.warehouseId == warehouseId
                              && r.quantity < EffectiveThreshold(db, productId, warehouseId))
              && HasWindowSale(db, companyId, WindowStart(now, days), productId, warehouseId)
  {
    var since := WindowStart(now, days);
    if Alerted(db, companyId, days, now, productId, warehouseId) {
      var a :| a in Alerts(db, companyId, days, now) && a.productId == productId && a.warehouseId == warehouseId;
      AlertsCharacterised(db, companyId, days, now, a);
    }
    if && (exists w :: w in db.warehouses && w.id == warehouseId && w.companyId == companyId)
       && (exists p :: p in db.products && p.id == productId)
       && (exists r :: && r in db.inventory && r.productId == productId && r.warehouseId == warehouseId
                       && r.quantity < EffectiveThreshold(db, productId, warehouseId))
       && HasWindowSale(db, companyId, since, productId, warehouseId)
    {
      var w :| w in db.warehouses && w.id == warehouseId && w.companyId == companyId;
      var p :| p in db.products && p.id == productId;
      var r :| && r in db.inventory && r.productId == productId && r.warehouseId == warehouseId
               && r.quantity < EffectiveThreshold(db, productId, warehouseId);
      var supplier: Option<SupplierRef> := None;
      if HasSupplier(db, productId) {
        var l, sp :| && l in db.supplierProducts && sp in db.suppliers && l.supplierId == sp.id
                     && l.productId == productId;
        supplier := Some(SupplierRef(sp.id, sp.name, sp.contactEmail));
      }
      var th := EffectiveThreshold(db, productId, warehouseId);
      var a := Alert(productId, p.name, p.sku, warehouseId, w.name, r.quantity, th,
                     DaysUntilStockout(r.quantity, WindowQuantity(db, companyId, since, productId, warehouseId), days),
                     supplier);
      assert IsAlert(db, companyId, days, now, a);
      AlertsCharacterised(db, companyId, days, now, a);
    }
  }

  /** A pair with stock at or above its effective threshold is never alerted. */
  lemma NoAlertAtOrAboveThreshold(db: Db, companyId: int, days: int, now: int, a: Alert)
    requires KeysUnique(db)
    requires a in Alerts(db, companyId, days, now)
    ensures a.threshold == EffectiveThreshold(db, a.productId, a.warehouseId)
    ensures a.currentStock < a.threshold
  {
    AlertsCharacterised(db, companyId, days, now, a);
  }

  /** With unique order ids, a listed alert's projection uses the summed
      quantity of the pair's items on company orders in the window. */
  lemma AlertStockoutFromItems(db: Db, companyId: int, days: int, now: int, a: Alert)
    requires KeysUnique(db) && OrderIdsDistinct(db.orders)
    requires a in Alerts(db, companyId, days, now)
    ensures a.daysUntilStockout ==
              DaysUntilStockout(a.currentStock,
                                ItemSum(db.orderItems, db.orders, companyId, WindowStart(now, days), (a.productId, a.warehouseId)),
                                days)
  {
    AlertsCharacterised(db, companyId, days, now, a);
    RecentSalesSum(db, companyId, WindowStart(now, days), a.productId, a.warehouseId);
  }

  /** As written, the supplier join repeats an alert once per linked supplier:
      an alert of a pair exists with each supplier of the product. */
  lemma {:induction false} OneAlertPerSupplier(db: Db, companyId: int, days: int, now: int, a: Alert, s: SupplierRef)
    requires KeysUnique(db)
    requires a in Alerts(db, companyId, days, now)
    requires Linked(db, a.productId, s)
    ensures a.(supplier := Some(s)) in Alerts(db, companyId, days, now)
    ensures a.supplier.Some?
  {
    AlertsCharacterised(db, companyId, days, now, a);
    AlertsCharacterised(db, companyId, days, now, a.(supplier := Some(s)));
  }

  // ---- each alert once ----

  /** No element of `s` occurs at two positions. */
  ghost predicate Distinct<T>(s: seq<T>) {
    forall i, j :: 0 <= i < j < |s| ==> s[i] != s[j]
  }

  /** What tells two rows of `q` apart in an alert: product, warehouse and supplier. */
  function RowKey(x: QueryRow): (int, int, Option<SupplierRef>) {
    (x.product.id, x.warehouse.id, x.supplier)
  }

  /** No two rows of `rows` share product, warehouse and supplier. */
  ghost predicate KeysDistinct(rows: seq<QueryRow>) {
    forall i, j :: 0 <= i < j < |rows| ==> RowKey(rows[i]) != RowKey(rows[j])
  }

  /** Restricting the inventory to some warehouses keeps its keys distinct. */
  lemma {:induction false} ScopedKeysDistinct(inventory: seq<InventoryRow>, ids: set<int>)
    requires InventoryKeysDistinct(inventory)
    ensures InventoryKeysDistinct(ScopedInventory(inventory, ids))
  {
    if inventory != [] {
      var rest := inventory[1..];
      assert InventoryKeysDistinct(rest) by {
        forall i, j | 0 <= i < j < |rest|
          ensures (rest[i].productId, rest[i].warehouseId) != (rest[j].productId, rest[j].warehouseId)
        {
          assert rest[i] == inventory[i + 1] && rest[j] == inventory[j + 1];
        }
      }
      ScopedKeysDistinct(rest, ids);
      var head := if inventory[0].warehouseId in ids then [inventory[0]] else [];
      var tail := ScopedInventory(rest, ids);
      forall x | x in tail
        ensures (x.productId, x.warehouseId) != (inventory[0].productId, inventory[0].warehouseId)
      {
        var k :| 0 <= k < |rest| && rest[k] == x;
        assert inventory[k + 1] == x;
      }
      var r := head + tail;
      forall i, j | 0 <= i < j < |r|
        ensures (r[i].productId, r[i].warehouseId) != (r[j].productId, r[j].warehouseId)
      {
        if i < |head| {
          assert r[i] == inventory[0] && r[j] == tail[j - |head|];
        } else {
          assert r[i] == tail[i - |head|] && r[j] == tail[j - |head|];
        }
      }
    }
  }

  /** From a supplier subquery without repeated rows, the outer join attaches
      each supplier of a product once. */
  lemma {:induction false} SuppliersOfDistinct(sub: seq<SupplierSubRow>, productId: int)
    requires Distinct(sub)
    ensures Distinct(SuppliersOf(sub, productId))
  {
    if sub != [] {
      var rest := sub[1..];
      assert Distinct(rest) by {
        forall i, j | 0 <= i < j < |rest| ensures rest[i] != rest[j] {
          assert rest[i] == sub[i + 1] && rest[j] == sub[j + 1];
        }
      }
      SuppliersOfDistinct(rest, productId);
      var tail := SuppliersOf(rest, productId);
      if sub[0].productId == productId {
        assert sub[0] !in rest by {
          forall k | 0 <= k < |rest| ensures rest[k] != sub[0] {
            assert rest[k] == sub[k + 1];
          }
        }
        assert SupplierSubRow(productId, sub[0].supplier) == sub[0];
        assert sub[0].supplier !in tail;
        var r := [sub[0].supplier] + tail;
        forall i, j | 0 <= i < j < |r| ensures r[i] != r[j] {
          if i == 0 {
            assert r[0] == sub[0].supplier && r[j] == tail[j - 1] && tail[j - 1] in tail;
          } else {
            assert r[i] == tail[i - 1] && r[j] == tail[j - 1];
          }
        }
        assert SuppliersOf(sub, productId) == r;
      } else {
        assert SuppliersOf(sub, productId) == tail;
      }
    }
  }

  /** The rows of `q` for one inventory row carry its product and warehouse,
      and no two of them carry the same supplier. */
  lemma PairRowsKeys(db: Db, sales: map<(int, int), int>, sub: seq<SupplierSubRow>, r: InventoryRow)
    requires Distinct(sub)
    ensures forall x :: x in PairRows(db, sales, sub, r) ==>
              x.product.id == r.productId && x.warehouse.id == r.warehouseId
    ensures KeysDistinct(PairRows(db, sales, sub, r))
  {
    var sups := SuppliersOf(sub, r.productId);
    var rows := PairRows(db, sales, sub, r);
    SuppliersOfDistinct(sub, r.productId);
    if rows != [] && sups != [] {
      var p := FindProduct(db.products, r.productId).value;
      var w := FindWarehouse(db.warehouses, r.warehouseId).value;
      var th := EffectiveThreshold(db, r.productId, r.warehouseId);
      var q := sales[(r.productId, r.warehouseId)];
      assert rows == seq(|sups|, i requires 0 <= i < |sups| => QueryRow(p, w, r.quantity, th, q, Some(sups[i])));
      forall i, j | 0 <= i < j < |rows| ensures RowKey(rows[i]) != RowKey(rows[j]) {
        assert rows[i].supplier == Some(sups[i]) && rows[j].supplier == Some(sups[j]);
      }
    }
  }

  /** Over inventory rows with distinct keys, no two rows of `q` share product,
      warehouse and supplier. */
  lemma {:induction false} JoinRowsKeysDistinct(db: Db, sales: map<(int, int), int>, sub: seq<SupplierSubRow>,
                                                inventory: seq<InventoryRow>)
    requires Distinct(sub)
    requires InventoryKeysDistinct(inventory)
    ensures KeysDistinct(JoinRows(db, sales, sub, inventory))
  {
    if inventory != [] {
      var rest := inventory[1..];
      assert InventoryKeysDistinct(rest) by {
        forall i, j | 0 <= i < j < |rest|
          ensures (rest[i].productId, rest[i].warehouseId) != (rest[j].productId, rest[j].warehouseId)
        {
          assert rest[i] == inventory[i + 1] && rest[j] == inventory[j + 1];
        }
      }
      JoinRowsKeysDistinct(db, sales, sub, rest);
      var head := PairRows(db, sales, sub, inventory[0]);
      var tail := JoinRows(db, sales, sub, rest);
      PairRowsKeys(db, sales, sub, inventory[0]);
      forall y | y in tail
        ensures (y.product.id, y.warehouse.id) != (inventory[0].productId, inventory[0].warehouseId)
      {
        var r :| r in rest && y in PairRows(db, sales, sub, r);
        PairRowsKeys(db, sales, sub, r);
        var k :| 0 <= k < |rest| && rest[k] == r;
        assert inventory[k + 1] == r;
      }
      var rows := head + tail;
      forall i, j | 0 <= i < j < |rows| ensures RowKey(rows[i]) != RowKey(rows[j]) {
        if j < |head| {
          assert rows[i] == head[i] && rows[j] == head[j];
        } else if i < |head| {
          assert rows[i] == head[i] && rows[j] == tail[j - |head|];
          assert head[i] in head && tail[j - |head|] in tail;
        } else {
          assert rows[i] == tail[i - |head|] && rows[j] == tail[j - |head|];
        }
      }
      assert JoinRows(db, sales, sub, inventory) == rows;
    }
  }

  /** With the inventory's primary key, the list repeats no alert: each
      qualifying (product, warehouse, supplier) is reported exactly once, so
      `total_alerts` counts distinct alerts. */
  lemma AlertsDistinct(db: Db, companyId: int, days: int, now: int)
    requires InventoryKeysDistinct(db.inventory)
    ensures Distinct(Alerts(db, companyId, days, now))
  {
    var since := WindowStart(now, days);
    ScopedKeysDistinct(db.inventory, CompanyWarehouseIds(db.warehouses, companyId));
    var rows := QueryRows(db, companyId, since);
    JoinRowsKeysDistinct(db, RecentSales(db, companyId, since), SupplierSub(db),
                         ScopedInventory(db.inventory, CompanyWarehouseIds(db.warehouses, companyId)));
    var alerts := Alerts(db, companyId, days, now);
    forall i, j | 0 <= i < j < |alerts| ensures alerts[i] != alerts[j] {
      assert alerts[i] == ToAlert(rows[i], days) && alerts[j] == ToAlert(rows[j], days);
      assert RowKey(rows[i]) != RowKey(rows[j]);
    }
  }
}
