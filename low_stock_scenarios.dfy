/** The worked examples of the low-stock alert, proved from the
    characterisation of the alert list. */
module LowStockScenarios {
  import opened Wrappers
  import opened Schema
  import opened LowStock

  const Now: int := 100 * SecondsPerDay

  /** Company 1 with warehouse 10 holding `stock` units of product 100, whose
      default threshold is 20; 60 units sold yesterday on a company order;
      the suppliers are linked to the product. */
  function Shop(stock: int, links: seq<SupplierProductRow>): Db {
    Db([CompanyRow(1, "C")],
       [WarehouseRow(10, 1, "W")],
       [ProductRow(100, "P-1", "P")],
       [SupplierRow(5, "S", None), SupplierRow(6, "T", Some("t@example.com"))],
       links,
       [InventoryRow(100, 10, stock)],
       [SalesOrderRow(1000, 1, Now - SecondsPerDay)],
       [SalesOrderItemRow(1000, 100, 10, 60)],
       [ThresholdRow(100, 20)],
       [])
  }

  lemma ShopFacts(stock: int, links: seq<SupplierProductRow>)
    ensures KeysUnique(Shop(stock, links))
    ensures EffectiveThreshold(Shop(stock, links), 100, 10) == 20
    ensures HasWindowSale(Shop(stock, links), 1, WindowStart(Now, 30), 100, 10)
    ensures WindowQuantity(Shop(stock, links), 1, WindowStart(Now, 30), 100, 10) == 60
  {
    var db := Shop(stock, links);
    assert InWindow(db.orders[0], db.orderItems[0].orderId, 1, WindowStart(Now, 30));
    assert db.orderItems[0] in db.orderItems && db.orders[0] in db.orders;
    var since := WindowStart(Now, 30);
    assert ItemLines(db.orderItems[0], db.orders, 1, since) == [SaleLine((100, 10), 60)];
    assert db.orderItems[..0] == [];
    assert SalesLines(db.orderItems[..0], db.orders, 1, since) == [];
    var lines := SalesLines(db.orderItems, db.orders, 1, since);
    assert lines == [] + ItemLines(db.orderItems[0], db.orders, 1, since);
    assert lines == [SaleLine((100, 10), 60)];
    assert lines[..0] == [];
    assert LineSum(lines, (100, 10)) == LineSum([], (100, 10)) + 60;
  }

  /** Stock 10 below the threshold 20 with 60 sold in 30 days: an alert with
      5 days until stockout, carrying the product's supplier. */
  lemma StockBelowThresholdAlerts()
    ensures Alert(100, "P", "P-1", 10, "W", 10, 20, Some(5), Some(SupplierRef(5, "S", None)))
              in Alerts(Shop(10, [SupplierProductRow(5, 100)]), 1, 30, Now)
  {
    var db := Shop(10, [SupplierProductRow(5, 100)]);
    ShopFacts(10, [SupplierProductRow(5, 100)]);
    var a := Alert(100, "P", "P-1", 10, "W", 10, 20, Some(5), Some(SupplierRef(5, "S", None)));
    assert db.warehouses[0] in db.warehouses && db.products[0] in db.products && db.inventory[0] in db.inventory;
    assert db.supplierProducts[0] in db.supplierProducts && db.suppliers[0] in db.suppliers;
    assert DaysUntilStockout(10, 60, 30) == Some(5);
    assert IsAlert(db, 1, 30, Now, a);
    AlertsComplete(db, 1, 30, Now, a);
  }

  /** Stock 25 is not below the threshold 20: the pair is not alerted. */
  lemma StockAtOrAboveThresholdDoesNot()
    ensures !Alerted(Shop(25, []), 1, 30, Now, 100, 10)
  {
    ShopFacts(25, []);
    AlertedExactly(Shop(25, []), 1, 30, Now, 100, 10);
  }

  /** With two suppliers linked to the product, the one low-stock pair is
      reported with each supplier, and no alert is listed twice. */
  lemma TwoSuppliersTwoAlerts()
    ensures var db := Shop(10, [SupplierProductRow(5, 100), SupplierProductRow(6, 100)]);
            && Alert(100, "P", "P-1", 10, "W", 10, 20, Some(5), Some(SupplierRef(5, "S", None))) in Alerts(db, 1, 30, Now)
            && Alert(100, "P", "P-1", 10, "W", 10, 20, Some(5), Some(SupplierRef(6, "T", Some("t@example.com")))) in Alerts(db, 1, 30, Now)
            && Distinct(Alerts(db, 1, 30, Now))
  {
    var db := Shop(10, [SupplierProductRow(5, 100), SupplierProductRow(6, 100)]);
    ShopFacts(10, [SupplierProductRow(5, 100), SupplierProductRow(6, 100)]);
    var a := Alert(100, "P", "P-1", 10, "W", 10, 20, Some(5), Some(SupplierRef(5, "S", None)));
    assert db.warehouses[0] in db.warehouses && db.products[0] in db.products && db.inventory[0] in db.inventory;
    assert db.supplierProducts[0] in db.supplierProducts && db.suppliers[0] in db.suppliers;
    assert db.supplierProducts[1] in db.supplierProducts && db.suppliers[1] in db.suppliers;
    assert DaysUntilStockout(10, 60, 30) == Some(5);
    assert IsAlert(db, 1, 30, Now, a);
    AlertsComplete(db, 1, 30, Now, a);
    OneAlertPerSupplier(db, 1, 30, Now, a, SupplierRef(6, "T", Some("t@example.com")));
    AlertsDistinct(db, 1, 30, Now);
  }
}
