/** The tables that the low-stock alert reads, one record type per model class
    of app.py, holding the columns the computation uses. A table is a sequence
    of rows; timestamps are whole seconds. */
module Schema {
  import opened Wrappers

  datatype CompanyRow = CompanyRow(id: int, name: string)
  datatype WarehouseRow = WarehouseRow(id: int, companyId: int, name: string)
  datatype ProductRow = ProductRow(id: int, sku: string, name: string)
  datatype SupplierRow = SupplierRow(id: int, name: string, contactEmail: Option<string>)
  datatype SupplierProductRow = SupplierProductRow(supplierId: int, productId: int)
  datatype InventoryRow = InventoryRow(productId: int, warehouseId: int, quantity: int)
  datatype SalesOrderRow = SalesOrderRow(id: int, companyId: int, orderedAt: int)
  datatype SalesOrderItemRow = SalesOrderItemRow(orderId: int, productId: int, warehouseId: int, quantity: int)
  datatype ThresholdRow = ThresholdRow(productId: int, threshold: int)
  datatype ThresholdOverrideRow = ThresholdOverrideRow(productId: int, warehouseId: int, threshold: int)

  datatype Db = Db(
    companies: seq<CompanyRow>,
    warehouses: seq<WarehouseRow>,
    products: seq<ProductRow>,
    suppliers: seq<SupplierRow>,
    supplierProducts: seq<SupplierProductRow>,
    inventory: seq<InventoryRow>,
    orders: seq<SalesOrderRow>,
    orderItems: seq<SalesOrderItemRow>,
    thresholds: seq<ThresholdRow>,
    overrides: seq<ThresholdOverrideRow>)

  /** The primary keys the alert's lookups rely on: no two different rows of
      a table share their key. */
  ghost predicate KeysUnique(db: Db) {
    && (forall a, b :: a in db.warehouses && b in db.warehouses && a.id == b.id ==> a == b)
    && (forall a, b :: a in db.products && b in db.products && a.id == b.id ==> a == b)
    && (forall a, b :: a in db.thresholds && b in db.thresholds && a.productId == b.productId ==> a == b)
    && (forall a, b ::
          a in db.overrides && b in db.overrides && a.productId == b.productId && a.warehouseId == b.warehouseId
          ==> a == b)
  }

  /** The primary key of the sales orders table: no two positions of
      `orders` hold orders with the same id. */
  ghost predicate OrderIdsDistinct(orders: seq<SalesOrderRow>) {
    forall i, j :: 0 <= i < j < |orders| ==> orders[i].id != orders[j].id
  }

  /** The primary key (product id, warehouse id) of the inventory table: no
      two positions of `inventory` hold rows with the same key. */
  ghost predicate InventoryKeysDistinct(inventory: seq<InventoryRow>) {
    forall i, j :: 0 <= i < j < |inventory| ==>
      (inventory[i].productId, inventory[i].warehouseId) != (inventory[j].productId, inventory[j].warehouseId)
  }
}
