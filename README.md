# stockflow inventory core in Dafny

This project models the two endpoints of the stockflow inventory backend (`app.py`) that carry its
business logic, and proves properties of them.

- **Product creation** (`POST /api/products`). The request is checked in a fixed order. Then, in one
  transaction, the product is inserted and its inventory row in the requested warehouse is upserted.
  - Checks, in order: missing or blank name or sku, missing price or warehouse → 400; invalid price → 400;
    initial quantity not an integer → 400; negative quantity → 400; unknown warehouse → 404.
  - A sku that is already taken triggers a rollback and a 409.
  - `Products.Store` holds the tables the endpoint writes: the products, the sku index, the inventory
    quantities keyed by (product id, warehouse id), and the id counter.
    `Products.Store.CreateProduct` updates these fields in place.
  - That method is proved equal to the value-level transaction `Products.Create`, and the properties
    are proved about `Create`.
- **Low-stock alerts** (`GET /api/companies/<id>/alerts/low-stock`).
  - The tables are sequences of rows (`Schema.Db`).
  - Each subquery becomes a function. Sales of company orders in the window are grouped per
    (product, warehouse). Inventory is restricted to the company's warehouses. The effective
    threshold is the override, else the product default, else 0. Suppliers are grouped per
    (product, supplier).
  - The final join with its two filters is a function as well.
  - The loop that turns rows into alerts is the method `LowStock.BuildAlerts`. The endpoint is the
    method `LowStock.LowStockAlerts`.
  - `LowStock.AlertsCharacterised` states exactly which alerts the list contains.

Modules: `Wrappers` (Option, Result), `Text` (`str.strip`), `Decimals` (`decimal_from`), `Products`,
`Schema`, `LowStock`, `LowStockScenarios`.

Inputs the code takes from its environment are parameters of the model:

- the current time is the integer `now`, in whole seconds;
- the result of parsing the price with `Decimal(str(value))` is an `Option<Decimal>`;
- the result of `int()` on `initial_quantity` or on `days` is an `Option<int>` (`None` when `int()`
  raises).

Behaviours of the code that a reader might not expect, which the model keeps:

- **Suppliers.** No lowest-lead-time supplier is chosen. The supplier subquery does compute a minimum
  lead time, but it groups by product *and* supplier and never reads that column. So a low-stock pair
  is reported once per linked supplier (`LowStock.OneAlertPerSupplier`,
  `LowStockScenarios.TwoSuppliersTwoAlerts`), and exactly once each (`LowStock.AlertsDistinct`).
- **Days until stockout.** `int()` truncates toward zero. A negative stock therefore gives a
  projection rounded toward zero, not down (`LowStock.DaysUntilStockout`).
- **Sales window.** The window has a lower bound only: an order dated after `now` still counts as a
  recent sale (`LowStock.InWindow`, `LowStock.RecentSalesMeaning`).

## Model

| member | source | states |
|---|---|---|
| Text.Strip | app.py:124-125 | the result is a slice of the input with only whitespace cut from both ends; it does not start or end with whitespace; it is empty exactly when the input is all whitespace |
| Text.StripKeeps | app.py:124-125 | a string that neither starts nor ends with whitespace is unchanged by strip |
| Text.StripIdempotent | app.py:124-125 | stripping twice gives the same result as stripping once |
| Decimals.DecimalFrom | app.py:108-115 | a returned decimal is the parsed value, is not NaN and not negative (a negative infinity counts as negative); `None` only when the parse failed or the value is NaN or negative |
| Products.HasRequiredFields | app.py:130 | name and sku not blank, price and warehouse given; its meaning as the first check is stated by `Validate` |
| Products.StatusCode | app.py:130-174 | creation maps to 201, a rejection to 400, an unknown warehouse to 404, a duplicate sku to 409, each in both directions |
| Products.Validate | app.py:124-146 | each check decides only when every earlier one passed, in the source's order; a failure is a 400 or a 404; an accepted request has a stripped non-blank name and sku, a valid price, a quantity not below zero and an existing warehouse; 404 exactly when the warehouse is unknown once the earlier checks pass |
| Products.ValidateAcceptsExactly | app.py:130-146 | a request is accepted if and only if every check passes |
| Products.Upsert | app.py:153-158 | the row of the key becomes its prior quantity plus the delta, or the delta when there was no row; every other row keeps its quantity; the key set gains only the key |
| Products.Create | app.py:148-163 | created exactly when the checks pass and the sku is free; a rejection or a duplicate-sku rollback leaves every table unchanged and reports the check's error or 409; a creation takes the next id, stores the stripped name and sku and the price, adds the sku to the index, and sets the inventory row to the prior quantity (0 when absent) plus the initial quantity while every other row keeps its quantity |
| Products.CreateKeepsInvariant | app.py:148-163 | every request keeps the store invariant (ids below the counter, the sku index equal to the stored skus, skus unique, quantities not below zero), and a created id was not in use |
| Products.Store.CreateProduct | app.py:124-163 | the answer and the new tables are those of `Create` on the old tables; the warehouses are unchanged and the invariant is kept |
| Products.CleanRequestAccepted | app.py:124-146 | a request with a trimmed non-blank name and sku, a valid price, a quantity not below zero and a known warehouse is accepted with its fields as given |
| Products.WidgetScenario | app.py:148-160 | the first product of an empty database gets id 1, and its new inventory row holds its initial quantity of 5 |
| Products.DuplicateSkuScenario | app.py:161-163 | a second request with a taken sku is a 409 that leaves all tables as they were |
| Products.TwoProductsScenario | app.py:153-158 | a second product in the same warehouse gets id 2 and its own row of 3, and the first product's row keeps 5 |
| LowStock.NormaliseDays | app.py:189-194 | the window is always positive: a positive parsed value is kept; a failed parse or a value at or below zero gives 30 |
| LowStock.NormaliseDaysIdempotent | app.py:189-194 | normalising a normalised window changes nothing |
| LowStock.WindowStart | app.py:195 | `since` is `days` whole days before `now`; used by `Alerts`, whose meaning `AlertsCharacterised` states |
| LowStock.RecentSales | app.py:197-208 | the grouped sales of the company's orders from `since` on; see `RecentSalesMeaning` |
| LowStock.ItemLines | app.py:203-205 | the join rows of one order item: each is the item's pair and quantity, and there is one exactly when a company order in the window matches; see `ItemLinesAtMostOne` |
| LowStock.SalesLines | app.py:203-205 | the join of all order items with the company's orders in the window; see `SalesLinesKey` and `SalesLinesSum` |
| LowStock.ItemLinesAtMostOne | app.py:203-205 | with unique order ids an item yields exactly one join row when its order is a company order in the window, and none otherwise |
| LowStock.SalesLinesKey | app.py:203-205 | the join of order items with orders has a line of a pair exactly when an item of the pair is on a company order placed at or after `since` |
| LowStock.GroupSum | app.py:206 | GROUP BY (product, warehouse) with SUM(quantity); see `GroupSumMeaning` |
| LowStock.GroupSumMeaning | app.py:197-208 | the grouped sums have a key exactly when some line has it, and the value is the sum of that key's lines |
| LowStock.RecentSalesMeaning | app.py:197-208 | `recent_sales` has a row for a pair exactly when an item of that pair is on an order of the company placed at or after `since`; its value is the pair's sum over the join rows |
| LowStock.ItemSum | app.py:197-208 | the window quantity taken from the order items table alone: the quantities of the pair's items that are on a company order in the window |
| LowStock.SalesLinesSum | app.py:197-206 | with unique order ids, the join's sum of a pair equals `ItemSum` |
| LowStock.RecentSalesSum | app.py:197-208 | with unique order ids (app.py:80), the value of `recent_sales` for a pair and the window quantity both equal the summed quantity of the pair's items on company orders in the window |
| LowStock.CompanyWarehouseIds | app.py:210 | the ids of the company's warehouses; see `ScopedInventory` |
| LowStock.ScopedInventory | app.py:210-220 | a row is kept exactly when it is an inventory row whose warehouse belongs to the company |
| LowStock.EffectiveThreshold | app.py:222-235 | coalesce of the override, the product default and 0; see `ThresholdPrecedence` |
| LowStock.ThresholdPrecedence | app.py:222-235 | the pair's override wins; without one the product default applies; without either the threshold is 0 |
| LowStock.LinkSuppliers | app.py:245 | the join of one link with the suppliers: exactly the rows of the suppliers with the link's supplier id |
| LowStock.SupplierJoin | app.py:245 | the join of all links with the suppliers; see `SupplierJoinMembership` |
| LowStock.SupplierJoinMembership | app.py:245 | a joined row comes from some link joined with the supplier of its id |
| LowStock.Dedup | app.py:246 | grouping keeps each distinct row, keeps no other, and repeats none |
| LowStock.SupplierSub | app.py:237-248 | the supplier join grouped by all its columns; see `SupplierJoinMembership`, `Dedup` and `SuppliersOfMeaning` |
| LowStock.SuppliersOf | app.py:268 | the suppliers the outer join attaches to a product: exactly those of the subquery's rows of the product |
| LowStock.SuppliersOfMeaning | app.py:237-248 | the outer join attaches exactly the product's linked suppliers, and none exactly when the product has no supplier |
| LowStock.SuppliersOfDistinct | app.py:246-268 | from a grouped subquery, the outer join attaches each supplier of a product at most once |
| LowStock.PairRows | app.py:250-271 | the rows of `q` for one inventory row; see `PairRowsMembership` |
| LowStock.PairRowsMembership | app.py:250-271 | a query row of an inventory row needs an existing product and warehouse, a `recent_sales` row for the pair and stock below the threshold, and carries one attached supplier or none when the product has no supplier |
| LowStock.QueryRows | app.py:250-271 | `q` for the company and window; see `JoinRows`, `AlertsCharacterised` and `AlertsDistinct` |
| LowStock.JoinRows | app.py:264-271 | the query rows are exactly the rows of the company's inventory rows |
| LowStock.TruncDiv | app.py:276 | `int()` of a quotient, truncated toward zero; its bounds are stated by `DaysUntilStockout` |
| LowStock.DaysUntilStockout | app.py:275-276 | null exactly when the window quantity or the days are not positive; otherwise the whole days the stock lasts at the average daily rate, rounded toward zero |
| LowStock.StockoutExamples | app.py:275-276 | 50 in stock with 90 sold in 30 days gives 16; 10 with 60 gives 5; no sales gives null |
| LowStock.JoinRowsKeysDistinct | app.py:264-268 | over inventory rows with distinct keys, no two rows of `q` share product, warehouse and supplier |
| LowStock.ToAlert | app.py:277-291 | the alert built from one row; see `BuildAlerts` and `AlertsSound` |
| LowStock.Alerts | app.py:273-291 | the alert list; its contents are stated by `AlertsCharacterised` and its multiplicity by `AlertsDistinct` |
| LowStock.BuildAlerts | app.py:273-291 | one alert per query row, in order, each built from its row with the stockout projection |
| LowStock.CompanyExists | app.py:185-187 | a company row with the id exists; see `LowStockAlerts` |
| LowStock.LowStockAlerts | app.py:184-292 | 404 exactly when the company does not exist; otherwise the alerts for the normalised window, with `total_alerts` equal to their number |
| LowStock.AlertsMembership | app.py:273-291 | an alert is in the list exactly when it is built from some query row |
| LowStock.AlertsSound | app.py:250-291 | every listed alert is for a company warehouse, an existing product and an inventory row below the effective threshold with sales in the window; it carries the window-based projection and a linked supplier, or none when the product has no supplier |
| LowStock.AlertsComplete | app.py:250-291 | every alert meeting those conditions is listed |
| LowStock.AlertsCharacterised | app.py:250-291 | an alert is listed if and only if it meets those conditions |
| LowStock.AlertedExactly | app.py:250-271 | a pair is alerted if and only if its warehouse is the company's, the product exists, an inventory row of the pair is below the effective threshold and the pair sold in the window |
| LowStock.NoAlertAtOrAboveThreshold | app.py:270 | every listed alert carries the effective threshold and a stock strictly below it |
| LowStock.OneAlertPerSupplier | app.py:268 | when an alert of a pair is listed, the same alert with each supplier linked to the product is listed too; with `AlertsDistinct`, each of them exactly once |
| LowStock.AlertStockoutFromItems | app.py:275-276 | with unique keys and order ids, a listed alert's projection is computed from the summed quantity of the pair's items on company orders in the window |
| LowStock.AlertsDistinct | app.py:250-292 | with the inventory primary key, no alert occurs twice in the list, so `total_alerts` counts distinct (product, warehouse, supplier) alerts |
| LowStockScenarios.ShopFacts | app.py:197-235 | in the example database the keys are unique, the threshold is the default 20, and yesterday's 60 units are the window sales |
| LowStockScenarios.StockBelowThresholdAlerts | app.py:250-291 | stock 10 below the threshold 20, with 60 sold in 30 days, gives an alert with 5 days until stockout and the product's supplier |
| LowStockScenarios.StockAtOrAboveThresholdDoesNot | app.py:270 | stock 25 at or above the threshold 20 is not alerted |
| LowStockScenarios.TwoSuppliersTwoAlerts | app.py:237-268 | with two linked suppliers, the low-stock pair is reported with each, and no alert is listed twice |

## Left out

- HTTP plumbing is not modelled: the 415 for a non-JSON body, JSON encoding, the `Location` link, app setup and `health` (app.py:5-15, 103-105, 120-122, 168-174, 294-297).
- `get_product` (app.py:177-180) is not modelled; it is a lookup that `create_product` only links to.
- The session's `flush`, `commit` and `rollback` are not modelled as steps. The transaction is atomic in the model: `Create` either writes everything or nothing.
- The row lock (`with_for_update`) and concurrent requests are not modelled; each request runs alone.
- The generic 500 path after an unexpected database error is not modelled. A name or sku that is a non-string JSON value, which makes `strip` raise (also a 500), is not modelled either: name and sku are strings in the model.
- Integer widths are not modelled. Quantities and ids are unbounded in the model, while the columns are database integers. An `initial_quantity`, or a sum of it with the prior quantity, beyond the column's range makes the commit fail, which the source answers with a 500 (app.py:164-166); `Create` answers `Created`.
- Id allocation is a counter that a conflict does not advance. A database sequence may skip the id a rolled-back insert took; ids are only required to be fresh.
- Storing the price as `Numeric(12,2)` (rounding to cents, overflow) is not modelled. Neither are the sign of a negative zero or the conversion `Decimal(str(value))` itself: the caller supplies the parse result.
- The integer conversions are not modelled: `int()` on the quantity and on `days`, the coercion of `warehouse_id` by `Warehouse.query.get`, and `int()` on a float quantity or a boolean. The caller supplies each parsed value.
- LowStock.DaysUntilStockout: computed with exact integers, `stock * days / qty` truncated toward zero. The source divides in floating point, which can differ by one at exact multiples.
- The overflow of `timedelta` for a huge `days` (a 500) is not modelled; integers are unbounded.
- Foreign keys, cascades and column defaults are not assumed. Inventory rows, order items and links may name products or warehouses that do not exist. The joins drop such rows, as the queries do.
- Primary keys: the alert lemmas assume unique keys for warehouses, products, thresholds and overrides (`Schema.KeysUnique`). Only the lemmas that say so assume unique order ids (`Schema.OrderIdsDistinct`, app.py:80).
- The inventory key (product, warehouse) is assumed unique (`Schema.InventoryKeysDistinct`, declared at app.py:56-57) only by `AlertsDistinct`. The threshold is computed per pair rather than as a joined subquery; the two agree while that key is unique.
- The order of alerts is unspecified in the source, because `q` has no `ORDER BY`. The model lists them in inventory order, then supplier order. The lemmas speak of membership and of the absence of repeats (`AlertsDistinct`), never of position.
- Timestamps are whole seconds. `ordered_at` and `utcnow()` carry microseconds, so the model draws the `ordered_at >= since` boundary at a coarser grain than the source does.
- The lead-time column `lead` of the supplier subquery is computed but never read, so it is not modelled.
- Not modelled: `InventoryChange`, `ProductBundle`, `safety_stock`, `product_type`, `active`, the supplier phone and `company_id` on supplier links. None of these is read by the two endpoints.
