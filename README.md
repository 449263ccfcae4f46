# Backend task assignment: a verified model of the admin backend

This project models the service layer of a small FastAPI/SQLAlchemy admin
backend for a shop: a product catalogue with categories, an inventory
ledger (one stock row per product plus an append-only history of signed
stock changes), a sales table with revenue reports, and the token check
that guards the administrative endpoints.

The database session becomes a `Models.Session` object. It holds one
sequence per table, in storage order, and one auto-increment counter per
table. The data-access functions that write (create, update, delete) are
methods on that object. The queries are functions over the table
sequences. Money is an integer number of cents (the `Numeric(10, 2)`
columns). Timestamps are an integer `now` supplied by the caller. Dates
are `(year, month, day)` triples compared by the rank `DateKey`.

What is proved, in short:

- Every table keeps unique ids below its counter (`Session.Valid`). Every
  lookup after a write is stated exactly: the written row, and no other
  row, changes.
- The ledger invariant: each stock row equals the quantity it was opened
  with plus the sum of the changes recorded for its product since then
  (`InventoryCrud.Ledger`). Every endpoint write to the inventory keeps
  it; `create_inventory` on its own keeps it when the product has no stock
  row yet.
- The revenue report has one row per label, sorted by label, and each row
  holds the revenue of that label's sales. The rows add up to the window
  total that the two-period comparison reports.
- Day, month and year labels sort as text in calendar order. Week labels
  do not: `2025-W10` sorts before `2025-W9`.
- The admin gate answers 401 before 403. It reads roles from the token
  only. The sale endpoint checks the gate before the product.

## Model

| member | source | states |
|---|---|---|
| ProductCrud.GetProduct | app/crud/product_crud.py:18-19 | the product with that id, taken from the table; None exactly when no product has that id |
| ProductCrud.GetProductByCategory | app/crud/product_crud.py:21-22 | exactly the products of that category, each as often as it is stored |
| Tables.Window | app/crud/product_crud.py:24-25 | `.offset(skip).limit(limit)`, which `ListProducts` and `ListCategories` apply to their tables: row i is stored row skip+i; length is min(limit, rows after skip), and 0 past the end |
| ProductCrud.CreateProduct | app/crud/product_crud.py:11-16 | appends one product with a fresh id and the input's name, category and price, stamped now; that id now finds it and every other lookup is unchanged; ids stay unique |
| ProductCrud.UpdateProduct | app/crud/product_crud.py:27-36 | absent id: None and no change; present id: overwrites name, category and price and stamps updated_at, with no check that the category exists; every other row and lookup is unchanged |
| ProductCrud.DeleteProduct | app/crud/product_crud.py:38-44 | False and no change for an absent id; otherwise True, exactly that row removed and its id no longer found, other lookups unchanged |
| CategoryCrud.GetCategory | app/crud/category_crud.py:19-20 | the category with that id, or None exactly when there is none |
| CategoryCrud.CreateCategory | app/crud/category_crud.py:12-17 | appends one category with a fresh id and the input's name and description; other lookups unchanged |
| CategoryCrud.UpdateCategory | app/crud/category_crud.py:25-33 | None and no change for an absent id; otherwise sets name and description, other rows unchanged |
| CategoryCrud.DeleteCategory | app/crud/category_crud.py:35-41 | False for an absent id; otherwise True and that category removed, with no check for products that still name it |
| InventoryCrud.GetInventory | app/crud/inventory_crud.py:7-8 | a stock row of the product, or None exactly when the product has no stock row |
| InventoryCrud.ListLowStock | app/crud/inventory_crud.py:15-16 | exactly the rows whose quantity is at or below a non-NULL threshold, each as often as stored |
| InventoryCrud.CreateInventory | app/crud/inventory_crud.py:19-29 | appends one stock row with the input's product, quantity and threshold, stamped now, and no history entry; a missing threshold is stored as the column default 10 (app/models/models.py:78), so such a row at 10 units or fewer is listed as low stock; when the product had no row the ledger stays balanced |
| InventoryCrud.UpdateInventory | app/crud/inventory_crud.py:32-47 | the product's row gets quantity + change (no lower bound) and last_updated = now; exactly one history entry with the same product, change and reason is appended; other rows unchanged; the ledger stays balanced |
| InventoryCrud.AdjustFacts | app/crud/inventory_crud.py:33-43 | after the adjustment the product's lookup answers the adjusted row, and a balanced ledger with the new entry appended is still balanced |
| InventoryCrud.Commit | app/crud/inventory_crud.py:42-44 | the single commit: row i replaced and the entry appended together, ids still unique |
| InventoryCrud.DeleteInventory | app/crud/inventory_crud.py:49-53 | removes the product's row, leaves the history untouched, answers True; the ledger stays balanced and the product then has no row |
| InventoryCrud.DeltaSumAppend | app/crud/inventory_crud.py:36-43 | appending an entry adds its change to its own product's running sum only |
| InventoryCrud.OpenKeepsBalance | app/crud/inventory_crud.py:19-29 | opening a row for a product without one keeps every row reconciled with the ledger |
| InventoryCrud.AdjustKeepsBalance | app/crud/inventory_crud.py:32-47 | changing a row by the change an appended entry records keeps every row reconciled |
| InventoryCrud.CloseKeepsBalance | app/crud/inventory_crud.py:49-53 | removing a row keeps the remaining rows reconciled |
| InventoryCrud.ListInventoryHistory | app/crud/inventory_crud.py:55-56 | all history entries, a permutation of the table, most recent first |
| InventoryCrud.GetInventoryHistory | app/crud/inventory_crud.py:58-59 | as written: the whole history, most recent first, when the product has a stock row, and nothing otherwise |
| InventoryCrud.AsWrittenIgnoresProduct | app/crud/inventory_crud.py:59 | as written, the answer is the same for any two products that have stock rows |
| InventoryCrud.HistoryFilterCounterexample | app/crud/inventory_crud.py:59 | product 7 with a stock row and a single entry for product 8: the query as written returns that entry, the intended one returns nothing |
| InventoryCrud.HistoryForProduct | app/crud/inventory_crud.py:58-59 | intended: exactly the product's own entries, each as often as stored, most recent first |
| PeriodLabels.ParsePeriod | app/crud/sale_crud.py:42-52 | accepts exactly day, week, month and year, and each name denotes its own period |
| PeriodLabels.ParsePeriodName | app/crud/sale_crud.py:43-50 | each period's name parses back to that period |
| PeriodLabels.DayLabelOrder | app/crud/sale_crud.py:44 | day labels of valid dates sort as text exactly in calendar order |
| PeriodLabels.DayLabelInjective | app/crud/sale_crud.py:44 | two valid dates share a day label exactly when they are the same date |
| PeriodLabels.MonthLabelOrder | app/crud/sale_crud.py:48 | zero-padded YYYY-MM labels sort as text by year, then month |
| PeriodLabels.MonthLabelInjective | app/crud/sale_crud.py:48 | two dates share a month label exactly when year and month agree |
| PeriodLabels.YearLabelOrder | app/crud/sale_crud.py:50 | for years 1000-9999 the decimal year labels sort as text the way the years sort as numbers |
| PeriodLabels.WeekLabelInjective | app/crud/sale_crud.py:46 | a week label determines its year and its week number |
| PeriodLabels.WeekLabelsSortAsText | app/crud/sale_crud.py:46 | the unpadded week label 2025-W10 sorts before 2025-W9 |
| PeriodLabels.FixedOrder | app/crud/sale_crud.py:48 | zero-padded numbers of one width compare as text as they compare as numbers, and are equal only when the numbers are |
| Aggregate.Group | app/crud/sale_crud.py:54-60 | GROUP BY label ORDER BY label: strictly increasing labels, and exactly the labels of the entries |
| Aggregate.GroupSums | app/crud/sale_crud.py:55 | under every label the groups hold the summed units and revenue of that label's entries |
| Aggregate.GroupTotals | app/crud/sale_crud.py:55 | grouping loses no units and no revenue |
| Aggregate.GroupRows | app/crud/sale_crud.py:54-60 | each group row holds exactly the sums of its own label's entries |
| Aggregate.Merge | app/crud/sale_crud.py:57-58 | adding one entry to sorted groups keeps them strictly sorted and adds its label |
| SaleCrud.GetSale | app/crud/sale_crud.py:8-9 | the sale with that id, or None exactly when there is none |
| SaleCrud.CreateSale | app/crud/sale_crud.py:28-35 | appends one sale carrying the input's product, date, quantity and amount verbatim (token dropped, amount not checked against price); other lookups unchanged |
| SaleCrud.RevenueComparison | app/crud/sale_crud.py:63-70 | each window summed on its own; a window with no sale in it, and so any reversed window, yields 0 (the `or 0` of the source) |
| SaleCrud.RevenueByPeriod | app/crud/sale_crud.py:37-61 | Err "Invalid period" exactly for unknown periods; otherwise rows strictly sorted by label, one per label of an in-window sale (inclusive at both ends), each with that label's revenue |
| SaleCrud.EntriesRevenue | app/crud/sale_crud.py:54-56 | the per-sale entries carry exactly the window's revenue |
| SaleCrud.EntriesLabels | app/crud/sale_crud.py:55-56 | the entries' labels are exactly the labels of the in-window sales |
| SaleCrud.PeriodsAddUp | app/crud/sale_crud.py:54-61 | the report's rows add up to the revenue of the whole window |
| SaleCrud.ComparisonMatchesReport | app/crud/sale_crud.py:68-69 | each comparison figure equals the sum of the revenue report over the same window, for any period |
| SaleCrud.DailyRowsChronological | app/crud/sale_crud.py:44 | in the daily report an earlier row is an earlier date |
| SaleCrud.SalesByPeriodCategory | app/crud/sale_crud.py:72-89 | one row per category name (same-named categories merge), with the units and revenue of the window's sales that join to a category of that name |
| SaleCrud.GetSalesByDateRange | app/crud/sale_crud.py:91-96 | exactly the window's sales, each as often as stored, in non-decreasing date order |
| SaleCrud.GetSalesByProduct | app/crud/sale_crud.py:98-117 | at most one row; a row exactly when the product and its category exist and it sold in the window; then the product's and category's names and the summed units and revenue |
| SaleCrud.GetSalesByCategory | app/crud/sale_crud.py:119-137 | at most one row; a row exactly when the category exists and one of its products sold in the window; then its name and the summed units and revenue |
| SaleCrud.CategoryReportsAgree | app/crud/sale_crud.py:72-89 | when no other category shares its name, a category's sums in the grouped report equal its single-category report |
| UsersApi.GetCurrentUser | app/api/endpoints/users.py:18-33 | 401 "Please Login First" exactly when the token does not decode, names no user, or names an unknown user; otherwise that user with the token's roles, [] when the claim is absent |
| UsersApi.IsAdmin | app/api/endpoints/users.py:35-39 | True exactly when logged in and "admin" is among the token's roles; 401 takes precedence over 403 "Admin access required"; never False |
| UsersApi.GateIgnoresStoredRoles | app/api/endpoints/users.py:22-37 | two user stores that know the same usernames give the same gate answer whatever roles they record, so the gate reads roles from the token only |
| UsersApi.CreateNewUser | app/api/endpoints/users.py:52-55 | the store's create is reached exactly when the gate passes; otherwise 401 or 403 |
| UsersApi.ReadUser | app/api/endpoints/users.py:61-66 | the user, or 404 "User not found" exactly when the store has none |
| UsersApi.UpdateExistingUser | app/api/endpoints/users.py:68-74 | the gate's error first; then 404 when the store finds no such user; otherwise the updated user |
| UsersApi.DeleteExistingUser | app/api/endpoints/users.py:76-81 | not gated; 404 exactly when the store deletes nothing |
| InventoryApi.ReadInventoryByProduct | app/api/endpoints/inventory.py:27-32 | the product's stock row, or 404 "Inventory not found" exactly when it has none |
| InventoryApi.AddInventory | app/api/endpoints/inventory.py:42-50 | 404 for a missing product, then 400 for an existing row, with nothing changed; otherwise the new row, with the next id, stamped now and the threshold defaulted to 10; one row per product and the ledger are kept whatever the request |
| InventoryApi.AdjustInventory | app/api/endpoints/inventory.py:52-61 | 404 product, then 404 inventory, with neither stock nor history changed; otherwise the product's row with only its quantity raised by the change and last_updated set to now, replaced in place, every other row unchanged, and one new history entry |
| InventoryApi.RemoveInventory | app/api/endpoints/inventory.py:63-72 | the same two checks in the same order, nothing changed on failure; otherwise exactly the product's row removed, every other row kept in order, and True |
| SalesApi.CreateNewSale | app/api/endpoints/sales.py:20-26 | the gate's 401/403 before the 404 "Product not found", so a non-admin never learns whether the product exists; a refused request stores nothing and uses no id; otherwise the stored sale, with the next id and stamped now |
| SalesApi.ReadSale | app/api/endpoints/sales.py:34-39 | the sale, or 404 "Sale not found" exactly when there is none |
| SalesApi.GetRevenue | app/api/endpoints/sales.py:41-47 | 400 "Invalid period" exactly for an unknown period; otherwise the report's rows, which add up to the window's revenue |
| SalesApi.YearRowsAreYears | app/api/endpoints/sales.py:47 | under `year` each row's label is the decimal year of an in-window sale |
| ProductsApi.CreateNewProduct | app/api/endpoints/products.py:34-44 | 400 "Category not found" exactly when the category is missing, storing nothing and using no id; otherwise the new product, with the next id, stamped now, whose category exists |
| ProductsApi.ReadProduct | app/api/endpoints/products.py:50-58 | the product, or 404 "Product not found" exactly when there is none |
| ProductsApi.ReadProductsByCategory | app/api/endpoints/products.py:60-68 | 404 "Product not found" exactly when the category has no products; otherwise exactly the category's products, each as often as stored: the list `GetProductByCategory` answers |

## Left out

- Session plumbing: `get_db`, `commit`, `refresh` and the engine setup in `database.py`. The session is the `Session` object.
- Password hashing, login and token issuance. Token decoding (signature and expiry) is the parameter `decode`.
- The user and role store. The functions `users.py` relies on (`get_user_by_username`, `create_user`, `update_user`, `get_user`, `delete_user`) are not part of this model; they are parameters.
- The role and user-role handlers, `read_users`, and the category handlers of `app/api/endpoints/category.py` other than `read_categories`. These only map a store's None or False to 404.
- `read_categories` (app/api/endpoints/category.py:33-34) accepts `skip` and `limit` but calls `list_categories(db)` without them, so it always answers `Tables.Window(categories, 0, 100)`, the first 100 categories, whatever the client asks.
- `list_inventory` (app/crud/inventory_crud.py:11-12) has no row of its own: it returns the whole stock table, which is `Session.inventory` itself. `read_inventory`, `read_low_stock`, `read_inventory_history`, `read_inventory_history_by_product`, `read_products` and `compare_revenue` pass a query's result through unchanged. The query itself is modelled.
- The `skip = 0, limit = 100` defaults of `read_products`, which passes them on to `list_products`. `Tables.Window` takes both explicitly.
- `list_sales` and `read_sales`. `list_sales` is missing a `.` before `group_by` (app/crud/sale_crud.py:21), so the module does not parse as written.
- `app/api/endpoints/products.py` imports from `app.crud.crud`, which is not part of this model. It is bound here to the product and category data access.
- Float conversion of money at the response boundary. Amounts stay integer cents.
- Column widths. The `Integer` columns overflow and `unit_price`/`total_amount` arrive as floats rounded to `Numeric(10, 2)` (app/schemas/schemas.py:69, :90; app/models/models.py:54, :67). The model's integers are unbounded and amounts are exact cents.
- SaleCrud.SalesByPeriodCategory: category names are grouped by exact string equality. The database groups them under its collation, which may merge names that differ in case or trailing spaces.
- SaleCrud.CategoryReportsAgree: "no other category shares its name" is exact string equality, for the same reason.
- InventoryCrud.UpdateInventory: the source raises on a product without a stock row (app/crud/inventory_crud.py:34 dereferences None). The model makes a stock row a precondition; its only caller, `InventoryApi.AdjustInventory`, answers 404 before reaching it.
- InventoryCrud.DeleteInventory: the source raises on a product without a stock row (app/crud/inventory_crud.py:51 deletes None). The model makes a stock row a precondition; its only caller, `InventoryApi.RemoveInventory`, answers 404 before reaching it.
- MySQL's `WEEK()` numbering, whose mode the code does not fix. It is the parameter `weekOf`.
- Router mounting. main.py:13-14, at the repository root, leave the sales and inventory routers commented out, so as shipped those endpoints are not served. The model describes the handlers as written.
- Concurrency, transactions racing each other, and isolation levels.
- Foreign-key enforcement by the database. The model stores whatever ids it is given, as the service code does.
- Negative `skip` or `limit`. The model takes them as natural numbers.
- The two `utcnow()` calls in `update_inventory`. Both are the one instant `now`.
- The order of rows that compare equal under an `ORDER BY`. The model keeps table order for ties.
- SaleCrud.SalesByPeriodCategory: the query has no `ORDER BY`, so the database may return groups in any order; the model returns them sorted by name.
- InventoryCrud.GetInventoryHistory: as written the query joins the stock table without a join condition. The joined result can hold a history entry once per matching stock row, but a query for a single mapped entity returns each entry once, and so does the model.
- InventoryCrud.GetInventory: `first()` without `ORDER BY` may return any matching row. The model returns the first in table order; the endpoint's duplicate check keeps one row per product.
- UsersApi.GetCurrentUser: a token whose `roles` claim is present but null makes the admin check raise a server error. The model treats it as an absent claim.

## Findings

| source | as written | input that shows it | evidently intended | confidence | as-written member | corrected member |
|---|---|---|---|---|---|---|
| app/crud/inventory_crud.py:59 | filters on the stock table's product column, so it returns every history entry whenever the product has a stock row | a stock row for product 7 and one history entry for product 8: asking for product 7's history returns product 8's entry | filter on the history entry's own product | not executed | InventoryCrud.HistoryFilterCounterexample | InventoryCrud.HistoryForProduct |
