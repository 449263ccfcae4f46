/**
 * The records of the admin backend and the database session that holds
 * them. Each table is a sequence of rows in storage order; ids come from
 * per-table auto-increment counters. Money is an integer number of cents
 * (the `Numeric(10, 2)` columns); timestamps are integers supplied by the
 * caller as `now`.
 */
module Models {
  import opened Common
  import opened Tables

  /** A calendar date: a `Date` column, or a Python `date`. */
  datatype Date = Date(year: nat, month: nat, day: nat)

  predicate IsLeapYear(y: nat)
  {
    y % 4 == 0 && (y % 100 != 0 || y % 400 == 0)
  }

  function DaysInMonth(y: nat, m: nat): (n: nat)
    requires 1 <= m <= 12
    ensures 28 <= n <= 31
  {
    if m == 2 then (if IsLeapYear(y) then 29 else 28)
    else if m == 4 || m == 6 || m == 9 || m == 11 then 30
    else 31
  }

  /** A date in the range a MySQL `DATE` column supports, 1000-01-01 to 9999-12-31. */
  predicate ValidDate(d: Date)
  {
    1000 <= d.year <= 9999 && 1 <= d.month <= 12 && 1 <= d.day <= DaysInMonth(d.year, d.month)
  }

  /** The chronological rank of a date, as `BETWEEN` and `ORDER BY` compare dates. */
  function DateKey(d: Date): int
  {
    d.year * 10000 + d.month * 100 + d.day
  }

  /** `start <= d <= end`, inclusive at both ends (SQL `BETWEEN`). */
  predicate InWindow(d: Date, start: Date, end: Date)
  {
    DateKey(start) <= DateKey(d) <= DateKey(end)
  }

  datatype Category = Category(id: int, name: string, description: Option<string>, createdAt: int)

  /** The fields a client supplies for a category (`CategoryCreate`). */
  datatype CategoryInput = CategoryInput(name: string, description: Option<string>)

  datatype Product = Product(id: int, name: string, categoryId: int, unitPrice: int,
                             createdAt: int, updatedAt: int)

  /** The fields a client supplies for a product (`ProductCreate`). */
  datatype ProductInput = ProductInput(name: string, categoryId: int, unitPrice: int)

  datatype Sale = Sale(id: int, productId: int, saleDate: Date, quantity: int, totalAmount: int,
                       createdAt: int)

  /** The fields a client supplies for a sale (`SaleCreate`), including the caller's token. */
  datatype SaleInput = SaleInput(productId: int, saleDate: Date, quantity: int, totalAmount: int,
                                 token: string)

  /** Current stock of a product; a NULL threshold is `None`. */
  datatype Inventory = Inventory(id: int, productId: int, quantityOnHand: int,
                                 lowStockThreshold: Option<int>, lastUpdated: int)

  /**
   * The threshold a stock row is stored with when the request gives none:
   * the column's default, which the insert applies when the value is NULL.
   */
  const DefaultThreshold := 10

  /** The fields a client supplies for a stock row (`InventoryCreate`); a missing threshold is `None`. */
  datatype InventoryInput = InventoryInput(productId: int, quantityOnHand: int, lowStockThreshold: Option<int>)

  /** One entry of the stock ledger: a signed change and why it was made. */
  datatype InventoryHistory = InventoryHistory(id: int, productId: int, changeQty: int, reason: string,
                                               changedAt: int)

  /** Where a product's stock row was opened: its quantity then, and the ledger's length then. */
  datatype Opening = Opening(quantity: int, mark: nat)

  function CategoryKey(c: Category): int { c.id }
  function ProductKey(p: Product): int { p.id }
  function SaleKey(s: Sale): int { s.id }
  function InventoryKey(r: Inventory): int { r.id }
  function InventoryProduct(r: Inventory): int { r.productId }
  function HistoryKey(h: InventoryHistory): int { h.id }

  /**
   * The database as one session sees it. `opening` is bookkeeping for the
   * proofs: for each product whose stock row was created, the quantity it
   * was created with and how many ledger entries existed at that moment.
   */
  class Session {
    var categories: seq<Category>
    var products: seq<Product>
    var sales: seq<Sale>
    var inventory: seq<Inventory>
    var history: seq<InventoryHistory>
    var nextCategoryId: int
    var nextProductId: int
    var nextSaleId: int
    var nextInventoryId: int
    var nextHistoryId: int
    ghost var opening: map<int, Opening>

    /** Every table's id is a primary key below its table's next auto-increment value. */
    ghost predicate Valid()
      reads this
    {
      && Keyed(categories, CategoryKey, nextCategoryId)
      && Keyed(products, ProductKey, nextProductId)
      && Keyed(sales, SaleKey, nextSaleId)
      && Keyed(inventory, InventoryKey, nextInventoryId)
      && Keyed(history, HistoryKey, nextHistoryId)
    }

    /** An empty database whose auto-increment counters start at 1. */
    constructor ()
      ensures Valid()
      ensures categories == [] && products == [] && sales == [] && inventory == [] && history == []
      ensures nextCategoryId == nextProductId == nextSaleId == nextInventoryId == nextHistoryId == 1
      ensures opening == map[]
    {
      categories, products, sales, inventory, history := [], [], [], [], [];
      nextCategoryId, nextProductId, nextSaleId, nextInventoryId, nextHistoryId := 1, 1, 1, 1, 1;
      opening := map[];
    }
  }
}
