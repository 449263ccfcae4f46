/**
 * Data access for sales and the sales reports. Every report keeps the
 * sales whose date lies in an inclusive window; the reports that name a
 * product or a category reach them through the sale's product and that
 * product's category, and a sale whose product or category is missing
 * drops out of those joins.
 */
module SaleCrud {
  import opened Common
  import opened Tables
  import opened Models
  import opened Text
  import opened Aggregate
  import opened PeriodLabels
  import ProductCrud
  import CategoryCrud

  /** `get_sale`: the sale with this id, or None. */
  function GetSale(rows: seq<Sale>, id: int): (r: Option<Sale>)
    ensures r.Some? ==> r.value in rows && r.value.id == id
    ensures r.None? <==> forall s :: s in rows ==> s.id != id
  {
    Find(rows, SaleKey, id)
  }

  /**
   * `create_sale`: stores one new sale with the next id and the input's
   * product, date, quantity and amount, created at `now`; the token is
   * dropped. The product and the amount are not checked here.
   */
  method CreateSale(db: Session, input: SaleInput, now: int) returns (s: Sale)
    requires db.Valid()
    modifies db`sales, db`nextSaleId
    ensures db.Valid()
    ensures s == Sale(old(db.nextSaleId), input.productId, input.saleDate, input.quantity, input.totalAmount, now)
    ensures db.sales == old(db.sales) + [s]
    ensures forall id :: GetSale(db.sales, id) == if id == s.id then Some(s) else old(GetSale(db.sales, id))
  {
    s := Sale(db.nextSaleId, input.productId, input.saleDate, input.quantity, input.totalAmount, now);
    forall id ensures Find(db.sales + [s], SaleKey, id) == if id == s.id then Some(s) else Find(db.sales, SaleKey, id) {
      FindAfterAppend(db.sales, SaleKey, s, id);
    }
    AppendFresh(db.sales, SaleKey, s, db.nextSaleId);
    db.sales := db.sales + [s];
    db.nextSaleId := db.nextSaleId + 1;
  }

  // ---------------------------------------------------------------------
  // Sums over a date window

  /** `SUM(total_amount)` of the sales dated within the window, 0 when there are none. */
  function WindowRevenue(sales: seq<Sale>, start: Date, end: Date): int
  {
    if sales == [] then 0
    else (if InWindow(sales[0].saleDate, start, end) then sales[0].totalAmount else 0) + WindowRevenue(sales[1..], start, end)
  }

  /** The revenue of the two windows, as `revenue_comparison` reports it. */
  datatype Comparison = Comparison(period1: int, period2: int)

  /**
   * `revenue_comparison`: the revenue of each window, 0 for a window with
   * no sales. The windows are not required to be ordered or disjoint; one
   * that ends before it starts holds nothing.
   */
  function RevenueComparison(sales: seq<Sale>, start1: Date, end1: Date, start2: Date, end2: Date): (r: Comparison)
    ensures DateKey(end1) < DateKey(start1) ==> r.period1 == 0
    ensures DateKey(end2) < DateKey(start2) ==> r.period2 == 0
    ensures (forall s :: s in sales ==> !InWindow(s.saleDate, start1, end1)) ==> r.period1 == 0
    ensures (forall s :: s in sales ==> !InWindow(s.saleDate, start2, end2)) ==> r.period2 == 0
  {
    EmptyWindow(sales, start1, end1);
    EmptyWindow(sales, start2, end2);
    Comparison(WindowRevenue(sales, start1, end1), WindowRevenue(sales, start2, end2))
  }

  /**
   * A window that holds no sale has revenue 0; in particular one that ends
   * before it starts.
   */
  lemma {:induction false} EmptyWindow(sales: seq<Sale>, start: Date, end: Date)
    ensures (forall s :: s in sales ==> !InWindow(s.saleDate, start, end)) ==> WindowRevenue(sales, start, end) == 0
    ensures DateKey(end) < DateKey(start) ==> WindowRevenue(sales, start, end) == 0
  {
    if sales != [] {
      EmptyWindow(sales[1..], start, end);
    }
  }

  // ---------------------------------------------------------------------
  // Revenue by period

  /** One entry per sale in the window, in table order, under the label of its period. */
  function PeriodEntries(sales: seq<Sale>, p: Period, start: Date, end: Date, weekOf: Date -> nat): seq<Tally>
  {
    if sales == [] then []
    else
      (if InWindow(sales[0].saleDate, start, end)
       then [Tally(Label(p, sales[0].saleDate, weekOf), sales[0].quantity, sales[0].totalAmount)]
       else [])
      + PeriodEntries(sales[1..], p, start, end, weekOf)
  }

  /** The entries carry exactly the revenue of the window. */
  lemma {:induction false} EntriesRevenue(sales: seq<Sale>, p: Period, start: Date, end: Date, weekOf: Date -> nat)
    ensures TotalRevenue(PeriodEntries(sales, p, start, end, weekOf)) == WindowRevenue(sales, start, end)
  {
    if sales != [] {
      var head := if InWindow(sales[0].saleDate, start, end)
                  then [Tally(Label(p, sales[0].saleDate, weekOf), sales[0].quantity, sales[0].totalAmount)]
                  else [];
      var rest := PeriodEntries(sales[1..], p, start, end, weekOf);
      EntriesRevenue(sales[1..], p, start, end, weekOf);
      TotalRevenueConcat(head, rest);
    }
  }

  lemma {:induction false} TotalRevenueConcat(a: seq<Tally>, b: seq<Tally>)
    ensures TotalRevenue(a + b) == TotalRevenue(a) + TotalRevenue(b)
  {
    if a != [] {
      assert (a + b)[1..] == a[1..] + b;
      TotalRevenueConcat(a[1..], b);
    } else {
      assert a + b == b;
    }
  }

  /** A label belongs to the entries exactly when some sale in the window is dated in that period. */
  lemma {:induction false} EntriesLabels(sales: seq<Sale>, p: Period, start: Date, end: Date, weekOf: Date -> nat)
    ensures Labels(PeriodEntries(sales, p, start, end, weekOf))
            == set s | s in sales && InWindow(s.saleDate, start, end) :: Label(p, s.saleDate, weekOf)
  {
    if sales != [] {
      var s0 := sales[0];
      var head := if InWindow(s0.saleDate, start, end)
                  then [Tally(Label(p, s0.saleDate, weekOf), s0.quantity, s0.totalAmount)]
                  else [];
      var rest := PeriodEntries(sales[1..], p, start, end, weekOf);
      EntriesLabels(sales[1..], p, start, end, weekOf);
      LabelsConcat(head, rest);
      assert sales == [s0] + sales[1..];
      if InWindow(s0.saleDate, start, end) {
        assert Labels(head) == {Label(p, s0.saleDate, weekOf)} by { assert head[0].key == Label(p, s0.saleDate, weekOf); }
      } else {
        assert Labels(head) == {};
      }
    }
  }

  lemma LabelsConcat(a: seq<Tally>, b: seq<Tally>)
    ensures Labels(a + b) == Labels(a) + Labels(b)
  {
    var c := a + b;
    forall l | l in Labels(c) ensures l in Labels(a) + Labels(b) {
      var i :| 0 <= i < |c| && c[i].key == l;
      if i >= |a| {
        assert c[i] == b[i - |a|];
      }
    }
    forall l | l in Labels(a) + Labels(b) ensures l in Labels(c) {
      if l in Labels(a) {
        var i :| 0 <= i < |a| && a[i].key == l;
        assert c[i] == a[i];
      } else {
        var i :| 0 <= i < |b| && b[i].key == l;
        assert c[|a| + i] == b[i];
      }
    }
  }

  /** One row of the revenue report. */
  datatype PeriodRevenue = PeriodRevenue(period: string, revenue: int)

  function RevenueRows(groups: seq<Tally>): (r: seq<PeriodRevenue>)
    ensures |r| == |groups|
    ensures forall i :: 0 <= i < |r| ==> r[i] == PeriodRevenue(groups[i].key, groups[i].revenue)
  {
    if groups == [] then [] else [PeriodRevenue(groups[0].key, groups[0].revenue)] + RevenueRows(groups[1..])
  }

  /**
   * `revenue_by_period`: rejects any period other than day, week, month and
   * year; otherwise one row per label that some sale in the window falls
   * under, sorted by label, holding the revenue of that label's sales.
   */
  function RevenueByPeriod(sales: seq<Sale>, period: string, start: Date, end: Date, weekOf: Date -> nat)
    : (r: Result<seq<PeriodRevenue>, string>)
    ensures r.Err? <==> ParsePeriod(period).None?
    ensures r.Err? ==> r.error == "Invalid period"
    ensures r.Ok? ==> forall i, j :: 0 <= i < j < |r.value| ==> Less(r.value[i].period, r.value[j].period)
    ensures r.Ok? ==> forall i :: 0 <= i < |r.value| ==>
              r.value[i].revenue == RevenueFor(PeriodEntries(sales, ParsePeriod(period).value, start, end, weekOf), r.value[i].period)
    ensures r.Ok? ==>
              ((set i | 0 <= i < |r.value| :: r.value[i].period)
               == set s | s in sales && InWindow(s.saleDate, start, end) :: Label(ParsePeriod(period).value, s.saleDate, weekOf))
  {
    match ParsePeriod(period)
    case None => Err("Invalid period")
    case Some(p) =>
      var es := PeriodEntries(sales, p, start, end, weekOf);
      var groups := Group(es);
      var rows := RevenueRows(groups);
      assert forall i :: 0 <= i < |rows| ==> rows[i].revenue == RevenueFor(es, rows[i].period) by {
        forall i | 0 <= i < |rows| ensures rows[i].revenue == RevenueFor(es, rows[i].period) {
          GroupRows(es, i);
        }
      }
      EntriesLabels(sales, p, start, end, weekOf);
      assert (set i | 0 <= i < |rows| :: rows[i].period) == Labels(groups);
      Ok(rows)
  }

  function SumRevenue(rows: seq<PeriodRevenue>): int
  {
    if rows == [] then 0 else rows[0].revenue + SumRevenue(rows[1..])
  }

  lemma {:induction false} SumRevenueRows(groups: seq<Tally>)
    ensures SumRevenue(RevenueRows(groups)) == TotalRevenue(groups)
  {
    if groups != [] {
      assert RevenueRows(groups)[1..] == RevenueRows(groups[1..]);
      SumRevenueRows(groups[1..]);
    }
  }

  /** Whatever the period, the report's rows add up to the revenue of the window. */
  lemma PeriodsAddUp(sales: seq<Sale>, period: string, start: Date, end: Date, weekOf: Date -> nat)
    requires ParsePeriod(period).Some?
    ensures SumRevenue(RevenueByPeriod(sales, period, start, end, weekOf).value) == WindowRevenue(sales, start, end)
  {
    var p := ParsePeriod(period).value;
    var es := PeriodEntries(sales, p, start, end, weekOf);
    SumRevenueRows(Group(es));
    GroupTotals(es);
    EntriesRevenue(sales, p, start, end, weekOf);
  }

  /** Each figure of the comparison is the total of the revenue report over the same window, for any period. */
  lemma ComparisonMatchesReport(sales: seq<Sale>, start1: Date, end1: Date, start2: Date, end2: Date,
                                period: string, weekOf: Date -> nat)
    requires ParsePeriod(period).Some?
    ensures RevenueComparison(sales, start1, end1, start2, end2).period1
            == SumRevenue(RevenueByPeriod(sales, period, start1, end1, weekOf).value)
    ensures RevenueComparison(sales, start1, end1, start2, end2).period2
            == SumRevenue(RevenueByPeriod(sales, period, start2, end2, weekOf).value)
  {
    PeriodsAddUp(sales, period, start1, end1, weekOf);
    PeriodsAddUp(sales, period, start2, end2, weekOf);
  }

  /**
   * By day, on valid dates, the rows come in calendar order: a sale counted
   * in an earlier row is dated strictly before a sale counted in a later one.
   */
  lemma DailyRowsChronological(sales: seq<Sale>, start: Date, end: Date, weekOf: Date -> nat, i: nat, j: nat, s: Sale, t: Sale)
    requires RevenueByPeriod(sales, "day", start, end, weekOf).Ok?
    requires i < j < |RevenueByPeriod(sales, "day", start, end, weekOf).value|
    requires ValidDate(s.saleDate) && ValidDate(t.saleDate)
    requires DayLabel(s.saleDate) == RevenueByPeriod(sales, "day", start, end, weekOf).value[i].period
    requires DayLabel(t.saleDate) == RevenueByPeriod(sales, "day", start, end, weekOf).value[j].period
    ensures DateKey(s.saleDate) < DateKey(t.saleDate)
  {
    DayLabelOrder(s.saleDate, t.saleDate);
  }

  // ---------------------------------------------------------------------
  // Reports through the product and category tables

  /** The category name a sale joins to, if both its product and that product's category exist. */
  function CategoryOf(s: Sale, products: seq<Product>, categories: seq<Category>): Option<Category>
  {
    match ProductCrud.GetProduct(products, s.productId)
    case None => None
    case Some(p) => CategoryCrud.GetCategory(categories, p.categoryId)
  }

  /** One entry per sale in the window that joins to a category, under the category's name. */
  function CategoryEntries(sales: seq<Sale>, products: seq<Product>, categories: seq<Category>, start: Date, end: Date)
    : seq<Tally>
  {
    if sales == [] then []
    else
      var s := sales[0];
      (if InWindow(s.saleDate, start, end) && CategoryOf(s, products, categories).Some?
       then [Tally(CategoryOf(s, products, categories).value.name, s.quantity, s.totalAmount)]
       else [])
      + CategoryEntries(sales[1..], products, categories, start, end)
  }

  /**
   * `sales_by_period_category`: one row per category name with the units
   * and revenue of the window's sales in categories of that name.
   */
  function SalesByPeriodCategory(sales: seq<Sale>, products: seq<Product>, categories: seq<Category>,
                                 start: Date, end: Date): (r: seq<Tally>)
    ensures StrictlySorted(r)
    ensures forall i :: 0 <= i < |r| ==>
              var es := CategoryEntries(sales, products, categories, start, end);
              r[i].units == UnitsFor(es, r[i].key) && r[i].revenue == RevenueFor(es, r[i].key)
    ensures Labels(r) == Labels(CategoryEntries(sales, products, categories, start, end))
  {
    var es := CategoryEntries(sales, products, categories, start, end);
    assert forall i :: 0 <= i < |Group(es)| ==>
      Group(es)[i].units == UnitsFor(es, Group(es)[i].key) && Group(es)[i].revenue == RevenueFor(es, Group(es)[i].key) by {
      forall i | 0 <= i < |Group(es)|
        ensures Group(es)[i].units == UnitsFor(es, Group(es)[i].key) && Group(es)[i].revenue == RevenueFor(es, Group(es)[i].key)
      {
        GroupRows(es, i);
      }
    }
    Group(es)
  }

  function SaleDateKey(s: Sale): int { DateKey(s.saleDate) }

  function InPeriod(start: Date, end: Date): Sale -> bool
  {
    (s: Sale) => InWindow(s.saleDate, start, end)
  }

  /** `get_sales_by_date_range`: exactly the window's sales, each as often as stored, oldest first. */
  function GetSalesByDateRange(sales: seq<Sale>, start: Date, end: Date): (r: seq<Sale>)
    ensures forall i, j :: 0 <= i < j < |r| ==> DateKey(r[i].saleDate) <= DateKey(r[j].saleDate)
    ensures forall s :: multiset(r)[s] == if InWindow(s.saleDate, start, end) then multiset(sales)[s] else 0
  {
    var r := SortBy(Filter(sales, InPeriod(start, end)), SaleDateKey);
    assert forall i, j :: 0 <= i < j < |r| ==> SaleDateKey(r[i]) <= SaleDateKey(r[j]);
    r
  }

  /** Units and revenue of the sales that satisfy `keep`. */
  function UnitsWhere(sales: seq<Sale>, keep: Sale -> bool): int
  {
    if sales == [] then 0 else (if keep(sales[0]) then sales[0].quantity else 0) + UnitsWhere(sales[1..], keep)
  }

  function RevenueWhere(sales: seq<Sale>, keep: Sale -> bool): int
  {
    if sales == [] then 0 else (if keep(sales[0]) then sales[0].totalAmount else 0) + RevenueWhere(sales[1..], keep)
  }

  /** One row of the per-product report. */
  datatype ProductRevenue = ProductRevenue(product: string, category: string, units: int, revenue: int)

  function OfProductInWindow(productId: int, start: Date, end: Date): Sale -> bool
  {
    (s: Sale) => s.productId == productId && InWindow(s.saleDate, start, end)
  }

  /**
   * `get_sales_by_product`: no row unless the product exists, its category
   * exists and it sold in the window; then one row with the product's and
   * the category's names and the units and revenue of those sales.
   */
  function GetSalesByProduct(sales: seq<Sale>, products: seq<Product>, categories: seq<Category>,
                             start: Date, end: Date, productId: int): (r: seq<ProductRevenue>)
    ensures |r| <= 1
    ensures r != [] <==>
              && ProductCrud.GetProduct(products, productId).Some?
              && CategoryCrud.GetCategory(categories, ProductCrud.GetProduct(products, productId).value.categoryId).Some?
              && exists s :: s in sales && s.productId == productId && InWindow(s.saleDate, start, end)
    ensures r != [] ==>
              var p := ProductCrud.GetProduct(products, productId).value;
              && r[0].product == p.name
              && r[0].category == CategoryCrud.GetCategory(categories, p.categoryId).value.name
              && r[0].units == UnitsWhere(sales, OfProductInWindow(productId, start, end))
              && r[0].revenue == RevenueWhere(sales, OfProductInWindow(productId, start, end))
  {
    var keep := OfProductInWindow(productId, start, end);
    match ProductCrud.GetProduct(products, productId)
    case None => []
    case Some(p) =>
      match CategoryCrud.GetCategory(categories, p.categoryId)
      case None => []
      case Some(c) =>
        if Filter(sales, keep) == [] then
          assert forall s :: s in sales ==> !keep(s);
          []
        else
          assert Filter(sales, keep)[0] in Filter(sales, keep);
          [ProductRevenue(p.name, c.name, UnitsWhere(sales, keep), RevenueWhere(sales, keep))]
  }

  function InCategoryInWindow(products: seq<Product>, categoryId: int, start: Date, end: Date): Sale -> bool
  {
    (s: Sale) => InWindow(s.saleDate, start, end)
                 && ProductCrud.GetProduct(products, s.productId).Some?
                 && ProductCrud.GetProduct(products, s.productId).value.categoryId == categoryId
  }

  /**
   * `get_sales_by_category`: no row unless the category exists and one of
   * its products sold in the window; then one row with the category's name
   * and the units and revenue of the window's sales of its products.
   */
  function GetSalesByCategory(sales: seq<Sale>, products: seq<Product>, categories: seq<Category>,
                              start: Date, end: Date, categoryId: int): (r: seq<Tally>)
    ensures |r| <= 1
    ensures r != [] <==>
              && CategoryCrud.GetCategory(categories, categoryId).Some?
              && exists s :: s in sales && InCategoryInWindow(products, categoryId, start, end)(s)
    ensures r != [] ==>
              && r[0].key == CategoryCrud.GetCategory(categories, categoryId).value.name
              && r[0].units == UnitsWhere(sales, InCategoryInWindow(products, categoryId, start, end))
              && r[0].revenue == RevenueWhere(sales, InCategoryInWindow(products, categoryId, start, end))
  {
    var keep := InCategoryInWindow(products, categoryId, start, end);
    match CategoryCrud.GetCategory(categories, categoryId)
    case None => []
    case Some(c) =>
      if Filter(sales, keep) == [] then
        assert forall s :: s in sales ==> !keep(s);
        []
      else
        assert Filter(sales, keep)[0] in Filter(sales, keep);
        [Tally(c.name, UnitsWhere(sales, keep), RevenueWhere(sales, keep))]
  }

  /**
   * The per-category report and the per-category total agree: the named
   * category's sums equal the sales the grouped report files under its
   * name, when no other category shares that name.
   */
  lemma {:induction false} CategoryReportsAgree(sales: seq<Sale>, products: seq<Product>, categories: seq<Category>,
                                                start: Date, end: Date, c: Category)
    requires forall d :: d in categories && d.name == c.name ==> d == c
    requires CategoryCrud.GetCategory(categories, c.id) == Some(c)
    ensures RevenueFor(CategoryEntries(sales, products, categories, start, end), c.name)
            == RevenueWhere(sales, InCategoryInWindow(products, c.id, start, end))
    ensures UnitsFor(CategoryEntries(sales, products, categories, start, end), c.name)
            == UnitsWhere(sales, InCategoryInWindow(products, c.id, start, end))
  {
    if sales != [] {
      CategoryReportsAgree(sales[1..], products, categories, start, end, c);
      var s := sales[0];
      var head := if InWindow(s.saleDate, start, end) && CategoryOf(s, products, categories).Some?
                  then [Tally(CategoryOf(s, products, categories).value.name, s.quantity, s.totalAmount)]
                  else [];
      var rest := CategoryEntries(sales[1..], products, categories, start, end);
      assert CategoryEntries(sales, products, categories, start, end) == head + rest;
      SumsConcat(head, rest, c.name);
    }
  }

  lemma {:induction false} SumsConcat(a: seq<Tally>, b: seq<Tally>, key: string)
    ensures UnitsFor(a + b, key) == UnitsFor(a, key) + UnitsFor(b, key)
    ensures RevenueFor(a + b, key) == RevenueFor(a, key) + RevenueFor(b, key)
  {
    if a != [] {
      assert (a + b)[1..] == a[1..] + b;
      SumsConcat(a[1..], b, key);
    } else {
      assert a + b == b;
    }
  }
}
