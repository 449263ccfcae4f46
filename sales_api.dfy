/**
 * The sales endpoints: the admin gate and product check in front of sale
 * creation, and the error mapping of the lookups and the revenue report.
 * The user store the gate consults is the parameter `findUser`.
 */
module SalesApi {
  import opened Common
  import opened Models
  import opened Text
  import opened PeriodLabels
  import opened SaleCrud
  import opened UsersApi
  import ProductCrud

  const SaleNotFound := HttpError(NotFound, "Sale not found")
  const InvalidPeriod := HttpError(BadRequest, "Invalid period")

  /**
   * `create_new_sale`: the admin gate first, so a caller who is not an
   * admin is refused (401 or 403) even for a product that does not exist;
   * then 404 "Product not found"; otherwise the stored sale. A refused
   * request stores nothing.
   */
  method CreateNewSale(db: Session, input: SaleInput, now: int,
                       decode: string -> Option<Payload>, findUser: string -> Option<User>)
    returns (r: Result<Sale, HttpError>)
    requires db.Valid()
    modifies db`sales, db`nextSaleId
    ensures db.Valid()
    ensures IsAdmin(input.token, decode, findUser).Err? ==> r == Err(IsAdmin(input.token, decode, findUser).error)
    ensures (IsAdmin(input.token, decode, findUser).Ok?
             && old(ProductCrud.GetProduct(db.products, input.productId)).None?) ==> r == Err(ProductNotFound)
    ensures r.Err? ==> db.sales == old(db.sales)
    ensures r.Err? ==> r.error.status in {Unauthorized, Forbidden, NotFound}
    ensures r.Ok? <==> IsAdmin(input.token, decode, findUser).Ok?
                       && old(ProductCrud.GetProduct(db.products, input.productId)).Some?
    ensures r.Err? ==> db.nextSaleId == old(db.nextSaleId)
    ensures r.Ok? ==> && db.sales == old(db.sales) + [r.value]
                      && r.value.id == old(db.nextSaleId)
                      && r.value.createdAt == now
                      && r.value.productId == input.productId
                      && r.value.saleDate == input.saleDate
                      && r.value.quantity == input.quantity
                      && r.value.totalAmount == input.totalAmount
                      && GetSale(db.sales, r.value.id) == Some(r.value)
  {
    match IsAdmin(input.token, decode, findUser)
    case Err(e) =>
      r := Err(e);
    case Ok(_) =>
      if ProductCrud.GetProduct(db.products, input.productId).None? {
        r := Err(ProductNotFound);
      } else {
        var s := CreateSale(db, input, now);
        r := Ok(s);
      }
  }

  /** `read_sale`: the sale with that id, or 404 "Sale not found". */
  function ReadSale(sales: seq<Sale>, id: int): (r: Result<Sale, HttpError>)
    ensures r.Err? <==> forall s :: s in sales ==> s.id != id
    ensures r.Err? ==> r.error == SaleNotFound
    ensures r.Ok? ==> r.value in sales && r.value.id == id
  {
    match GetSale(sales, id)
    case None => Err(SaleNotFound)
    case Some(s) => Ok(s)
  }

  /**
   * `get_revenue`: the report's rejection of an unknown period becomes
   * 400 "Invalid period"; otherwise the report's rows, which together
   * account for the whole revenue of the window.
   */
  function GetRevenue(sales: seq<Sale>, period: string, start: Date, end: Date, weekOf: Date -> nat)
    : (r: Result<seq<PeriodRevenue>, HttpError>)
    ensures r.Err? <==> period !in {"day", "week", "month", "year"}
    ensures r.Err? ==> r.error == InvalidPeriod
    ensures r.Ok? ==> r.value == RevenueByPeriod(sales, period, start, end, weekOf).value
    ensures r.Ok? ==> SumRevenue(r.value) == WindowRevenue(sales, start, end)
  {
    match RevenueByPeriod(sales, period, start, end, weekOf)
    case Err(_) => Err(InvalidPeriod)
    case Ok(rows) =>
      PeriodsAddUp(sales, period, start, end, weekOf);
      Ok(rows)
  }

  /** Under `year`, each label is the year printed in decimal, as `str` prints the integer. */
  lemma YearRowsAreYears(sales: seq<Sale>, start: Date, end: Date, weekOf: Date -> nat, i: nat)
    requires i < |GetRevenue(sales, "year", start, end, weekOf).value|
    ensures exists s :: s in sales && InWindow(s.saleDate, start, end)
                        && GetRevenue(sales, "year", start, end, weekOf).value[i].period == Decimal(s.saleDate.year)
  {
    assert ParsePeriod("year") == Some(Year);
    var rows := RevenueByPeriod(sales, "year", start, end, weekOf).value;
    var labels := set s | s in sales && InWindow(s.saleDate, start, end) :: Label(Year, s.saleDate, weekOf);
    assert rows[i].period in (set k | 0 <= k < |rows| :: rows[k].period);
    assert rows[i].period in labels;
    var s :| s in sales && InWindow(s.saleDate, start, end) && rows[i].period == Label(Year, s.saleDate, weekOf);
  }
}
