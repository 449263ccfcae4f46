/**
 * The inventory endpoints: the existence and duplicate checks made before
 * the ledger is touched, in the order the handlers make them. None of
 * these handlers is behind the admin gate.
 */
module InventoryApi {
  import opened Common
  import opened Tables
  import opened Models
  import opened InventoryCrud
  import ProductCrud

  const InventoryNotFound := HttpError(NotFound, "Inventory not found")
  const AlreadyExists := HttpError(BadRequest, "Inventory Already Exist, Try Update Request")

  /** `read_inventory_by_product`: the product's stock row, or 404 "Inventory not found". */
  function ReadInventoryByProduct(rows: seq<Inventory>, productId: int): (r: Result<Inventory, HttpError>)
    ensures r.Err? <==> forall i :: 0 <= i < |rows| ==> rows[i].productId != productId
    ensures r.Err? ==> r.error == InventoryNotFound
    ensures r.Ok? ==> r.value in rows && r.value.productId == productId
  {
    match GetInventory(rows, productId)
    case None => Err(InventoryNotFound)
    case Some(inv) => Ok(inv)
  }

  /**
   * `add_inventory`: 404 when the product does not exist, then 400 when it
   * already has a stock row; otherwise the new stock row. A rejected
   * request changes nothing. Because of the duplicate check, a product
   * never gets a second stock row through this handler, and the ledger
   * stays balanced whatever the request.
   */
  method AddInventory(db: Session, input: InventoryInput, now: int) returns (r: Result<Inventory, HttpError>)
    requires db.Valid()
    modifies db`inventory, db`nextInventoryId, db`opening
    ensures db.Valid()
    ensures old(ProductCrud.GetProduct(db.products, input.productId)).None? ==> r == Err(ProductNotFound)
    ensures (old(ProductCrud.GetProduct(db.products, input.productId)).Some?
             && old(GetInventory(db.inventory, input.productId)).Some?) ==> r == Err(AlreadyExists)
    ensures r.Err? ==> db.inventory == old(db.inventory) && db.opening == old(db.opening)
    ensures r.Ok? <==> old(ProductCrud.GetProduct(db.products, input.productId)).Some?
                       && old(GetInventory(db.inventory, input.productId)).None?
    ensures r.Err? ==> db.nextInventoryId == old(db.nextInventoryId)
    ensures r.Ok? ==> && db.inventory == old(db.inventory) + [r.value]
                      && r.value.id == old(db.nextInventoryId)
                      && r.value.productId == input.productId
                      && r.value.quantityOnHand == input.quantityOnHand
                      && r.value.lowStockThreshold == (if input.lowStockThreshold.None? then Some(DefaultThreshold)
                                                       else input.lowStockThreshold)
                      && r.value.lastUpdated == now
                      && GetInventory(db.inventory, input.productId) == Some(r.value)
    ensures db.history == old(db.history)
    ensures old(UniqueKeys(db.inventory, InventoryProduct)) ==> UniqueKeys(db.inventory, InventoryProduct)
    ensures old(Ledger(db)) ==> Ledger(db)
  {
    if ProductCrud.GetProduct(db.products, input.productId).None? {
      return Err(ProductNotFound);
    }
    if GetInventory(db.inventory, input.productId).Some? {
      return Err(AlreadyExists);
    }
    var threshold := if input.lowStockThreshold.None? then Some(DefaultThreshold) else input.lowStockThreshold;
    FindAfterAppend(db.inventory, InventoryProduct, Inventory(db.nextInventoryId, input.productId,
                    input.quantityOnHand, threshold, now), input.productId);
    var inv := CreateInventory(db, input, now);
    r := Ok(inv);
  }

  /**
   * `adjust_inventory`: 404 "Product not found", then 404 "Inventory not
   * found"; a rejected request changes neither the stock nor the ledger.
   * Otherwise the adjusted stock row, with exactly one ledger entry
   * appended for it.
   */
  method AdjustInventory(db: Session, productId: int, changeQty: int, reason: string, now: int)
    returns (r: Result<Inventory, HttpError>)
    requires db.Valid()
    modifies db`inventory, db`history, db`nextHistoryId
    ensures db.Valid()
    ensures old(ProductCrud.GetProduct(db.products, productId)).None? ==> r == Err(ProductNotFound)
    ensures (old(ProductCrud.GetProduct(db.products, productId)).Some?
             && old(GetInventory(db.inventory, productId)).None?) ==> r == Err(InventoryNotFound)
    ensures r.Err? ==> db.inventory == old(db.inventory) && db.history == old(db.history)
    ensures r.Ok? <==> old(ProductCrud.GetProduct(db.products, productId)).Some?
                       && old(GetInventory(db.inventory, productId)).Some?
    ensures r.Ok? ==> && r.value.quantityOnHand == old(GetInventory(db.inventory, productId)).value.quantityOnHand + changeQty
                      && r.value.id == old(GetInventory(db.inventory, productId)).value.id
                      && r.value.lastUpdated == now
                      && GetInventory(db.inventory, productId) == Some(r.value)
                      && db.history == old(db.history) + [InventoryHistory(old(db.nextHistoryId), productId, changeQty, reason, now)]
    ensures r.Ok? ==> r.value == old(GetInventory(db.inventory, productId)).value.(
                        quantityOnHand := old(GetInventory(db.inventory, productId)).value.quantityOnHand + changeQty,
                        lastUpdated := now)
    ensures r.Ok? ==> db.inventory == old(db.inventory)[old(FirstIndex(db.inventory, InventoryProduct, productId)).value := r.value]
    ensures r.Err? ==> db.nextHistoryId == old(db.nextHistoryId)
    ensures old(Ledger(db)) ==> Ledger(db)
  {
    if ProductCrud.GetProduct(db.products, productId).None? {
      return Err(ProductNotFound);
    }
    if GetInventory(db.inventory, productId).None? {
      return Err(InventoryNotFound);
    }
    var inv, hist := UpdateInventory(db, productId, changeQty, reason, now);
    r := Ok(inv);
  }

  /**
   * `remove_inventory`: the same two checks in the same order; otherwise
   * the product's stock row is deleted and the ledger kept.
   */
  method RemoveInventory(db: Session, productId: int) returns (r: Result<bool, HttpError>)
    requires db.Valid()
    modifies db`inventory
    ensures db.Valid()
    ensures old(ProductCrud.GetProduct(db.products, productId)).None? ==> r == Err(ProductNotFound)
    ensures (old(ProductCrud.GetProduct(db.products, productId)).Some?
             && old(GetInventory(db.inventory, productId)).None?) ==> r == Err(InventoryNotFound)
    ensures r.Err? ==> db.inventory == old(db.inventory)
    ensures r.Ok? <==> old(ProductCrud.GetProduct(db.products, productId)).Some?
                       && old(GetInventory(db.inventory, productId)).Some?
    ensures r.Ok? ==> r.value && |db.inventory| == old(|db.inventory|) - 1
    ensures r.Ok? ==> db.inventory == RemoveAt(old(db.inventory), old(FirstIndex(db.inventory, InventoryProduct, productId)).value)
    ensures old(Ledger(db)) && r.Ok? ==> GetInventory(db.inventory, productId).None?
    ensures old(Ledger(db)) ==> Ledger(db)
  {
    if ProductCrud.GetProduct(db.products, productId).None? {
      return Err(ProductNotFound);
    }
    if GetInventory(db.inventory, productId).None? {
      return Err(InventoryNotFound);
    }
    var ok := DeleteInventory(db, productId);
    r := Ok(ok);
  }
}
