/**
 * The inventory ledger: one stock row per product holding the current
 * quantity, and an append-only history of signed quantity changes. An
 * adjustment changes the stock row and appends its history entry in one
 * commit, so a stock row always equals the quantity it was opened with
 * plus the changes recorded for its product since then.
 */
module InventoryCrud {
  import opened Common
  import opened Tables
  import opened Models

  /** `get_inventory`: the first stock row of the product, or None. */
  function GetInventory(rows: seq<Inventory>, productId: int): (r: Option<Inventory>)
    ensures r.None? <==> forall i :: 0 <= i < |rows| ==> rows[i].productId != productId
    ensures r.Some? ==> r.value in rows && r.value.productId == productId
  {
    Find(rows, InventoryProduct, productId)
  }

  /** At or below its threshold; a NULL threshold never compares true in SQL. */
  predicate IsLowStock(r: Inventory)
  {
    r.lowStockThreshold.Some? && r.quantityOnHand <= r.lowStockThreshold.value
  }

  /** `list_low_stock`: exactly the stock rows at or below their threshold, each as often as stored. */
  function ListLowStock(rows: seq<Inventory>): (r: seq<Inventory>)
    ensures forall x :: x in r <==> x in rows && IsLowStock(x)
    ensures forall x :: multiset(r)[x] == if IsLowStock(x) then multiset(rows)[x] else 0
  {
    Filter(rows, IsLowStock)
  }

  // ---------------------------------------------------------------------
  // The ledger invariant

  /** The sum of the changes the entries record for one product. */
  function DeltaSum(entries: seq<InventoryHistory>, productId: int): int
  {
    if entries == [] then 0
    else (if entries[0].productId == productId then entries[0].changeQty else 0) + DeltaSum(entries[1..], productId)
  }

  /** Appending an entry adds its change to its own product's sum only. */
  lemma {:induction false} DeltaSumAppend(entries: seq<InventoryHistory>, h: InventoryHistory, productId: int)
    ensures DeltaSum(entries + [h], productId) == DeltaSum(entries, productId) + (if h.productId == productId then h.changeQty else 0)
  {
    if entries != [] {
      assert (entries + [h])[1..] == entries[1..] + [h];
      DeltaSumAppend(entries[1..], h, productId);
    }
  }

  /** A stock row equals its opening quantity plus the changes recorded for its product since it was opened. */
  ghost predicate Reconciled(r: Inventory, entries: seq<InventoryHistory>, opening: map<int, Opening>)
  {
    && r.productId in opening
    && opening[r.productId].mark <= |entries|
    && r.quantityOnHand == opening[r.productId].quantity + DeltaSum(entries[opening[r.productId].mark..], r.productId)
  }

  /** At most one stock row per product, and every stock row reconciles with the ledger. */
  ghost predicate Balanced(rows: seq<Inventory>, entries: seq<InventoryHistory>, opening: map<int, Opening>)
  {
    UniqueKeys(rows, InventoryProduct) && forall j :: 0 <= j < |rows| ==> Reconciled(rows[j], entries, opening)
  }

  ghost predicate Ledger(db: Session)
    reads db
  {
    Balanced(db.inventory, db.history, db.opening)
  }

  /** Opening a row for a product that has none keeps the ledger balanced. */
  lemma OpenKeepsBalance(rows: seq<Inventory>, entries: seq<InventoryHistory>, opening: map<int, Opening>, r: Inventory)
    requires Balanced(rows, entries, opening)
    requires forall j :: 0 <= j < |rows| ==> rows[j].productId != r.productId
    ensures Balanced(rows + [r], entries, opening[r.productId := Opening(r.quantityOnHand, |entries|)])
  {
    var opening' := opening[r.productId := Opening(r.quantityOnHand, |entries|)];
    var rows' := rows + [r];
    assert entries[|entries|..] == [];
    forall j | 0 <= j < |rows'| ensures Reconciled(rows'[j], entries, opening') {
      if j < |rows| {
        assert rows'[j] == rows[j] && Reconciled(rows[j], entries, opening);
      }
    }
    assert UniqueKeys(rows', InventoryProduct) by {
      forall a, b | 0 <= a < b < |rows'| ensures InventoryProduct(rows'[a]) != InventoryProduct(rows'[b]) {
        if b < |rows| {
          assert rows'[a] == rows[a] && rows'[b] == rows[b];
        } else {
          assert rows'[a] == rows[a];
        }
      }
    }
  }

  /**
   * Adding `h.changeQty` to a product's stock row while appending `h` for
   * that product keeps the ledger balanced.
   */
  lemma AdjustKeepsBalance(rows: seq<Inventory>, entries: seq<InventoryHistory>, opening: map<int, Opening>,
                           i: nat, h: InventoryHistory, now: int)
    requires Balanced(rows, entries, opening)
    requires i < |rows| && h.productId == rows[i].productId
    ensures Balanced(rows[i := rows[i].(quantityOnHand := rows[i].quantityOnHand + h.changeQty, lastUpdated := now)],
                     entries + [h], opening)
  {
    var r := rows[i].(quantityOnHand := rows[i].quantityOnHand + h.changeQty, lastUpdated := now);
    var rows', entries' := rows[i := r], entries + [h];
    forall j | 0 <= j < |rows'| ensures Reconciled(rows'[j], entries', opening) {
      var p := rows[j].productId;
      assert Reconciled(rows[j], entries, opening);
      var m := opening[p].mark;
      assert entries'[m..] == entries[m..] + [h];
      DeltaSumAppend(entries[m..], h, p);
      if j != i {
        assert InventoryProduct(rows[j]) != InventoryProduct(rows[i]);
      }
    }
    assert UniqueKeys(rows', InventoryProduct) by {
      forall a, b | 0 <= a < b < |rows'| ensures InventoryProduct(rows'[a]) != InventoryProduct(rows'[b]) {
        assert InventoryProduct(rows'[a]) == InventoryProduct(rows[a]);
        assert InventoryProduct(rows'[b]) == InventoryProduct(rows[b]);
      }
    }
  }

  /** Deleting a stock row keeps the ledger balanced; the history is untouched. */
  lemma CloseKeepsBalance(rows: seq<Inventory>, entries: seq<InventoryHistory>, opening: map<int, Opening>, i: nat)
    requires Balanced(rows, entries, opening) && i < |rows|
    ensures Balanced(RemoveAt(rows, i), entries, opening)
  {
    UniqueAfterRemove(rows, InventoryProduct, i);
    var rows' := RemoveAt(rows, i);
    forall j | 0 <= j < |rows'| ensures Reconciled(rows'[j], entries, opening) {
      var j' := if j < i then j else j + 1;
      assert rows'[j] == rows[j'];
    }
  }

  // ---------------------------------------------------------------------
  // Mutations

  /**
   * `create_inventory`: appends one stock row with the input's product,
   * quantity and threshold, stamped `now`, and no history entry. It does
   * not check for an existing row; when there is none, the ledger stays
   * balanced with the new row opened at its initial quantity.
   */
  method CreateInventory(db: Session, input: InventoryInput, now: int) returns (inv: Inventory)
    requires db.Valid()
    modifies db`inventory, db`nextInventoryId, db`opening
    ensures db.Valid()
    ensures inv == Inventory(old(db.nextInventoryId), input.productId, input.quantityOnHand,
                             if input.lowStockThreshold.None? then Some(DefaultThreshold) else input.lowStockThreshold, now)
    ensures input.lowStockThreshold.None? && input.quantityOnHand <= DefaultThreshold ==> inv in ListLowStock(db.inventory)
    ensures db.inventory == old(db.inventory) + [inv]
    ensures db.history == old(db.history)
    ensures db.opening == old(db.opening)[input.productId := Opening(input.quantityOnHand, |db.history|)]
    ensures old(GetInventory(db.inventory, input.productId)).None? && old(Ledger(db)) ==> Ledger(db)
  {
    var threshold := if input.lowStockThreshold.None? then Some(DefaultThreshold) else input.lowStockThreshold;
    inv := Inventory(db.nextInventoryId, input.productId, input.quantityOnHand, threshold, now);
    if GetInventory(db.inventory, input.productId).None? && Ledger(db) {
      OpenKeepsBalance(db.inventory, db.history, db.opening, inv);
    }
    AppendFresh(db.inventory, InventoryKey, inv, db.nextInventoryId);
    db.inventory := db.inventory + [inv];
    db.nextInventoryId := db.nextInventoryId + 1;
    db.opening := db.opening[input.productId := Opening(input.quantityOnHand, |db.history|)];
  }

  /**
   * `update_inventory`: on the product's (first) stock row, adds
   * `changeQty` to the quantity with no lower bound and stamps
   * `last_updated`; in the same commit appends one history entry with the
   * same product, change and reason, stamped at the same instant. Every
   * other stock row is unchanged and the ledger stays balanced. The
   * service fails on a product without a stock row, so callers check first.
   */
  method UpdateInventory(db: Session, productId: int, changeQty: int, reason: string, now: int)
    returns (inv: Inventory, hist: InventoryHistory)
    requires db.Valid() && GetInventory(db.inventory, productId).Some?
    modifies db`inventory, db`history, db`nextHistoryId
    ensures db.Valid()
    ensures inv == old(GetInventory(db.inventory, productId)).value.(
                     quantityOnHand := old(GetInventory(db.inventory, productId)).value.quantityOnHand + changeQty,
                     lastUpdated := now)
    ensures hist == InventoryHistory(old(db.nextHistoryId), productId, changeQty, reason, now)
    ensures db.history == old(db.history) + [hist]
    ensures db.inventory == old(db.inventory)[old(FirstIndex(db.inventory, InventoryProduct, productId)).value := inv]
    ensures GetInventory(db.inventory, productId) == Some(inv)
    ensures old(Ledger(db)) ==> Ledger(db)
  {
    var i := FirstIndex(db.inventory, InventoryProduct, productId).value;
    var row := db.inventory[i];
    inv := row.(quantityOnHand := row.quantityOnHand + changeQty, lastUpdated := now);
    hist := InventoryHistory(db.nextHistoryId, productId, changeQty, reason, now);
    AdjustFacts(db.inventory, db.history, db.opening, i, inv, hist);
    Commit(db, i, inv, hist);
  }

  /** The commit of one adjustment: overwrite stock row `i` and append `hist` to the ledger. */
  method Commit(db: Session, i: nat, inv: Inventory, hist: InventoryHistory)
    requires db.Valid() && i < |db.inventory| && inv.id == db.inventory[i].id && hist.id == db.nextHistoryId
    modifies db`inventory, db`history, db`nextHistoryId
    ensures db.Valid()
    ensures db.inventory == old(db.inventory)[i := inv]
    ensures db.history == old(db.history) + [hist]
    ensures db.nextHistoryId == old(db.nextHistoryId) + 1
  {
    ReplaceSameKey(db.inventory, InventoryKey, i, inv, db.nextInventoryId);
    AppendFresh(db.history, HistoryKey, hist, db.nextHistoryId);
    db.inventory, db.history, db.nextHistoryId := db.inventory[i := inv], db.history + [hist], db.nextHistoryId + 1;
  }

  /** After an adjustment the product's row is the adjusted one, and a balanced ledger stays balanced. */
  lemma AdjustFacts(rows: seq<Inventory>, entries: seq<InventoryHistory>, opening: map<int, Opening>,
                    i: nat, inv: Inventory, hist: InventoryHistory)
    requires FirstIndex(rows, InventoryProduct, hist.productId) == Some(i)
    requires inv == rows[i].(quantityOnHand := rows[i].quantityOnHand + hist.changeQty, lastUpdated := hist.changedAt)
    ensures GetInventory(rows[i := inv], hist.productId) == Some(inv)
    ensures Balanced(rows, entries, opening) ==> Balanced(rows[i := inv], entries + [hist], opening)
  {
    if Balanced(rows, entries, opening) {
      AdjustKeepsBalance(rows, entries, opening, i, hist, hist.changedAt);
    }
    FindAfterReplace(rows, InventoryProduct, i, inv, hist.productId);
  }

  /**
   * `delete_inventory`: removes the product's (first) stock row, leaves the
   * history untouched and answers True. The service fails on a product
   * without a stock row, so callers check first.
   */
  method DeleteInventory(db: Session, productId: int) returns (ok: bool)
    requires db.Valid() && GetInventory(db.inventory, productId).Some?
    modifies db`inventory
    ensures db.Valid()
    ensures ok
    ensures db.inventory == RemoveAt(old(db.inventory), old(FirstIndex(db.inventory, InventoryProduct, productId)).value)
    ensures db.history == old(db.history)
    ensures old(Ledger(db)) ==> Ledger(db) && GetInventory(db.inventory, productId).None?
  {
    var i := FirstIndex(db.inventory, InventoryProduct, productId).value;
    var rows' := RemoveAt(db.inventory, i);
    UniqueAfterRemove(db.inventory, InventoryKey, i);
    forall j | 0 <= j < |rows'| ensures InventoryKey(rows'[j]) < db.nextInventoryId {
      assert rows'[j] in db.inventory;
    }
    if Ledger(db) {
      CloseKeepsBalance(db.inventory, db.history, db.opening, i);
      UniqueAfterRemove(db.inventory, InventoryProduct, i);
    }
    db.inventory := rows';
    ok := true;
  }

  // ---------------------------------------------------------------------
  // History listings

  /** Ordering key that puts the most recent change first. */
  function NewestFirst(h: InventoryHistory): int { -h.changedAt }

  predicate NewestFirstOrder(entries: seq<InventoryHistory>)
  {
    forall i, j :: 0 <= i < j < |entries| ==> entries[i].changedAt >= entries[j].changedAt
  }

  /** `list_inventory_history`: every entry, most recent first. */
  function ListInventoryHistory(entries: seq<InventoryHistory>): (r: seq<InventoryHistory>)
    ensures NewestFirstOrder(r)
    ensures multiset(r) == multiset(entries)
  {
    var r := SortBy(entries, NewestFirst);
    assert forall i, j :: 0 <= i < j < |r| ==> NewestFirst(r[i]) <= NewestFirst(r[j]);
    r
  }

  /**
   * `get_inventory_history` as written: its filter tests the stock table's
   * product column, not the history's, so it answers the whole history
   * (most recent first) when the product has a stock row, and nothing
   * otherwise.
   */
  function GetInventoryHistory(rows: seq<Inventory>, entries: seq<InventoryHistory>, productId: int): (r: seq<InventoryHistory>)
    ensures NewestFirstOrder(r)
    ensures GetInventory(rows, productId).Some? ==> multiset(r) == multiset(entries)
    ensures GetInventory(rows, productId).None? ==> r == []
  {
    if GetInventory(rows, productId).Some? then ListInventoryHistory(entries) else []
  }

  function OfProduct(productId: int): InventoryHistory -> bool
  {
    (h: InventoryHistory) => h.productId == productId
  }

  /** The evident intent of `get_inventory_history`: the product's own entries, most recent first. */
  function HistoryForProduct(entries: seq<InventoryHistory>, productId: int): (r: seq<InventoryHistory>)
    ensures NewestFirstOrder(r)
    ensures forall h :: h in r ==> h.productId == productId
    ensures forall h :: multiset(r)[h] == if h.productId == productId then multiset(entries)[h] else 0
  {
    var mine := Filter(entries, OfProduct(productId));
    var r := ListInventoryHistory(mine);
    assert forall h :: h in r ==> h in mine by {
      forall h | h in r ensures h in mine {
        assert multiset(r)[h] > 0;
      }
    }
    r
  }

  /**
   * As written, the history "for" one product is the same for every
   * product that has a stock row: it does not depend on the product.
   */
  lemma AsWrittenIgnoresProduct(rows: seq<Inventory>, entries: seq<InventoryHistory>, p1: int, p2: int)
    requires GetInventory(rows, p1).Some? && GetInventory(rows, p2).Some?
    ensures GetInventoryHistory(rows, entries, p1) == GetInventoryHistory(rows, entries, p2)
  {
  }

  /**
   * A concrete case: product 7 has a stock row and the only history entry
   * is product 8's. As written, asking for product 7's history returns
   * product 8's entry; the intended query returns nothing.
   */
  lemma HistoryFilterCounterexample()
    ensures var rows := [Inventory(1, 7, 5, Some(10), 0)];
            var entries := [InventoryHistory(1, 8, 3, "restock", 0)];
            GetInventoryHistory(rows, entries, 7) == entries && HistoryForProduct(entries, 7) == []
  {
    var rows := [Inventory(1, 7, 5, Some(10), 0)];
    var entries := [InventoryHistory(1, 8, 3, "restock", 0)];
    assert GetInventory(rows, 7).Some?;
    var r := GetInventoryHistory(rows, entries, 7);
    assert multiset(r) == multiset(entries);
    assert |r| == 1;
    assert r[0] in multiset(entries);
    assert r == entries;
    var c := HistoryForProduct(entries, 7);
    assert multiset(c) == multiset{};
  }
}
