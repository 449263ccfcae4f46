/**
 * Data access for the product catalog: create, look up, list by category,
 * page, update and delete product rows.
 */
module ProductCrud {
  import opened Common
  import opened Tables
  import opened Models

  /** `get_product`: the product with this id, or None. */
  function GetProduct(rows: seq<Product>, id: int): (r: Option<Product>)
    ensures r.Some? ==> r.value in rows && r.value.id == id
    ensures r.None? <==> forall p :: p in rows ==> p.id != id
  {
    Find(rows, ProductKey, id)
  }

  /** Keeps the products of category `categoryId`. */
  function InCategory(categoryId: int): Product -> bool
  {
    (p: Product) => p.categoryId == categoryId
  }

  /** `get_product_by_category`: exactly the products whose category is `categoryId`, each as often as stored. */
  function GetProductByCategory(rows: seq<Product>, categoryId: int): (r: seq<Product>)
    ensures forall p :: p in r <==> p in rows && p.categoryId == categoryId
    ensures forall p :: multiset(r)[p] == if p.categoryId == categoryId then multiset(rows)[p] else 0
  {
    Filter(rows, InCategory(categoryId))
  }

  /** `list_products`: the `Window` of the product table. */
  function ListProducts(rows: seq<Product>, skip: nat, limit: nat): seq<Product>
  {
    Window(rows, skip, limit)
  }

  /** The row after `update_product` copies the input's fields onto it and stamps `updated_at`. */
  function Updated(p: Product, input: ProductInput, now: int): (q: Product)
  {
    p.(name := input.name, categoryId := input.categoryId, unitPrice := input.unitPrice, updatedAt := now)
  }

  /**
   * `create_product`: stores one new product with the next id, the input's
   * name, category and price, and both timestamps at `now`. The category
   * is not checked here. No other product changes.
   */
  method CreateProduct(db: Session, input: ProductInput, now: int) returns (p: Product)
    requires db.Valid()
    modifies db`products, db`nextProductId
    ensures db.Valid()
    ensures p == Product(old(db.nextProductId), input.name, input.categoryId, input.unitPrice, now, now)
    ensures db.products == old(db.products) + [p]
    ensures forall id :: GetProduct(db.products, id) == if id == p.id then Some(p) else old(GetProduct(db.products, id))
  {
    p := Product(db.nextProductId, input.name, input.categoryId, input.unitPrice, now, now);
    forall id ensures Find(db.products + [p], ProductKey, id) == if id == p.id then Some(p) else Find(db.products, ProductKey, id) {
      FindAfterAppend(db.products, ProductKey, p, id);
    }
    db.products := db.products + [p];
    db.nextProductId := db.nextProductId + 1;
  }

  /**
   * `update_product`: None and no change for an unknown id; otherwise the
   * row gets the input's name, category (not checked to exist) and price
   * and `updated_at = now`, keeps its id and `created_at`, and every other
   * product stays as it was.
   */
  method UpdateProduct(db: Session, id: int, input: ProductInput, now: int) returns (r: Option<Product>)
    requires db.Valid()
    modifies db`products
    ensures db.Valid()
    ensures r.None? <==> old(GetProduct(db.products, id)).None?
    ensures r.None? ==> db.products == old(db.products)
    ensures r.Some? ==> r.value == Updated(old(GetProduct(db.products, id)).value, input, now)
    ensures |db.products| == old(|db.products|)
    ensures forall j :: 0 <= j < |db.products| ==>
      db.products[j] == if old(db.products)[j].id == id then Updated(old(db.products)[j], input, now) else old(db.products)[j]
    ensures forall k :: GetProduct(db.products, k) == if k == id then r else old(GetProduct(db.products, k))
  {
    match FirstIndex(db.products, ProductKey, id)
    case None =>
      r := None;
    case Some(i) =>
      var q := Updated(db.products[i], input, now);
      ReplaceKeyed(db.products, ProductKey, i, q, db.nextProductId);
      db.products := db.products[i := q];
      r := Some(q);
  }

  /**
   * `delete_product`: False and no change for an unknown id; otherwise
   * removes exactly that product and answers True. References from
   * inventory or sales rows are not checked.
   */
  method DeleteProduct(db: Session, id: int) returns (deleted: bool)
    requires db.Valid()
    modifies db`products
    ensures db.Valid()
    ensures deleted <==> old(GetProduct(db.products, id)).Some?
    ensures !deleted ==> db.products == old(db.products)
    ensures deleted ==> multiset(db.products) + multiset{old(GetProduct(db.products, id)).value} == old(multiset(db.products))
    ensures forall k :: GetProduct(db.products, k) == if k == id then None else old(GetProduct(db.products, k))
  {
    match FirstIndex(db.products, ProductKey, id)
    case None =>
      deleted := false;
    case Some(i) =>
      var rows' := RemoveAt(db.products, i);
      forall k | k != id ensures Find(rows', ProductKey, k) == Find(db.products, ProductKey, k) {
        FindAfterRemove(db.products, ProductKey, i, k);
      }
      UniqueAfterRemove(db.products, ProductKey, i);
      forall j | 0 <= j < |rows'| ensures ProductKey(rows'[j]) < db.nextProductId {
        assert rows'[j] in db.products;
      }
      db.products := rows';
      deleted := true;
  }
}
