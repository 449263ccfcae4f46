/**
 * The product endpoints: the category check in front of product creation
 * and the not-found rules of the lookups.
 */
module ProductsApi {
  import opened Common
  import opened Models
  import opened ProductCrud
  import CategoryCrud

  const CategoryNotFound := HttpError(BadRequest, "Category not found")

  /**
   * `create_new_product`: 400 "Category not found" when the input names a
   * category that does not exist, and nothing is stored; otherwise the new
   * product, which therefore always names an existing category.
   */
  method CreateNewProduct(db: Session, input: ProductInput, now: int) returns (r: Result<Product, HttpError>)
    requires db.Valid()
    modifies db`products, db`nextProductId
    ensures db.Valid()
    ensures r.Err? <==> CategoryCrud.GetCategory(db.categories, input.categoryId).None?
    ensures r.Err? ==> r.error == CategoryNotFound && db.products == old(db.products)
    ensures r.Err? ==> db.nextProductId == old(db.nextProductId)
    ensures r.Ok? ==> && db.products == old(db.products) + [r.value]
                      && r.value.id == old(db.nextProductId)
                      && r.value.createdAt == now && r.value.updatedAt == now
                      && r.value.name == input.name
                      && r.value.categoryId == input.categoryId
                      && r.value.unitPrice == input.unitPrice
                      && GetProduct(db.products, r.value.id) == Some(r.value)
                      && CategoryCrud.GetCategory(db.categories, r.value.categoryId).Some?
  {
    if CategoryCrud.GetCategory(db.categories, input.categoryId).None? {
      return Err(CategoryNotFound);
    }
    var p := CreateProduct(db, input, now);
    r := Ok(p);
  }

  /** `read_product`: the product with that id, or 404 "Product not found". */
  function ReadProduct(rows: seq<Product>, id: int): (r: Result<Product, HttpError>)
    ensures r.Err? <==> forall p :: p in rows ==> p.id != id
    ensures r.Err? ==> r.error == ProductNotFound
    ensures r.Ok? ==> r.value in rows && r.value.id == id
  {
    match GetProduct(rows, id)
    case None => Err(ProductNotFound)
    case Some(p) => Ok(p)
  }

  /**
   * `read_products_by_category`: an empty answer is reported as 404
   * "Product not found", so a category that exists but has no products
   * cannot be told apart from one that does not exist.
   */
  function ReadProductsByCategory(rows: seq<Product>, categoryId: int): (r: Result<seq<Product>, HttpError>)
    ensures r.Err? <==> forall p :: p in rows ==> p.categoryId != categoryId
    ensures r.Err? ==> r.error == ProductNotFound
    ensures r.Ok? ==> r.value != [] && forall p :: p in r.value <==> p in rows && p.categoryId == categoryId
    ensures r.Ok? ==> forall p :: multiset(r.value)[p] == if p.categoryId == categoryId then multiset(rows)[p] else 0
    ensures r.Ok? ==> r.value == GetProductByCategory(rows, categoryId)
  {
    var found := GetProductByCategory(rows, categoryId);
    if found == [] then Err(ProductNotFound) else Ok(found)
  }
}
