/**
 * Data access for product categories: create, look up, page, update and
 * delete category rows.
 */
module CategoryCrud {
  import opened Common
  import opened Tables
  import opened Models

  /** `get_category`: the category with this id, or None. */
  function GetCategory(rows: seq<Category>, id: int): (r: Option<Category>)
    ensures r.Some? ==> r.value in rows && r.value.id == id
    ensures r.None? <==> forall c :: c in rows ==> c.id != id
  {
    Find(rows, CategoryKey, id)
  }

  /** `list_categories`: the `Window` of the category table. */
  function ListCategories(rows: seq<Category>, skip: nat, limit: nat): seq<Category>
  {
    Window(rows, skip, limit)
  }

  /**
   * `create_category`: stores one new category with the next id, the
   * input's name and description, created at `now`. No other category changes.
   */
  method CreateCategory(db: Session, input: CategoryInput, now: int) returns (c: Category)
    requires db.Valid()
    modifies db`categories, db`nextCategoryId
    ensures db.Valid()
    ensures c == Category(old(db.nextCategoryId), input.name, input.description, now)
    ensures db.categories == old(db.categories) + [c]
    ensures forall id :: GetCategory(db.categories, id) == if id == c.id then Some(c) else old(GetCategory(db.categories, id))
  {
    c := Category(db.nextCategoryId, input.name, input.description, now);
    forall id ensures Find(db.categories + [c], CategoryKey, id) == if id == c.id then Some(c) else Find(db.categories, CategoryKey, id) {
      FindAfterAppend(db.categories, CategoryKey, c, id);
    }
    db.categories := db.categories + [c];
    db.nextCategoryId := db.nextCategoryId + 1;
  }

  /**
   * `update_category`: None and no change for an unknown id; otherwise the
   * row gets the input's name and description, keeps its id and creation
   * time, and every other category stays as it was.
   */
  method UpdateCategory(db: Session, id: int, input: CategoryInput) returns (r: Option<Category>)
    requires db.Valid()
    modifies db`categories
    ensures db.Valid()
    ensures r.None? <==> old(GetCategory(db.categories, id)).None?
    ensures r.Some? ==> r.value == old(GetCategory(db.categories, id)).value.(name := input.name, description := input.description)
    ensures |db.categories| == old(|db.categories|)
    ensures forall j :: 0 <= j < |db.categories| ==>
      db.categories[j] == if old(db.categories)[j].id == id
                          then old(db.categories)[j].(name := input.name, description := input.description)
                          else old(db.categories)[j]
    ensures forall k :: GetCategory(db.categories, k) == if k == id then r else old(GetCategory(db.categories, k))
  {
    match FirstIndex(db.categories, CategoryKey, id)
    case None =>
      r := None;
    case Some(i) =>
      var c := db.categories[i].(name := input.name, description := input.description);
      ReplaceKeyed(db.categories, CategoryKey, i, c, db.nextCategoryId);
      db.categories := db.categories[i := c];
      r := Some(c);
  }

  /**
   * `delete_category`: False and no change for an unknown id; otherwise
   * removes exactly that category and answers True, whether or not
   * products still refer to it.
   */
  method DeleteCategory(db: Session, id: int) returns (deleted: bool)
    requires db.Valid()
    modifies db`categories
    ensures db.Valid()
    ensures deleted <==> old(GetCategory(db.categories, id)).Some?
    ensures !deleted ==> db.categories == old(db.categories)
    ensures deleted ==> multiset(db.categories) + multiset{old(GetCategory(db.categories, id)).value} == old(multiset(db.categories))
    ensures forall k :: GetCategory(db.categories, k) == if k == id then None else old(GetCategory(db.categories, k))
  {
    match FirstIndex(db.categories, CategoryKey, id)
    case None =>
      deleted := false;
    case Some(i) =>
      var rows' := RemoveAt(db.categories, i);
      forall k | k != id ensures Find(rows', CategoryKey, k) == Find(db.categories, CategoryKey, k) {
        FindAfterRemove(db.categories, CategoryKey, i, k);
      }
      UniqueAfterRemove(db.categories, CategoryKey, i);
      forall j | 0 <= j < |rows'| ensures CategoryKey(rows'[j]) < db.nextCategoryId {
        assert rows'[j] in db.categories;
      }
      db.categories := rows';
      deleted := true;
  }
}
