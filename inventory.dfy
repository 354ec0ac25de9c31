/** The catalog tables, categories and the products that reference them, with
    the constraints the schema places on them: identity keys, the unique
    category name and the restricted foreign key from product to category.
    Every catalog operation saves exactly once at its end, so the tables are
    modelled as saved state only. */
module Inventory {
  import opened Common

  datatype Category = Category(
    id: int,
    name: string,
    description: Option<string>,
    createdAt: Time,
    updatedAt: Option<Time>)

  /** Price is a `decimal` in the source, which is exact; so is `real`. */
  datatype Product = Product(
    id: int,
    name: string,
    description: Option<string>,
    price: real,
    stock: int,
    imageUrl: Option<string>,
    createdAt: Time,
    updatedAt: Option<Time>,
    categoryId: int)

  // ---------------------------------------------------------------------
  // Queries (GetByIdAsync, FirstOrDefaultAsync, CountAsync, ExistsAsync)

  datatype CategoryQuery =
    | ById(id: int)
    | ByName(lowerName: string)
    | ByNameExcept(lowerName: string, id: int)

  predicate CategoryMatches(q: CategoryQuery, c: Category) {
    match q
    case ById(id) => c.id == id
    case ByName(n) => ToLower(c.name) == n
    case ByNameExcept(n, id) => ToLower(c.name) == n && c.id != id
  }

  /** The index of the first matching category, in table order. */
  function FindCategory(categories: seq<Category>, q: CategoryQuery): (r: Option<nat>)
    ensures r.Some? ==> r.value < |categories| && CategoryMatches(q, categories[r.value])
    ensures r.Some? ==> forall j | 0 <= j < r.value :: !CategoryMatches(q, categories[j])
    ensures r.None? ==> forall j | 0 <= j < |categories| :: !CategoryMatches(q, categories[j])
  {
    if categories == [] then None
    else if CategoryMatches(q, categories[0]) then Some(0)
    else match FindCategory(categories[1..], q)
      case None => None
      case Some(k) => Some(k + 1)
  }

  /** The index of the first product with the id. */
  function FindProduct(products: seq<Product>, id: int): (r: Option<nat>)
    ensures r.Some? ==> r.value < |products| && products[r.value].id == id
    ensures r.Some? ==> forall j | 0 <= j < r.value :: products[j].id != id
    ensures r.None? ==> forall j | 0 <= j < |products| :: products[j].id != id
  {
    if products == [] then None
    else if products[0].id == id then Some(0)
    else match FindProduct(products[1..], id)
      case None => None
      case Some(k) => Some(k + 1)
  }

  /** The number of products in a category. */
  function ProductCount(products: seq<Product>, categoryId: int): (n: nat)
    ensures n <= |products|
  {
    if products == [] then 0
    else (if products[0].categoryId == categoryId then 1 else 0) + ProductCount(products[1..], categoryId)
  }

  predicate HasProducts(products: seq<Product>, categoryId: int) {
    exists i | 0 <= i < |products| :: products[i].categoryId == categoryId
  }

  /** A category has a positive product count exactly when some product is
      linked to it. */
  lemma {:induction false} ProductCountPositive(products: seq<Product>, categoryId: int)
    ensures ProductCount(products, categoryId) > 0 <==> HasProducts(products, categoryId)
  {
    if products != [] {
      var tail := products[1..];
      ProductCountPositive(tail, categoryId);
      if HasProducts(tail, categoryId) {
        var i :| 0 <= i < |tail| && tail[i].categoryId == categoryId;
        assert products[i + 1].categoryId == categoryId;
      }
      if HasProducts(products, categoryId) && products[0].categoryId != categoryId {
        var i :| 0 <= i < |products| && products[i].categoryId == categoryId;
        assert tail[i - 1] == products[i];
      }
    }
  }

  /** The count is the size of the category's bag of products. */
  lemma {:induction false} ProductCountAppend(a: seq<Product>, b: seq<Product>, categoryId: int)
    ensures ProductCount(a + b, categoryId) == ProductCount(a, categoryId) + ProductCount(b, categoryId)
  {
    if a != [] {
      assert (a + b)[0] == a[0] && (a + b)[1..] == a[1..] + b;
      ProductCountAppend(a[1..], b, categoryId);
    } else {
      assert a + b == b;
    }
  }

  /** Delete: the element at `k` leaves, everything else keeps its order. */
  function RemoveAt<T>(s: seq<T>, k: nat): (r: seq<T>)
    requires k < |s|
    ensures |r| == |s| - 1
    ensures forall i | 0 <= i < k :: r[i] == s[i]
    ensures forall i | k <= i < |r| :: r[i] == s[i + 1]
  {
    s[..k] + s[k + 1..]
  }

  // ---------------------------------------------------------------------
  // The schema's constraints

  /** Identity keys below the next identity value, and the unique name index,
      which the services keep unique up to case. */
  ghost predicate CategoriesValid(categories: seq<Category>, nextCategoryId: int) {
    && (forall i | 0 <= i < |categories| :: 1 <= categories[i].id < nextCategoryId)
    && (forall i, j | 0 <= i < j < |categories| ::
          categories[i].id != categories[j].id && ToLower(categories[i].name) != ToLower(categories[j].name))
  }

  ghost predicate ProductsValid(products: seq<Product>, nextProductId: int) {
    && (forall i | 0 <= i < |products| :: 1 <= products[i].id < nextProductId)
    && (forall i, j | 0 <= i < j < |products| :: products[i].id != products[j].id)
  }

  /** The product-to-category foreign key. */
  predicate ProductsReferenceCategories(products: seq<Product>, categories: seq<Category>) {
    forall i | 0 <= i < |products| :: FindCategory(categories, ById(products[i].categoryId)).Some?
  }

  class Catalog {
    var categories: seq<Category>
    var products: seq<Product>
    var nextCategoryId: int
    var nextProductId: int

    ghost predicate Valid()
      reads this
    {
      && nextCategoryId >= 1 && nextProductId >= 1
      && CategoriesValid(categories, nextCategoryId)
      && ProductsValid(products, nextProductId)
      && ProductsReferenceCategories(products, categories)
    }

    constructor ()
      ensures Valid() && categories == [] && products == []
    {
      categories := [];
      products := [];
      nextCategoryId := 1;
      nextProductId := 1;
    }

    /** Products.AddAsync and SaveChangesAsync; the identity column gives the id. */
    method AddProduct(name: string, description: Option<string>, price: real, stock: int,
                      imageUrl: Option<string>, categoryId: int, now: Time)
      returns (p: Product)
      requires Valid() && FindCategory(categories, ById(categoryId)).Some?
      modifies this
      ensures Valid()
      ensures p == Product(old(nextProductId), name, description, price, stock, imageUrl, now, None, categoryId)
      ensures products == old(products) + [p] && categories == old(categories)
      ensures nextCategoryId == old(nextCategoryId)
    {
      p := Product(nextProductId, name, description, price, stock, imageUrl, now, None, categoryId);
      products := products + [p];
      nextProductId := nextProductId + 1;
    }

    /** Products.Update and SaveChangesAsync on the k-th row. */
    method SetProduct(k: nat, p: Product)
      requires Valid() && k < |products| && p.id == products[k].id
      requires FindCategory(categories, ById(p.categoryId)).Some?
      modifies this
      ensures Valid()
      ensures products == old(products)[k := p] && categories == old(categories)
      ensures nextCategoryId == old(nextCategoryId) && nextProductId == old(nextProductId)
    {
      products := products[k := p];
    }

    /** Products.Delete and SaveChangesAsync on the k-th row. */
    method RemoveProduct(k: nat)
      requires Valid() && k < |products|
      modifies this
      ensures Valid()
      ensures products == RemoveAt(old(products), k) && categories == old(categories)
      ensures nextCategoryId == old(nextCategoryId) && nextProductId == old(nextProductId)
    {
      products := RemoveAt(products, k);
    }

    /** Categories.AddAsync and SaveChangesAsync. */
    method AddCategory(name: string, description: Option<string>, now: Time) returns (c: Category)
      requires Valid() && FindCategory(categories, ByName(ToLower(name))).None?
      modifies this
      ensures Valid()
      ensures c == Category(old(nextCategoryId), name, description, now, None)
      ensures categories == old(categories) + [c] && products == old(products)
      ensures nextProductId == old(nextProductId)
    {
      c := Category(nextCategoryId, name, description, now, None);
      ReferencesAfterAppend(products, categories, c);
      categories := categories + [c];
      nextCategoryId := nextCategoryId + 1;
    }

    /** Categories.Update and SaveChangesAsync on the k-th row. */
    method SetCategory(k: nat, c: Category)
      requires Valid() && k < |categories| && c.id == categories[k].id
      requires FindCategory(categories, ByNameExcept(ToLower(c.name), c.id)).None?
      modifies this
      ensures Valid()
      ensures categories == old(categories)[k := c] && products == old(products)
      ensures nextCategoryId == old(nextCategoryId) && nextProductId == old(nextProductId)
    {
      ReferencesAfterSet(products, categories, k, c);
      categories := categories[k := c];
    }

    /** Categories.Delete and SaveChangesAsync on the k-th row; the restricted
        foreign key refuses it while products are linked. */
    method RemoveCategory(k: nat)
      requires Valid() && k < |categories| && !HasProducts(products, categories[k].id)
      modifies this
      ensures Valid()
      ensures categories == RemoveAt(old(categories), k) && products == old(products)
      ensures nextCategoryId == old(nextCategoryId) && nextProductId == old(nextProductId)
    {
      ReferencesAfterRemove(products, categories, nextCategoryId, k);
      categories := RemoveAt(categories, k);
    }
  }

  // ---------------------------------------------------------------------
  // The foreign key survives the category changes the services make

  lemma ReferencesAfterAppend(products: seq<Product>, categories: seq<Category>, c: Category)
    requires ProductsReferenceCategories(products, categories)
    ensures ProductsReferenceCategories(products, categories + [c])
  {
    var all := categories + [c];
    forall i | 0 <= i < |products|
      ensures FindCategory(all, ById(products[i].categoryId)).Some?
    {
      var m := FindCategory(categories, ById(products[i].categoryId)).value;
      assert CategoryMatches(ById(products[i].categoryId), all[m]);
    }
  }

  lemma ReferencesAfterSet(products: seq<Product>, categories: seq<Category>, k: nat, c: Category)
    requires ProductsReferenceCategories(products, categories)
    requires k < |categories| && c.id == categories[k].id
    ensures ProductsReferenceCategories(products, categories[k := c])
  {
    var updated := categories[k := c];
    forall i | 0 <= i < |products|
      ensures FindCategory(updated, ById(products[i].categoryId)).Some?
    {
      var m := FindCategory(categories, ById(products[i].categoryId)).value;
      assert CategoryMatches(ById(products[i].categoryId), updated[m]);
    }
  }

  lemma ReferencesAfterRemove(products: seq<Product>, categories: seq<Category>, nextCategoryId: int, k: nat)
    requires ProductsReferenceCategories(products, categories) && CategoriesValid(categories, nextCategoryId)
    requires k < |categories| && !HasProducts(products, categories[k].id)
    ensures ProductsReferenceCategories(products, RemoveAt(categories, k))
  {
    var rest := RemoveAt(categories, k);
    forall i | 0 <= i < |products|
      ensures FindCategory(rest, ById(products[i].categoryId)).Some?
    {
      var m := FindCategory(categories, ById(products[i].categoryId)).value;
      assert m != k;
      var n := if m < k then m else m - 1;
      assert rest[n] == categories[m];
      assert CategoryMatches(ById(products[i].categoryId), rest[n]);
    }
  }

  /** No product is linked to an id the identity column has not handed out
      yet, so a category that has just been created has no products. */
  lemma FreshCategoryIsEmpty(products: seq<Product>, categories: seq<Category>, nextCategoryId: int)
    requires ProductsReferenceCategories(products, categories) && CategoriesValid(categories, nextCategoryId)
    ensures ProductCount(products, nextCategoryId) == 0
  {
    forall i | 0 <= i < |products|
      ensures products[i].categoryId != nextCategoryId
    {
      var m := FindCategory(categories, ById(products[i].categoryId)).value;
      assert categories[m].id < nextCategoryId;
    }
    ProductCountPositive(products, nextCategoryId);
  }
}
