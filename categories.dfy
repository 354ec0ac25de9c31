/** The category service: validation, case-insensitive name uniqueness,
    product counts, and deletion only while no product is linked. */
module CategoryService {
  import opened Common
  import opened Inventory

  /** CreateCategoryDto and UpdateCategoryDto, which carry the same fields. */
  datatype CategoryInput = CategoryInput(name: Option<string>, description: Option<string>)

  /** CategoryDto */
  datatype CategoryView = CategoryView(
    id: int,
    name: string,
    description: Option<string>,
    productCount: nat,
    createdAt: Time,
    updatedAt: Option<Time>)

  const ValidationFailed := "Validation failed"
  const NameRequired := "Category name is required"
  const NameTooLong := "Category name must not exceed 100 characters"
  const DescriptionTooLong := "Description must not exceed 500 characters"
  const CategoryNotFound := "Category not found"
  const DuplicateName := "Category with this name already exists"
  const DuplicateOtherName := "Another category with this name already exists"
  const HasLinkedProducts := "Cannot delete category with linked products"

  /** The input a category may be stored with. */
  predicate Acceptable(dto: CategoryInput) {
    && !IsNullOrWhiteSpace(dto.name) && |dto.name.value| <= 100
    && (IsNullOrEmpty(dto.description) || |dto.description.value| <= 500)
  }

  /** ValidateCreateCategory and ValidateUpdateCategory, which are the same. */
  function Validate(dto: CategoryInput): (errors: seq<string>)
    ensures errors == [] <==> Acceptable(dto)
    ensures NameRequired in errors <==> IsNullOrWhiteSpace(dto.name)
    ensures NameTooLong in errors <==> !IsNullOrWhiteSpace(dto.name) && |dto.name.value| > 100
    ensures DescriptionTooLong in errors <==> !IsNullOrEmpty(dto.description) && |dto.description.value| > 500
    ensures |errors| <= 2 && (|errors| == 2 ==> errors[1] == DescriptionTooLong)
  {
    (if IsNullOrWhiteSpace(dto.name) then [NameRequired]
     else if |dto.name.value| > 100 then [NameTooLong]
     else [])
    + (if !IsNullOrEmpty(dto.description) && |dto.description.value| > 500 then [DescriptionTooLong] else [])
  }

  function View(c: Category, productCount: nat): CategoryView {
    CategoryView(c.id, c.name, c.description, productCount, c.createdAt, c.updatedAt)
  }

  /** The category as Update leaves it. */
  function Renamed(c: Category, dto: CategoryInput, now: Time): (r: Category)
    requires dto.name.Some?
    ensures r.name == dto.name.value && r.description == dto.description && r.updatedAt == Some(now)
    ensures r.id == c.id && r.createdAt == c.createdAt
  {
    c.(name := dto.name.value, description := dto.description, updatedAt := Some(now))
  }

  /** CreateAsync. The reported product count is the literal 0, and that is
      the category's real count. */
  method Create(c: Catalog, dto: CategoryInput, now: Time) returns (r: Response<CategoryView>)
    requires c.Valid()
    modifies c
    ensures c.Valid()
    ensures Validate(dto) != [] ==> r == Response(false, ValidationFailed, Validate(dto), None) && unchanged(c)
    ensures Validate(dto) == [] ==>
      var duplicate := FindCategory(old(c.categories), ByName(ToLower(dto.name.value)));
      && (duplicate.Some? ==> r == Failure(DuplicateName) && unchanged(c))
      && (duplicate.None? ==>
            var category := Category(old(c.nextCategoryId), dto.name.value, dto.description, now, None);
            && c.categories == old(c.categories) + [category] && c.products == old(c.products)
            && r == Success("Category created successfully", View(category, 0))
            && ProductCount(c.products, category.id) == 0)
  {
    var errors := Validate(dto);
    if errors != [] {
      return Response(false, ValidationFailed, errors, None);
    }
    var name := dto.name.value;
    if FindCategory(c.categories, ByName(ToLower(name))).Some? {
      return Failure(DuplicateName);
    }
    FreshCategoryIsEmpty(c.products, c.categories, c.nextCategoryId);
    var category := c.AddCategory(name, dto.description, now);
    r := Success("Category created successfully", View(category, 0));
  }

  /** The `foreach` of GetAllAsync: every category, in table order, with the
      number of products linked to it. */
  method GetAll(c: Catalog) returns (r: Response<seq<CategoryView>>)
    ensures r.success && r.message == "Categories retrieved successfully" && r.errors == [] && r.data.Some?
    ensures |r.data.value| == |c.categories|
    ensures forall i | 0 <= i < |c.categories| ::
      r.data.value[i] == View(c.categories[i], ProductCount(c.products, c.categories[i].id))
  {
    var views: seq<CategoryView> := [];
    for i := 0 to |c.categories|
      invariant |views| == i
      invariant forall j | 0 <= j < i :: views[j] == View(c.categories[j], ProductCount(c.products, c.categories[j].id))
    {
      var category := c.categories[i];
      var productCount := ProductCount(c.products, category.id);
      views := views + [View(category, productCount)];
    }
    r := Success("Categories retrieved successfully", views);
  }

  /** GetByIdAsync */
  function GetById(categories: seq<Category>, products: seq<Product>, id: int): (r: Response<CategoryView>)
    ensures r.success <==> FindCategory(categories, ById(id)).Some?
    ensures !r.success ==> r == Failure(CategoryNotFound)
    ensures r.success ==>
      && r.message == "Category retrieved successfully" && r.data.Some?
      && r.data.value.id == id
      && r.data.value == View(categories[FindCategory(categories, ById(id)).value], ProductCount(products, id))
      && (r.data.value.productCount > 0 <==> HasProducts(products, id))
  {
    match FindCategory(categories, ById(id))
    case None => Failure(CategoryNotFound)
    case Some(k) =>
      ProductCountPositive(products, id);
      Success("Category retrieved successfully", View(categories[k], ProductCount(products, categories[k].id)))
  }

  /** UpdateAsync */
  method Update(c: Catalog, id: int, dto: CategoryInput, now: Time) returns (r: Response<CategoryView>)
    requires c.Valid()
    modifies c
    ensures c.Valid()
    ensures Validate(dto) != [] ==> r == Response(false, ValidationFailed, Validate(dto), None) && unchanged(c)
    ensures Validate(dto) == [] ==>
      var k := FindCategory(old(c.categories), ById(id));
      var clash := FindCategory(old(c.categories), ByNameExcept(ToLower(dto.name.value), id));
      && (k.None? ==> r == Failure(CategoryNotFound) && unchanged(c))
      && (k.Some? && clash.Some? ==> r == Failure(DuplicateOtherName) && unchanged(c))
      && (k.Some? && clash.None? ==>
            var category := Renamed(old(c.categories)[k.value], dto, now);
            && c.categories == old(c.categories)[k.value := category] && c.products == old(c.products)
            && category.id == id && category.createdAt == old(c.categories)[k.value].createdAt
            && r == Success("Category updated successfully", View(category, ProductCount(c.products, id))))
  {
    var errors := Validate(dto);
    if errors != [] {
      return Response(false, ValidationFailed, errors, None);
    }
    var k := FindCategory(c.categories, ById(id));
    if k.None? {
      return Failure(CategoryNotFound);
    }
    var name := dto.name.value;
    if FindCategory(c.categories, ByNameExcept(ToLower(name), id)).Some? {
      return Failure(DuplicateOtherName);
    }
    var category := Renamed(c.categories[k.value], dto, now);
    c.SetCategory(k.value, category);
    var productCount := ProductCount(c.products, category.id);
    r := Success("Category updated successfully", View(category, productCount));
  }

  /** DeleteAsync */
  method Delete(c: Catalog, id: int) returns (r: Response<bool>)
    requires c.Valid()
    modifies c
    ensures c.Valid()
    ensures var k := FindCategory(old(c.categories), ById(id));
      && (k.None? ==> r == Failure(CategoryNotFound) && unchanged(c))
      && (k.Some? && HasProducts(old(c.products), id) ==> r == Failure(HasLinkedProducts) && unchanged(c))
      && (k.Some? && !HasProducts(old(c.products), id) ==>
            && c.categories == RemoveAt(old(c.categories), k.value) && c.products == old(c.products)
            && FindCategory(c.categories, ById(id)).None?
            && r == Success("Category deleted successfully", true))
  {
    var k := FindCategory(c.categories, ById(id));
    if k.None? {
      return Failure(CategoryNotFound);
    }
    if HasProducts(c.products, id) {
      return Failure(HasLinkedProducts);
    }
    c.RemoveCategory(k.value);
    forall j | 0 <= j < |c.categories|
      ensures !CategoryMatches(ById(id), c.categories[j])
    {
      if j < k.value {
        assert c.categories[j] == old(c.categories)[j];
      } else {
        assert c.categories[j] == old(c.categories)[j + 1];
      }
    }
    r := Success("Category deleted successfully", true);
  }

  /** A category may be renamed to a case variant of its own name: the only
      category with that lower-cased name is itself. */
  lemma RenameToCaseVariantAllowed(categories: seq<Category>, nextCategoryId: int, k: nat, newName: string)
    requires CategoriesValid(categories, nextCategoryId) && k < |categories|
    requires ToLower(newName) == ToLower(categories[k].name)
    ensures FindCategory(categories, ByNameExcept(ToLower(newName), categories[k].id)).None?
  {
    var q := ByNameExcept(ToLower(newName), categories[k].id);
    forall j | 0 <= j < |categories|
      ensures !CategoryMatches(q, categories[j])
    {
      if j < k {
        assert ToLower(categories[j].name) != ToLower(categories[k].name);
      } else if j > k {
        assert ToLower(categories[k].name) != ToLower(categories[j].name);
      }
    }
  }

  /** A rename is refused exactly when another category already has the
      name up to case. */
  lemma RenameRefusedOnlyForOthers(categories: seq<Category>, id: int, newName: string)
    ensures FindCategory(categories, ByNameExcept(ToLower(newName), id)).Some? <==>
      exists j | 0 <= j < |categories| :: categories[j].id != id && ToLower(categories[j].name) == ToLower(newName)
  {
    var r := FindCategory(categories, ByNameExcept(ToLower(newName), id));
    if r.Some? {
      assert categories[r.value].id != id && ToLower(categories[r.value].name) == ToLower(newName);
    }
  }
}
