/** The product service: field validation, create, update and delete over
    the catalog, the lookup by id and the filtered, paginated listing. */
module ProductService {
  import opened Common
  import opened Inventory

  /** CreateProductDto and UpdateProductDto, which carry the same fields. */
  datatype ProductInput = ProductInput(
    name: Option<string>,
    description: Option<string>,
    price: real,
    stock: int,
    imageUrl: Option<string>,
    categoryId: int)

  /** ProductDto */
  datatype ProductView = ProductView(
    id: int,
    name: string,
    description: Option<string>,
    price: real,
    stock: int,
    imageUrl: Option<string>,
    categoryId: int,
    categoryName: string,
    createdAt: Time,
    updatedAt: Option<Time>)

  /** ProductQueryDto */
  datatype ProductQuery = ProductQuery(
    categoryId: Option<int>,
    minPrice: Option<real>,
    maxPrice: Option<real>,
    page: int,
    limit: int)

  /** A query string with no parameters: page 1 of 10. */
  const DefaultQuery := ProductQuery(None, None, None, 1, 10)

  /** PagedResultDto<ProductDto> */
  datatype PagedResult = PagedResult(
    data: seq<ProductView>,
    page: int,
    limit: int,
    totalCount: nat,
    totalPages: nat,
    hasNextPage: bool,
    hasPreviousPage: bool)

  const ValidationFailed := "Validation failed"
  const ProductNotFound := "Product not found"
  const CategoryNotFound := "Category not found"
  const UnknownCategory := "Unknown"

  // ---------------------------------------------------------------------
  // Validation (the create and the update rules are the same)

  /** The rules a product input can break, in the order they are checked. */
  datatype ProductError =
    | NameRequired
    | NameTooLong
    | DescriptionTooLong
    | PriceNotPositive
    | StockNegative
    | ImageUrlTooLong
    | CategoryIdInvalid

  function Message(e: ProductError): string {
    match e
    case NameRequired => "Product name is required"
    case NameTooLong => "Product name must not exceed 200 characters"
    case DescriptionTooLong => "Description must not exceed 1000 characters"
    case PriceNotPositive => "Price must be greater than 0"
    case StockNegative => "Stock cannot be negative"
    case ImageUrlTooLong => "Image URL must not exceed 500 characters"
    case CategoryIdInvalid => "Valid category ID is required"
  }

  /** The position of each rule in the itemized list. */
  function Rank(e: ProductError): int {
    match e
    case NameRequired => 0
    case NameTooLong => 1
    case DescriptionTooLong => 2
    case PriceNotPositive => 3
    case StockNegative => 4
    case ImageUrlTooLong => 5
    case CategoryIdInvalid => 6
  }

  /** The rules after the name rules, in checking order. */
  const OtherRules := [DescriptionTooLong, PriceNotPositive, StockNegative, ImageUrlTooLong, CategoryIdInvalid]

  /** When the input breaks each rule. The length rule on the name is the
      `else` branch of the blank-name rule. */
  predicate Broken(dto: ProductInput, e: ProductError) {
    match e
    case NameRequired => IsNullOrWhiteSpace(dto.name)
    case NameTooLong => !IsNullOrWhiteSpace(dto.name) && |dto.name.value| > 200
    case DescriptionTooLong => !IsNullOrEmpty(dto.description) && |dto.description.value| > 1000
    case PriceNotPositive => dto.price <= 0.0
    case StockNegative => dto.stock < 0
    case ImageUrlTooLong => !IsNullOrEmpty(dto.imageUrl) && |dto.imageUrl.value| > 500
    case CategoryIdInvalid => dto.categoryId <= 0
  }

  /** The input a product may be stored with. */
  predicate Acceptable(dto: ProductInput) {
    && !IsNullOrWhiteSpace(dto.name) && |dto.name.value| <= 200
    && (IsNullOrEmpty(dto.description) || |dto.description.value| <= 1000)
    && dto.price > 0.0
    && dto.stock >= 0
    && (IsNullOrEmpty(dto.imageUrl) || |dto.imageUrl.value| <= 500)
    && dto.categoryId > 0
  }

  /** The rules of `rules` the input breaks, in the order given. */
  function BrokenRules(dto: ProductInput, rules: seq<ProductError>): (r: seq<ProductError>)
    ensures |r| <= |rules|
    ensures forall e :: e in r <==> e in rules && Broken(dto, e)
    ensures (forall i, j | 0 <= i < j < |rules| :: Rank(rules[i]) < Rank(rules[j])) ==>
              forall i, j | 0 <= i < j < |r| :: Rank(r[i]) < Rank(r[j])
  {
    if rules == [] then []
    else
      var rest := BrokenRules(dto, rules[1..]);
      assert forall e | e in rest :: Rank(rules[0]) <= Rank(e) || !(forall i, j | 0 <= i < j < |rules| :: Rank(rules[i]) < Rank(rules[j]));
      (if Broken(dto, rules[0]) then [rules[0]] else []) + rest
  }

  /** The name rules: blank, or else too long. */
  function NameCheck(dto: ProductInput): (r: seq<ProductError>)
    ensures |r| <= 1 && forall e :: e in r <==> (e == NameRequired || e == NameTooLong) && Broken(dto, e)
  {
    if IsNullOrWhiteSpace(dto.name) then [NameRequired]
    else if |dto.name.value| > 200 then [NameTooLong]
    else []
  }

  /** The rules the input breaks, in checking order. */
  function Check(dto: ProductInput): (errors: seq<ProductError>)
    ensures forall e :: e in errors <==> Broken(dto, e)
    ensures forall i, j | 0 <= i < j < |errors| :: Rank(errors[i]) < Rank(errors[j])
    ensures |errors| <= 6
  {
    var name := NameCheck(dto);
    var others := BrokenRules(dto, OtherRules);
    assert forall e :: e in OtherRules <==> e != NameRequired && e != NameTooLong;
    assert forall e | e in others :: Rank(e) >= 2;
    name + others
  }

  /** An input passes exactly when it is acceptable. */
  lemma CheckPasses(dto: ProductInput)
    ensures Check(dto) == [] <==> Acceptable(dto)
  {
    var errors := Check(dto);
    if errors == [] {
      assert !Broken(dto, NameRequired) && !Broken(dto, NameTooLong) && !Broken(dto, DescriptionTooLong);
      assert !Broken(dto, PriceNotPositive) && !Broken(dto, StockNegative);
      assert !Broken(dto, ImageUrlTooLong) && !Broken(dto, CategoryIdInvalid);
    } else {
      assert errors[0] in errors;
    }
  }

  /** Validation fails exactly on the rules the source checks: a blank name,
      or else a name over 200 characters; a non-empty description over 1000;
      a price not above zero; a negative stock; a non-empty image URL over
      500; a category id not above zero. The two name errors never appear
      together. */
  lemma CheckRules(dto: ProductInput)
    ensures NameRequired in Check(dto) <==> IsNullOrWhiteSpace(dto.name)
    ensures NameTooLong in Check(dto) <==> !IsNullOrWhiteSpace(dto.name) && |dto.name.value| > 200
    ensures !(NameRequired in Check(dto) && NameTooLong in Check(dto))
    ensures DescriptionTooLong in Check(dto) <==> !IsNullOrEmpty(dto.description) && |dto.description.value| > 1000
    ensures PriceNotPositive in Check(dto) <==> dto.price <= 0.0
    ensures StockNegative in Check(dto) <==> dto.stock < 0
    ensures ImageUrlTooLong in Check(dto) <==> !IsNullOrEmpty(dto.imageUrl) && |dto.imageUrl.value| > 500
    ensures CategoryIdInvalid in Check(dto) <==> dto.categoryId <= 0
  {
    assert Broken(dto, NameRequired) <==> IsNullOrWhiteSpace(dto.name);
  }

  function Messages(errors: seq<ProductError>): (r: seq<string>)
    ensures |r| == |errors| && forall i | 0 <= i < |errors| :: r[i] == Message(errors[i])
  {
    if errors == [] then [] else [Message(errors[0])] + Messages(errors[1..])
  }

  /** ValidateCreateProduct and ValidateUpdateProduct: the messages of the
      broken rules. */
  function Validate(dto: ProductInput): (errors: seq<string>)
    ensures errors == [] <==> Acceptable(dto)
    ensures |errors| == |Check(dto)| && forall i | 0 <= i < |errors| :: errors[i] == Message(Check(dto)[i])
  {
    CheckPasses(dto);
    Messages(Check(dto))
  }

  // ---------------------------------------------------------------------
  // Views

  /** `category?.Name ?? "Unknown"` */
  function CategoryName(categories: seq<Category>, categoryId: int): string {
    match FindCategory(categories, ById(categoryId))
    case None => UnknownCategory
    case Some(k) => categories[k].name
  }

  function ToView(p: Product, categoryName: string): ProductView {
    ProductView(p.id, p.name, p.description, p.price, p.stock, p.imageUrl, p.categoryId, categoryName, p.createdAt, p.updatedAt)
  }

  /** The product as Update leaves it: the input's fields and a new UpdatedAt. */
  function Revised(p: Product, dto: ProductInput, now: Time): (r: Product)
    requires dto.name.Some?
    ensures r.name == dto.name.value && r.description == dto.description && r.price == dto.price
    ensures r.stock == dto.stock && r.imageUrl == dto.imageUrl && r.categoryId == dto.categoryId
    ensures r.updatedAt == Some(now)
    ensures r.id == p.id && r.createdAt == p.createdAt
  {
    p.(name := dto.name.value, description := dto.description, price := dto.price, stock := dto.stock,
       imageUrl := dto.imageUrl, categoryId := dto.categoryId, updatedAt := Some(now))
  }

  // ---------------------------------------------------------------------
  // CRUD

  /** CreateAsync */
  method Create(c: Catalog, dto: ProductInput, now: Time) returns (r: Response<ProductView>)
    requires c.Valid()
    modifies c
    ensures c.Valid()
    ensures Validate(dto) != [] ==> r == Response(false, ValidationFailed, Validate(dto), None) && unchanged(c)
    ensures Validate(dto) == [] ==>
      var k := FindCategory(old(c.categories), ById(dto.categoryId));
      && (k.None? ==> r == Failure(CategoryNotFound) && unchanged(c))
      && (k.Some? ==>
            var p := Product(old(c.nextProductId), dto.name.value, dto.description, dto.price, dto.stock,
                             dto.imageUrl, now, None, dto.categoryId);
            && c.products == old(c.products) + [p] && c.categories == old(c.categories)
            && ProductCount(c.products, dto.categoryId) == ProductCount(old(c.products), dto.categoryId) + 1
            && r == Success("Product created successfully", ToView(p, old(c.categories)[k.value].name)))
  {
    var errors := Validate(dto);
    if errors != [] {
      return Response(false, ValidationFailed, errors, None);
    }
    var k := FindCategory(c.categories, ById(dto.categoryId));
    if k.None? {
      return Failure(CategoryNotFound);
    }
    var category := c.categories[k.value];
    var p := c.AddProduct(dto.name.value, dto.description, dto.price, dto.stock, dto.imageUrl, dto.categoryId, now);
    ProductCountAppend(old(c.products), [p], dto.categoryId);
    r := Success("Product created successfully", ToView(p, category.name));
  }

  /** GetByIdAsync */
  function GetById(products: seq<Product>, categories: seq<Category>, id: int): (r: Response<ProductView>)
    ensures r.success <==> FindProduct(products, id).Some?
    ensures !r.success ==> r == Failure(ProductNotFound)
    ensures r.success ==>
      var p := products[FindProduct(products, id).value];
      && r.message == "Product retrieved successfully" && r.data.Some? && r.data.value.id == id
      && r.data.value == ToView(p, CategoryName(categories, p.categoryId))
  {
    match FindProduct(products, id)
    case None => Failure(ProductNotFound)
    case Some(k) =>
      Success("Product retrieved successfully", ToView(products[k], CategoryName(categories, products[k].categoryId)))
  }

  /** UpdateAsync */
  method Update(c: Catalog, id: int, dto: ProductInput, now: Time) returns (r: Response<ProductView>)
    requires c.Valid()
    modifies c
    ensures c.Valid()
    ensures Validate(dto) != [] ==> r == Response(false, ValidationFailed, Validate(dto), None) && unchanged(c)
    ensures Validate(dto) == [] ==>
      var k := FindProduct(old(c.products), id);
      var m := FindCategory(old(c.categories), ById(dto.categoryId));
      && (k.None? ==> r == Failure(ProductNotFound) && unchanged(c))
      && (k.Some? && m.None? ==> r == Failure(CategoryNotFound) && unchanged(c))
      && (k.Some? && m.Some? ==>
            var p := Revised(old(c.products)[k.value], dto, now);
            && c.products == old(c.products)[k.value := p] && c.categories == old(c.categories)
            && p.id == id && p.createdAt == old(c.products)[k.value].createdAt
            && r == Success("Product updated successfully", ToView(p, old(c.categories)[m.value].name)))
  {
    var errors := Validate(dto);
    if errors != [] {
      return Response(false, ValidationFailed, errors, None);
    }
    var k := FindProduct(c.products, id);
    if k.None? {
      return Failure(ProductNotFound);
    }
    var m := FindCategory(c.categories, ById(dto.categoryId));
    if m.None? {
      return Failure(CategoryNotFound);
    }
    var p := Revised(c.products[k.value], dto, now);
    var category := c.categories[m.value];
    c.SetProduct(k.value, p);
    r := Success("Product updated successfully", ToView(p, category.name));
  }

  /** DeleteAsync */
  method Delete(c: Catalog, id: int) returns (r: Response<bool>)
    requires c.Valid()
    modifies c
    ensures c.Valid()
    ensures var k := FindProduct(old(c.products), id);
      && (k.None? ==> r == Failure(ProductNotFound) && unchanged(c))
      && (k.Some? ==>
            && c.products == RemoveAt(old(c.products), k.value) && c.categories == old(c.categories)
            && FindProduct(c.products, id).None?
            && r == Success("Product deleted successfully", true))
  {
    var k := FindProduct(c.products, id);
    if k.None? {
      return Failure(ProductNotFound);
    }
    c.RemoveProduct(k.value);
    forall j | 0 <= j < |c.products|
      ensures c.products[j].id != id
    {
      if j < k.value {
        assert c.products[j] == old(c.products)[j];
      } else {
        assert c.products[j] == old(c.products)[j + 1];
      }
    }
    r := Success("Product deleted successfully", true);
  }

  // ---------------------------------------------------------------------
  // Filtering: one Where per filter the query carries

  datatype Filter = CategoryIs(categoryId: int) | PriceAtLeast(min: real) | PriceAtMost(max: real)

  predicate Keeps(f: Filter, p: Product) {
    match f
    case CategoryIs(id) => p.categoryId == id
    case PriceAtLeast(min) => p.price >= min
    case PriceAtMost(max) => p.price <= max
  }

  /** `query.Where(...)`: the products the filter keeps, in order. */
  function Where(products: seq<Product>, f: Filter): (r: seq<Product>)
    ensures |r| <= |products|
  {
    if products == [] then []
    else (if Keeps(f, products[0]) then [products[0]] else []) + Where(products[1..], f)
  }

  /** The filters GetAllAsync adds: category, then minimum price, then
      maximum price, each only when the query has a value for it. */
  function FiltersOf(q: ProductQuery): seq<Filter> {
    (if q.categoryId.Some? then [CategoryIs(q.categoryId.value)] else [])
    + (if q.minPrice.Some? then [PriceAtLeast(q.minPrice.value)] else [])
    + (if q.maxPrice.Some? then [PriceAtMost(q.maxPrice.value)] else [])
  }

  function WhereAll(products: seq<Product>, filters: seq<Filter>): seq<Product>
    decreases |filters|
  {
    if filters == [] then products else WhereAll(Where(products, filters[0]), filters[1..])
  }

  /** The filtered query of GetAllAsync. */
  function Query(products: seq<Product>, q: ProductQuery): seq<Product> {
    WhereAll(products, FiltersOf(q))
  }

  /** What the listing promises of each product it keeps. */
  predicate Matches(q: ProductQuery, p: Product) {
    && (q.categoryId.Some? ==> p.categoryId == q.categoryId.value)
    && (q.minPrice.Some? ==> p.price >= q.minPrice.value)
    && (q.maxPrice.Some? ==> p.price <= q.maxPrice.value)
  }

  /** Reference definition: one pass over the table keeping what matches. */
  function Filtered(products: seq<Product>, q: ProductQuery): (r: seq<Product>)
    ensures |r| <= |products|
    ensures forall p | p in r :: Matches(q, p) && p in products
    ensures forall i | 0 <= i < |products| && Matches(q, products[i]) :: products[i] in r
  {
    if products == [] then []
    else (if Matches(q, products[0]) then [products[0]] else []) + Filtered(products[1..], q)
  }

  /** Filtering keeps store order: it commutes with concatenation. */
  lemma {:induction false} FilteredAppend(a: seq<Product>, b: seq<Product>, q: ProductQuery)
    ensures Filtered(a + b, q) == Filtered(a, q) + Filtered(b, q)
  {
    if a == [] {
      assert a + b == b;
    } else {
      assert (a + b)[0] == a[0] && (a + b)[1..] == a[1..] + b;
      FilteredAppend(a[1..], b, q);
    }
  }

  predicate KeepsAll(filters: seq<Filter>, p: Product) {
    forall i | 0 <= i < |filters| :: Keeps(filters[i], p)
  }

  /** The products every filter keeps, in one pass. */
  function Select(products: seq<Product>, filters: seq<Filter>): seq<Product> {
    if products == [] then []
    else (if KeepsAll(filters, products[0]) then [products[0]] else []) + Select(products[1..], filters)
  }

  lemma KeepsAllCons(f: Filter, rest: seq<Filter>, p: Product)
    ensures KeepsAll([f] + rest, p) <==> Keeps(f, p) && KeepsAll(rest, p)
  {
    var fs := [f] + rest;
    if Keeps(f, p) && KeepsAll(rest, p) {
      forall i | 0 <= i < |fs| ensures Keeps(fs[i], p) {
        if i > 0 { assert fs[i] == rest[i - 1]; }
      }
    }
    if KeepsAll(fs, p) {
      assert fs[0] == f;
      forall i | 0 <= i < |rest| ensures Keeps(rest[i], p) {
        assert rest[i] == fs[i + 1];
      }
    }
  }

  lemma {:induction false} SelectAfterWhere(products: seq<Product>, f: Filter, rest: seq<Filter>)
    ensures Select(Where(products, f), rest) == Select(products, [f] + rest)
  {
    if products != [] {
      var p := products[0];
      var tail := Where(products[1..], f);
      SelectAfterWhere(products[1..], f, rest);
      KeepsAllCons(f, rest, p);
      if Keeps(f, p) {
        var w := [p] + tail;
        assert Where(products, f) == w;
        assert w[0] == p && w[1..] == tail;
      } else {
        assert Where(products, f) == tail;
      }
    }
  }

  lemma {:induction false} WhereAllSelects(products: seq<Product>, filters: seq<Filter>)
    ensures WhereAll(products, filters) == Select(products, filters)
    decreases |filters|
  {
    if filters == [] {
      SelectNothing(products);
    } else {
      WhereAllSelects(Where(products, filters[0]), filters[1..]);
      SelectAfterWhere(products, filters[0], filters[1..]);
      assert [filters[0]] + filters[1..] == filters;
    }
  }

  lemma {:induction false} SelectNothing(products: seq<Product>)
    ensures Select(products, []) == products
  {
    if products != [] {
      SelectNothing(products[1..]);
    }
  }

  lemma MatchesIsKeepsAll(q: ProductQuery, p: Product)
    ensures Matches(q, p) <==> KeepsAll(FiltersOf(q), p)
  {
    var c := if q.categoryId.Some? then [CategoryIs(q.categoryId.value)] else [];
    var lo := if q.minPrice.Some? then [PriceAtLeast(q.minPrice.value)] else [];
    var hi := if q.maxPrice.Some? then [PriceAtMost(q.maxPrice.value)] else [];
    var fs := c + lo + hi;
    assert FiltersOf(q) == fs;
    if KeepsAll(fs, p) {
      if q.categoryId.Some? { assert fs[0] == CategoryIs(q.categoryId.value); }
      if q.minPrice.Some? { assert fs[|c|] == PriceAtLeast(q.minPrice.value); }
      if q.maxPrice.Some? { assert fs[|c| + |lo|] == PriceAtMost(q.maxPrice.value); }
    }
    if Matches(q, p) {
      forall i | 0 <= i < |fs| ensures Keeps(fs[i], p) {
        if i < |c| { assert fs[i] == c[i]; }
        else if i < |c| + |lo| { assert fs[i] == lo[i - |c|]; }
        else { assert fs[i] == hi[i - |c| - |lo|]; }
      }
    }
  }

  lemma {:induction false} SelectIsFiltered(products: seq<Product>, q: ProductQuery)
    ensures Select(products, FiltersOf(q)) == Filtered(products, q)
  {
    if products != [] {
      MatchesIsKeepsAll(q, products[0]);
      SelectIsFiltered(products[1..], q);
    }
  }

  /** The chain of Where calls GetAllAsync builds keeps exactly the products
      the query matches, in store order. */
  lemma QueryIsFiltered(products: seq<Product>, q: ProductQuery)
    ensures Query(products, q) == Filtered(products, q)
  {
    WhereAllSelects(products, FiltersOf(q));
    SelectIsFiltered(products, q);
  }

  // ---------------------------------------------------------------------
  // Paging

  function Min(a: int, b: int): int { if a <= b then a else b }

  /** Enumerable.Skip: a count at or below zero skips nothing. */
  function Skip<T>(s: seq<T>, n: int): (r: seq<T>)
    ensures |r| == |s| - Min(if n < 0 then 0 else n, |s|)
  {
    if n <= 0 then s else if n >= |s| then [] else s[n..]
  }

  /** Enumerable.Take: a count at or below zero takes nothing. */
  function Take<T>(s: seq<T>, n: int): (r: seq<T>)
    ensures |r| == Min(if n < 0 then 0 else n, |s|)
  {
    if n <= 0 then [] else if n >= |s| then s else s[..n]
  }

  function PageOf<T>(s: seq<T>, page: int, limit: int): seq<T> {
    Take(Skip(s, (page - 1) * limit), limit)
  }

  /** `(int)Math.Ceiling((double)count / limit)` on whole numbers. */
  function CeilDiv(n: nat, d: nat): nat
    requires d > 0
  {
    (n + d - 1) / d
  }

  /** The page count is the least number of pages of `d` that hold `n`. */
  lemma CeilDivBounds(n: nat, d: nat)
    requires d > 0
    ensures n <= CeilDiv(n, d) * d < n + d
  {
    var c := CeilDiv(n, d);
    var m := (n + d - 1) % d;
    assert n + d - 1 == c * d + m;
  }

  lemma MulMonotonic(a: int, b: int, d: int)
    requires a <= b && d >= 0
    ensures a * d <= b * d
  {
    assert b * d - a * d == (b - a) * d;
  }

  /** Page `k + 1` exists exactly when the first `k` pages do not hold every
      item. */
  lemma BeforeLastPage(k: nat, n: nat, d: nat)
    requires d > 0
    ensures k < CeilDiv(n, d) <==> k * d < n
  {
    var c := CeilDiv(n, d);
    CeilDivBounds(n, d);
    if k < c {
      MulMonotonic(k, c - 1, d);
      assert (c - 1) * d == c * d - d;
    } else {
      MulMonotonic(c, k, d);
    }
  }

  /** A page is the slice of the filtered sequence that starts after the
      earlier pages and holds at most `limit` items. */
  lemma PageSlice<T>(s: seq<T>, page: int, limit: int)
    requires page >= 1 && limit >= 1
    ensures 0 <= (page - 1) * limit
    ensures PageOf(s, page, limit) == s[Min((page - 1) * limit, |s|)..Min(page * limit, |s|)]
    ensures |PageOf(s, page, limit)| <= limit
  {
    MulMonotonic(0, page - 1, limit);
    assert page * limit == (page - 1) * limit + limit;
  }

  /** A page has items exactly when its number is at most the page count. */
  lemma PageNonEmpty<T>(s: seq<T>, page: int, limit: int)
    requires page >= 1 && limit >= 1
    ensures |PageOf(s, page, limit)| > 0 <==> page <= CeilDiv(|s|, limit)
  {
    PageSlice(s, page, limit);
    BeforeLastPage(page - 1, |s|, limit);
  }

  /** HasNextPage: another page follows exactly when this page and the ones
      before it leave items over. A page number below 1 is read like the first
      page's predecessors: every item is still to come. */
  lemma HasNextPageMeansMore(page: int, limit: int, count: nat)
    requires limit >= 1
    ensures page < CeilDiv(count, limit) <==> page * limit < count
  {
    if page >= 0 {
      BeforeLastPage(page, count, limit);
    } else {
      MulMonotonic(page, -1, limit);
    }
  }

  /** Pages 1 to k, one after another. */
  function Pages<T>(s: seq<T>, limit: int, k: nat): seq<T>
    requires limit >= 1
  {
    if k == 0 then [] else Pages(s, limit, k - 1) + PageOf(s, k, limit)
  }

  lemma {:induction false} PagesPrefix<T>(s: seq<T>, limit: int, k: nat)
    requires limit >= 1
    ensures 0 <= k * limit
    ensures Pages(s, limit, k) == s[..Min(k * limit, |s|)]
  {
    MulMonotonic(0, k, limit);
    if k > 0 {
      PagesPrefix(s, limit, k - 1);
      PageSlice(s, k, limit);
      var a := Min((k - 1) * limit, |s|);
      var b := Min(k * limit, |s|);
      MulMonotonic(k - 1, k, limit);
      assert s[..a] + s[a..b] == s[..b];
    }
  }

  /** Reading every page from 1 to TotalPages gives back the whole filtered
      sequence, each item once and in order. */
  lemma PagesCoverAll<T>(s: seq<T>, limit: int)
    requires limit >= 1
    ensures Pages(s, limit, CeilDiv(|s|, limit)) == s
  {
    PagesPrefix(s, limit, CeilDiv(|s|, limit));
    CeilDivBounds(|s|, limit);
  }

  // ---------------------------------------------------------------------
  // The listing

  /** What the listing promises of each item it returns. */
  predicate ViewMatches(q: ProductQuery, v: ProductView) {
    && (q.categoryId.Some? ==> v.categoryId == q.categoryId.value)
    && (q.minPrice.Some? ==> v.price >= q.minPrice.value)
    && (q.maxPrice.Some? ==> v.price <= q.maxPrice.value)
  }

  /** Every item on a page comes from the paged sequence, whatever the page
      number and the limit. */
  lemma PageElements<T>(s: seq<T>, page: int, limit: int)
    ensures forall i | 0 <= i < |PageOf(s, page, limit)| :: PageOf(s, page, limit)[i] in s
  {
    var n := (page - 1) * limit;
    var skipped := Skip(s, n);
    var items := Take(skipped, limit);
    forall i | 0 <= i < |items|
      ensures items[i] in s
    {
      assert items[i] == skipped[i];
      if 0 < n < |s| {
        assert skipped[i] == s[n + i];
      }
    }
  }

  /** Every item on a page of the filtered sequence matches the query. */
  lemma PageMatches(products: seq<Product>, q: ProductQuery)
    ensures var items := PageOf(Filtered(products, q), q.page, q.limit);
      forall i | 0 <= i < |items| :: Matches(q, items[i])
  {
    PageElements(Filtered(products, q), q.page, q.limit);
  }

  /** The `foreach` of GetAllAsync: one ProductDto per product of the page,
      with its category's name looked up. */
  method ToViews(items: seq<Product>, categories: seq<Category>) returns (views: seq<ProductView>)
    ensures |views| == |items|
    ensures forall i | 0 <= i < |items| :: views[i] == ToView(items[i], CategoryName(categories, items[i].categoryId))
  {
    views := [];
    for i := 0 to |items|
      invariant |views| == i
      invariant forall j | 0 <= j < i :: views[j] == ToView(items[j], CategoryName(categories, items[j].categoryId))
    {
      views := views + [ToView(items[i], CategoryName(categories, items[i].categoryId))];
    }
  }

  /** GetAllAsync. A page number below 1 skips nothing; a limit below 1 makes
      the page count a floating-point division by zero or below, which is not
      modelled. */
  method GetAll(c: Catalog, q: ProductQuery) returns (r: Response<PagedResult>)
    requires q.limit >= 1
    ensures r.success && r.message == "Products retrieved successfully" && r.errors == [] && r.data.Some?
    ensures var filtered := Filtered(c.products, q);
      var items := PageOf(filtered, q.page, q.limit);
      var result := r.data.value;
      && result.page == q.page && result.limit == q.limit
      && result.totalCount == |filtered|
      && result.totalPages == CeilDiv(|filtered|, q.limit)
      && |result.data| == |items| <= q.limit
      && (forall i | 0 <= i < |items| :: result.data[i] == ToView(items[i], CategoryName(c.categories, items[i].categoryId)))
      && (forall i | 0 <= i < |result.data| :: ViewMatches(q, result.data[i]))
      && (result.hasNextPage <==> q.page * q.limit < |filtered|)
      && (result.hasPreviousPage <==> q.page > 1)
  {
    var filtered := Query(c.products, q);
    QueryIsFiltered(c.products, q);
    var totalCount := |filtered|;
    var totalPages := CeilDiv(totalCount, q.limit);
    var items := PageOf(filtered, q.page, q.limit);
    PageMatches(c.products, q);
    var views := ToViews(items, c.categories);
    HasNextPageMeansMore(q.page, q.limit, totalCount);
    var result := PagedResult(views, q.page, q.limit, totalCount, totalPages, q.page < totalPages, q.page > 1);
    r := Success("Products retrieved successfully", result);
  }
}
