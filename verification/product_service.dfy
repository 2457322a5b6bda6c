/** The product service (services/ProductService.js): the required-field
    check and defaults of `createProduct`, the not-found errors of the
    lookups, and the truthiness-keyed filter chain of `getAllProducts`.
    Thrown errors are `Err` results carrying the error message. */
module ProductService {
  import opened Wrappers
  import Text
  import Seqs
  import opened ProductModel
  import opened ProductStore

  /** The request body of `createProduct`; `None` is `undefined` or `null`. */
  datatype ProductData = ProductData(
    title: Option<string>,
    description: Option<string>,
    price: Option<real>,
    mrp: Option<real>,
    rating: Option<real>,
    stock: Option<int>,
    currency: Option<string>,
    category: Option<string>,
    brand: Option<string>,
    metadata: Option<Metadata>,
    salesCount: Option<int>,
    returnRate: Option<real>,
    complaintCount: Option<int>)

  /** The required fields, in the order they are checked. */
  const RequiredFields: seq<string> := ["title", "description", "price", "mrp", "rating", "stock"]

  /** Whether the required field `RequiredFields[i]` is present. */
  predicate Present(data: ProductData, i: nat)
    requires i < |RequiredFields|
  {
    match i
    case 0 => data.title.Some?
    case 1 => data.description.Some?
    case 2 => data.price.Some?
    case 3 => data.mrp.Some?
    case 4 => data.rating.Some?
    case _ => data.stock.Some?
  }

  /** The index of the first missing required field, or `|RequiredFields|`. */
  function FirstMissing(data: ProductData, from: nat): (i: nat)
    requires from <= |RequiredFields|
    ensures from <= i <= |RequiredFields|
    ensures forall k :: from <= k < i ==> Present(data, k)
    ensures i < |RequiredFields| ==> !Present(data, i)
    decreases |RequiredFields| - from
  {
    if from == |RequiredFields| then from
    else if !Present(data, from) then from
    else FirstMissing(data, from + 1)
  }

  /** `value || fallback` on a string: `undefined`, `null` and `""` are falsy. */
  function OrString(v: Option<string>, fallback: string): (r: string)
    ensures v.Some? && v.value != "" ==> r == v.value
    ensures v.None? || v.value == "" ==> r == fallback
  {
    if v.Some? && v.value != "" then v.value else fallback
  }

  /** The constructor argument `createProduct` builds once every required
      field is present. The numeric `|| 0` defaults coincide with taking 0
      for a missing value, since 0 is the only falsy number modelled. */
  function InitOf(data: ProductData): ProductInit
    requires data.title.Some? && data.description.Some? && data.price.Some? && data.mrp.Some?
    requires data.rating.Some? && data.stock.Some?
  {
    ProductInit(
      title := data.title.value,
      description := data.description.value,
      price := data.price.value,
      mrp := data.mrp.value,
      rating := data.rating,
      stock := data.stock,
      currency := Some(OrString(data.currency, DefaultCurrency)),
      productId := None,
      metadata := Some(data.metadata.GetOr(map[])),
      category := Some(OrString(data.category, DefaultCategory)),
      brand := Some(OrString(data.brand, DefaultBrand)),
      salesCount := Some(data.salesCount.GetOr(0)),
      returnRate := Some(data.returnRate.GetOr(0.0)),
      complaintCount := Some(data.complaintCount.GetOr(0)))
  }

  /** `createProduct(productData)` at time `now`: the store after the
      product is added and the id it got, or the missing-field error. */
  function CreateProduct(s: Store, data: ProductData, now: int): (r: Result<(Store, int)>)
    requires Valid(s)
    ensures r.Err? <==> exists i :: 0 <= i < |RequiredFields| && !Present(data, i)
    ensures r.Err? ==> exists i :: 0 <= i < |RequiredFields| && !Present(data, i)
                         && (forall k :: 0 <= k < i ==> Present(data, k))
                         && r.message == "Missing required field: " + RequiredFields[i]
    ensures r.Ok? ==> var (s', id) := r.value;
                      && Valid(s') && id == s.idCounter + 1 && id !in s.products
                      && GetProductById(s', id).Some?
                      && var p := GetProductById(s', id).value;
                         && p.productId == Some(id)
                         && data.title == Some(p.title) && data.description == Some(p.description)
                         && data.price == Some(p.price) && data.mrp == Some(p.mrp)
                         && data.stock == Some(p.stock)
                         && data.rating.Some? && p.rating == ClampRating(data.rating.value)
                         && p.currency == OrString(data.currency, DefaultCurrency)
                         && p.category == OrString(data.category, DefaultCategory)
                         && p.brand == OrString(data.brand, DefaultBrand)
                         && p.metadata == data.metadata.GetOr(map[])
                         && p.salesCount == data.salesCount.GetOr(0)
                         && p.complaintCount == data.complaintCount.GetOr(0)
                         && p.returnRate == data.returnRate.GetOr(0.0)
                         && 0.0 <= p.rating <= 5.0
                         && p.createdAt == now
    ensures r.Ok? ==> forall other :: other != r.value.1 ==>
                        GetProductById(r.value.0, other) == GetProductById(s, other)
  {
    var i := FirstMissing(data, 0);
    if i < |RequiredFields| then Err("Missing required field: " + RequiredFields[i])
    else
      assert forall k :: 0 <= k < |RequiredFields| ==> Present(data, k);
      assert Present(data, 0) && Present(data, 1) && Present(data, 2);
      assert Present(data, 3) && Present(data, 4) && Present(data, 5);
      Ok(AddProduct(s, NewProduct(InitOf(data), now)))
  }

  /** The message of a failed lookup. */
  function NotFound(id: int): string {
    "Product with ID " + Text.IntToString(id) + " not found"
  }

  /** `getProduct(id)`: the product's JSON form, or the not-found error. */
  function GetProduct(s: Store, id: int): (r: Result<ProductJson>)
    ensures r.Err? <==> id !in s.products
    ensures r.Err? ==> r.message == NotFound(id)
    ensures r.Ok? ==> r.value == ToJson(s.products[id])
  {
    match GetProductById(s, id)
    case None => Err(NotFound(id))
    case Some(p) => Ok(ToJson(p))
  }

  /** `updateProductMetadata(id, metadata)` at time `now`. */
  function UpdateProductMetadataChecked(s: Store, id: int, metadata: Metadata, now: int)
    : (r: Result<(Store, ProductJson)>)
    requires Valid(s)
    ensures r.Err? <==> id !in s.products
    ensures r.Err? ==> r.message == NotFound(id)
    ensures r.Ok? ==> && Valid(r.value.0)
                      && r.value.1 == ToJson(UpdateMetadata(s.products[id], metadata, now))
                      && GetProductById(r.value.0, id) == Some(UpdateMetadata(s.products[id], metadata, now))
  {
    var (s', updated) := UpdateProductMetadata(s, id, metadata, now);
    match updated
    case None => Err(NotFound(id))
    case Some(p) => Ok((s', ToJson(p)))
  }

  /** The `filters` object of `getAllProducts`; `None` is an absent key. */
  datatype Filters = Filters(
    category: Option<string>,
    brand: Option<string>,
    minPrice: Option<real>,
    maxPrice: Option<real>,
    minRating: Option<real>,
    inStockOnly: bool)

  /** A filter is applied only when its value is truthy. */
  predicate TruthyString(v: Option<string>) {
    v.Some? && v.value != ""
  }

  predicate TruthyNumber(v: Option<real>) {
    v.Some? && v.value != 0.0
  }

  /** Whether `p` passes every active filter. */
  predicate PassesFilters(p: Product, f: Filters) {
    && (TruthyString(f.category) ==> p.category == f.category.value)
    && (TruthyString(f.brand) ==> p.brand == f.brand.value)
    && (TruthyNumber(f.minPrice) ==> p.price >= f.minPrice.value)
    && (TruthyNumber(f.maxPrice) ==> p.price <= f.maxPrice.value)
    && (TruthyNumber(f.minRating) ==> p.rating >= f.minRating.value)
    && (f.inStockOnly ==> IsInStock(p))
  }

  /** Filters `products` by `keep` when `active`, else returns it unchanged. */
  function FilterIf(products: seq<Product>, active: bool, keep: Product -> bool): (r: seq<Product>)
    ensures Seqs.IsSubsequence(r, products)
    ensures forall i :: 0 <= i < |r| ==> active ==> keep(r[i])
    ensures forall p :: p in products && (active ==> keep(p)) ==> p in r
  {
    if active then Seqs.Filter(products, keep)
    else
      Seqs.SubsequenceRefl(products);
      products
  }

  /** `getAllProducts(filters)`: the store's products, filtered in turn by
      category, brand, minimum price, maximum price, minimum rating and stock. */
  function GetAllProducts(s: Store, f: Filters): (r: seq<Product>)
    requires Valid(s)
    ensures Seqs.IsSubsequence(r, ProductStore.GetAllProducts(s))
    ensures forall i :: 0 <= i < |r| ==> PassesFilters(r[i], f)
    ensures forall p :: p in ProductStore.GetAllProducts(s) && PassesFilters(p, f) ==> p in r
  {
    ApplyFilters(ProductStore.GetAllProducts(s), f)
  }

  /** The category, brand and minimum-price filters. */
  predicate PassesFirst(p: Product, f: Filters) {
    && (TruthyString(f.category) ==> p.category == f.category.value)
    && (TruthyString(f.brand) ==> p.brand == f.brand.value)
    && (TruthyNumber(f.minPrice) ==> p.price >= f.minPrice.value)
  }

  /** The maximum-price, minimum-rating and stock filters. */
  predicate PassesRest(p: Product, f: Filters) {
    && (TruthyNumber(f.maxPrice) ==> p.price <= f.maxPrice.value)
    && (TruthyNumber(f.minRating) ==> p.rating >= f.minRating.value)
    && (f.inStockOnly ==> IsInStock(p))
  }

  function ApplyFilters(all: seq<Product>, f: Filters): (r: seq<Product>)
    ensures Seqs.IsSubsequence(r, all)
    ensures forall i :: 0 <= i < |r| ==> PassesFilters(r[i], f)
    ensures forall p :: p in all && PassesFilters(p, f) ==> p in r
  {
    var first := FirstFilters(all, f);
    var r := RestFilters(first, f);
    Seqs.SubsequenceTrans(r, first, all);
    Seqs.SubsequenceMembers(r, first);
    r
  }

  function FirstFilters(all: seq<Product>, f: Filters): (r: seq<Product>)
    ensures Seqs.IsSubsequence(r, all)
    ensures forall i :: 0 <= i < |r| ==> PassesFirst(r[i], f)
    ensures forall p :: p in all && PassesFirst(p, f) ==> p in r
  {
    var r1 := FilterIf(all, TruthyString(f.category), (p: Product) => p.category == f.category.GetOr(""));
    var r2 := FilterIf(r1, TruthyString(f.brand), (p: Product) => p.brand == f.brand.GetOr(""));
    var r3 := FilterIf(r2, TruthyNumber(f.minPrice), (p: Product) => p.price >= f.minPrice.GetOr(0.0));
    Seqs.SubsequenceTrans(r2, r1, all);
    Seqs.SubsequenceTrans(r3, r2, all);
    Seqs.SubsequenceMembers(r3, r2);
    Seqs.SubsequenceMembers(r2, r1);
    r3
  }

  function RestFilters(all: seq<Product>, f: Filters): (r: seq<Product>)
    ensures Seqs.IsSubsequence(r, all)
    ensures forall i :: 0 <= i < |r| ==> PassesRest(r[i], f)
    ensures forall p :: p in all && PassesRest(p, f) ==> p in r
  {
    var r1 := FilterIf(all, TruthyNumber(f.maxPrice), (p: Product) => p.price <= f.maxPrice.GetOr(0.0));
    var r2 := FilterIf(r1, TruthyNumber(f.minRating), (p: Product) => p.rating >= f.minRating.GetOr(0.0));
    var r3 := FilterIf(r2, f.inStockOnly, (p: Product) => IsInStock(p));
    Seqs.SubsequenceTrans(r2, r1, all);
    Seqs.SubsequenceTrans(r3, r2, all);
    Seqs.SubsequenceMembers(r3, r2);
    Seqs.SubsequenceMembers(r2, r1);
    r3
  }

  /** A price or rating bound of 0 is falsy and so filters nothing: it gives
      the same result as leaving the bound out. */
  lemma ZeroBoundsFilterNothing(s: Store, f: Filters)
    requires Valid(s)
    ensures GetAllProducts(s, f.(minPrice := Some(0.0))) == GetAllProducts(s, f.(minPrice := None))
    ensures GetAllProducts(s, f.(maxPrice := Some(0.0))) == GetAllProducts(s, f.(maxPrice := None))
    ensures GetAllProducts(s, f.(minRating := Some(0.0))) == GetAllProducts(s, f.(minRating := None))
  {
  }

  /** With no active filter every stored product is returned, in order. */
  lemma NoFiltersReturnsAll(s: Store)
    requires Valid(s)
    ensures GetAllProducts(s, Filters(None, None, None, None, None, false)) == ProductStore.GetAllProducts(s)
  {
  }
}
