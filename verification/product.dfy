/** The product entity (models/Product.js): construction with defaults and a
    clamped rating, and the derived figures a product reports about itself. */
module ProductModel {
  import opened Wrappers
  import opened Numeric
  import Js

  /** Free-form product details (specifications, scrape source, ...). */
  type Metadata = map<string, Js.Value>

  /** A stored product. `productId` is `None` for `null`; times are
      milliseconds since the epoch. */
  datatype Product = Product(
    productId: Option<int>,
    title: string,
    description: string,
    rating: real,
    stock: int,
    price: real,
    mrp: real,
    currency: string,
    metadata: Metadata,
    category: string,
    brand: string,
    salesCount: int,
    returnRate: real,
    complaintCount: int,
    createdAt: int,
    updatedAt: int)

  /** The constructor's argument object; `None` is an absent (`undefined`)
      property, which takes the constructor's default. */
  datatype ProductInit = ProductInit(
    title: string,
    description: string,
    price: real,
    mrp: real,
    rating: Option<real>,
    stock: Option<int>,
    currency: Option<string>,
    productId: Option<int>,
    metadata: Option<Metadata>,
    category: Option<string>,
    brand: Option<string>,
    salesCount: Option<int>,
    returnRate: Option<real>,
    complaintCount: Option<int>)

  const DefaultCurrency := "INR"
  const DefaultCategory := "Electronics"
  const DefaultBrand := "Unknown"

  /** `Math.min(Math.max(rating, 0), 5)`. */
  function ClampRating(x: real): (r: real)
    ensures 0.0 <= r <= 5.0
    ensures 0.0 <= x <= 5.0 ==> r == x
    ensures x < 0.0 ==> r == 0.0
    ensures x > 5.0 ==> r == 5.0
  {
    Min(Max(x, 0.0), 5.0)
  }

  /** `new Product({...})` at time `now`. */
  function NewProduct(init: ProductInit, now: int): (p: Product)
    ensures 0.0 <= p.rating <= 5.0
    ensures init.rating.None? ==> p.rating == 0.0
    ensures init.rating.Some? && 0.0 <= init.rating.value <= 5.0 ==> p.rating == init.rating.value
    ensures init.rating.Some? ==> p.rating == ClampRating(init.rating.value)
    ensures p.stock == init.stock.GetOr(0) && p.salesCount == init.salesCount.GetOr(0)
    ensures p.complaintCount == init.complaintCount.GetOr(0) && p.returnRate == init.returnRate.GetOr(0.0)
    ensures p.currency == init.currency.GetOr(DefaultCurrency)
    ensures p.category == init.category.GetOr(DefaultCategory)
    ensures p.brand == init.brand.GetOr(DefaultBrand)
    ensures p.metadata == init.metadata.GetOr(map[])
    ensures p.productId == init.productId
    ensures p.title == init.title && p.description == init.description
    ensures p.price == init.price && p.mrp == init.mrp
    ensures p.createdAt == now && p.updatedAt == now
  {
    Product(
      productId := init.productId,
      title := init.title,
      description := init.description,
      rating := ClampRating(init.rating.GetOr(0.0)),
      stock := init.stock.GetOr(0),
      price := init.price,
      mrp := init.mrp,
      currency := init.currency.GetOr(DefaultCurrency),
      metadata := init.metadata.GetOr(map[]),
      category := init.category.GetOr(DefaultCategory),
      brand := init.brand.GetOr(DefaultBrand),
      salesCount := init.salesCount.GetOr(0),
      returnRate := init.returnRate.GetOr(0.0),
      complaintCount := init.complaintCount.GetOr(0),
      createdAt := now,
      updatedAt := now)
  }

  /** `getDiscountPercentage()`: the discount off the MRP in whole percent,
      0 when the MRP is 0. */
  function DiscountPercentage(p: Product): (r: int)
    ensures p.mrp == 0.0 ==> r == 0
    ensures p.mrp != 0.0 ==>
      var exact := (p.mrp - p.price) / p.mrp * 100.0;
      exact - 0.5 < r as real <= exact + 0.5
    ensures 0.0 <= p.price <= p.mrp ==> 0 <= r <= 100
  {
    if p.mrp == 0.0 then 0
    else
      var exact := (p.mrp - p.price) / p.mrp * 100.0;
      if 0.0 <= p.price <= p.mrp then
        ShareOfWhole(p.mrp - p.price, p.mrp);
        Round(exact)
      else Round(exact)
  }

  /** A part of a positive whole is a fraction in [0, 1]. */
  lemma ShareOfWhole(part: real, whole: real)
    requires whole > 0.0 && 0.0 <= part <= whole
    ensures 0.0 <= part / whole <= 1.0
  {
    var q := part / whole;
    assert q * whole == part;
    assert (1.0 - q) * whole == whole - part;
  }

  /** `isInStock()`. */
  predicate IsInStock(p: Product) {
    p.stock > 0
  }

  /** `getCustomerSatisfactionScore()`: rating out of 100 less half a point
      per percent of returns, floored at 0. */
  function CustomerSatisfaction(p: Product): (r: real)
    ensures r >= 0.0
    ensures p.rating <= 5.0 && p.returnRate >= 0.0 ==> r <= 100.0
    ensures p.returnRate >= 0.0 ==> r <= Max(p.rating / 5.0 * 100.0, 0.0)
  {
    Max(0.0, p.rating / 5.0 * 100.0 - p.returnRate * 0.5)
  }

  /** `getPopularityScore()`: ten times `log10` of the sales count plus one,
      with sales counts below 1 read as 1. */
  function PopularityIndex(p: Product, log10: real -> real): real {
    log10(Max(p.salesCount as real, 1.0) + 1.0) * 10.0
  }

  /** More sales never lower the popularity index, and every sales count up to
      1 gives the same index. */
  lemma PopularityIndexMonotone(p: Product, q: Product, log10: real -> real)
    requires IsLogarithm(log10)
    requires p.salesCount <= q.salesCount
    ensures PopularityIndex(p, log10) <= PopularityIndex(q, log10)
    ensures q.salesCount <= 1 ==> PopularityIndex(p, log10) == PopularityIndex(q, log10)
    ensures PopularityIndex(p, log10) >= 0.0
  {
    var x := Max(p.salesCount as real, 1.0) + 1.0;
    var y := Max(q.salesCount as real, 1.0) + 1.0;
    LogMonotone(log10, x, y);
    LogPositive(log10, x);
  }

  /** `updateMetadata(newMetadata)` at time `now`: `{...old, ...new}`. */
  function UpdateMetadata(p: Product, newMetadata: Metadata, now: int): (r: Product)
    ensures r.metadata.Keys == p.metadata.Keys + newMetadata.Keys
    ensures forall k :: k in newMetadata ==> r.metadata[k] == newMetadata[k]
    ensures forall k :: k in p.metadata && k !in newMetadata ==> r.metadata[k] == p.metadata[k]
    ensures r.updatedAt == now
    ensures r.(metadata := p.metadata, updatedAt := p.updatedAt) == p
  {
    p.(metadata := p.metadata + newMetadata, updatedAt := now)
  }

  /** The object `toJSON()` returns. */
  datatype ProductJson = ProductJson(
    productId: Option<int>,
    title: string,
    description: string,
    rating: real,
    stock: int,
    price: real,
    mrp: real,
    currency: string,
    discountPercentage: int,
    metadata: Metadata,
    category: string,
    brand: string,
    salesCount: int,
    returnRate: real,
    complaintCount: int)

  /** `toJSON()`: every stored field except the timestamps, plus the discount. */
  function ToJson(p: Product): (j: ProductJson)
    ensures j.discountPercentage == DiscountPercentage(p)
    ensures j.productId == p.productId && j.title == p.title && j.description == p.description
    ensures j.rating == p.rating && j.stock == p.stock && j.price == p.price && j.mrp == p.mrp
    ensures j.currency == p.currency && j.metadata == p.metadata
    ensures j.category == p.category && j.brand == p.brand
    ensures j.salesCount == p.salesCount && j.returnRate == p.returnRate && j.complaintCount == p.complaintCount
  {
    ProductJson(p.productId, p.title, p.description, p.rating, p.stock, p.price, p.mrp,
                p.currency, DiscountPercentage(p), p.metadata, p.category, p.brand,
                p.salesCount, p.returnRate, p.complaintCount)
  }

  /** The JSON form loses nothing but the two timestamps. */
  lemma ToJsonDeterminesProduct(p: Product, q: Product)
    requires ToJson(p) == ToJson(q)
    ensures p.(createdAt := q.createdAt, updatedAt := q.updatedAt) == q
  {
  }
}
