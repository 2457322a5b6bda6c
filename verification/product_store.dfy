/** The in-memory product store (models/ProductStore.js): a map from id to
    product kept in insertion order, an id counter, and append-only category
    and brand indices. Every operation is a function from store to store. */
module ProductStore {
  import opened Wrappers
  import Text
  import Numeric
  import Seqs
  import opened ProductModel

  /** `products` with its keys in insertion order (`order`), as a JavaScript
      `Map` iterates them; likewise each index's keys in `categoryOrder` and
      `brandOrder`. */
  datatype Store = Store(
    products: map<int, Product>,
    order: seq<int>,
    categoryIndex: map<string, seq<int>>,
    categoryOrder: seq<string>,
    brandIndex: map<string, seq<int>>,
    brandOrder: seq<string>,
    idCounter: int)

  predicate NoDuplicates<T(==)>(s: seq<T>) {
    forall i, j :: 0 <= i < j < |s| ==> s[i] != s[j]
  }

  /** An index names every key once, in `keys`, and points only at stored ids. */
  ghost predicate IndexValid(index: map<string, seq<int>>, keys: seq<string>, products: map<int, Product>) {
    && NoDuplicates(keys)
    && (forall k :: k in index <==> k in keys)
    && (forall k, i :: k in index && 0 <= i < |index[k]| ==> index[k][i] in products)
  }

  /** The store invariant. Above all: no stored id exceeds the counter, so the
      next automatic id `idCounter + 1` is always free. */
  ghost predicate Valid(s: Store) {
    && NoDuplicates(s.order)
    && OrderStored(s)
    && (forall id :: id in s.products ==> id in s.order)
    && |s.products| == |s.order|
    && s.idCounter >= 0
    && (forall id :: id in s.products ==> id <= s.idCounter && s.products[id].productId == Some(id))
    && IndexValid(s.categoryIndex, s.categoryOrder, s.products)
    && IndexValid(s.brandIndex, s.brandOrder, s.products)
  }

  /** Every id in the insertion order names a stored product. */
  ghost predicate OrderStored(s: Store) {
    forall i :: 0 <= i < |s.order| ==> s.order[i] in s.products
  }

  /** `new ProductStore()`. */
  function Empty(): (s: Store)
    ensures Valid(s) && s.idCounter == 0 && |s.products| == 0
  {
    Store(map[], [], map[], [], map[], [], 0)
  }

  /** `!product.productId`: no id, or the id 0. */
  predicate FalsyId(id: Option<int>) {
    id.None? || id.value == 0
  }

  /** `index.get(key) || []`. */
  function IndexList(index: map<string, seq<int>>, key: string): seq<int> {
    if key in index then index[key] else []
  }

  /** Appends `id` to the list of `key`, creating the list when it is new. */
  function Push(index: map<string, seq<int>>, keys: seq<string>, key: string, id: int)
    : (r: (map<string, seq<int>>, seq<string>))
    ensures IndexList(r.0, key) == IndexList(index, key) + [id]
    ensures forall k :: k != key ==> IndexList(r.0, k) == IndexList(index, k)
    ensures forall k :: k in r.0 <==> k in index || k == key
    ensures r.1 == if key in index then keys else keys + [key]
  {
    (index[key := IndexList(index, key) + [id]], if key in index then keys else keys + [key])
  }

  lemma PushValid(index: map<string, seq<int>>, keys: seq<string>, key: string, id: int,
                  products: map<int, Product>, products': map<int, Product>)
    requires IndexValid(index, keys, products)
    requires products.Keys <= products'.Keys && id in products'
    ensures IndexValid(Push(index, keys, key, id).0, Push(index, keys, key, id).1, products')
  {
    var r := Push(index, keys, key, id);
    forall k, i | k in r.0 && 0 <= i < |r.0[k]| ensures r.0[k][i] in products' {
      assert r.0[k] == IndexList(r.0, k);
      if k != key {
        assert r.0[k] == index[k];
      } else if i < |IndexList(index, key)| {
        assert r.0[k][i] == index[k][i];
      }
    }
  }

  /** `addProduct(product)`: the id the product gets and the store after it.
      A falsy id is replaced by the next counter value; an explicit id above
      the counter raises the counter to it. */
  function AddProduct(s: Store, p: Product): (r: (Store, int))
    requires Valid(s)
    ensures Valid(r.0)
    ensures FalsyId(p.productId) ==> r.1 == s.idCounter + 1 && r.1 !in s.products && r.0.idCounter == r.1
    ensures !FalsyId(p.productId) ==>
              && r.1 == p.productId.value
              && r.0.idCounter >= s.idCounter && r.0.idCounter >= r.1
              && (r.0.idCounter == s.idCounter || r.0.idCounter == r.1)
    ensures GetProductById(r.0, r.1) == Some(p.(productId := Some(r.1)))
    ensures forall id :: id != r.1 ==> GetProductById(r.0, id) == GetProductById(s, id)
    ensures r.0.products == s.products[r.1 := p.(productId := Some(r.1))]
    ensures r.0.order == if r.1 in s.products then s.order else s.order + [r.1]
  {
    var id := if FalsyId(p.productId) then s.idCounter + 1 else p.productId.value;
    var counter := if !FalsyId(p.productId) && id <= s.idCounter then s.idCounter else id;
    InsertValid(s, p.(productId := Some(id)), id, counter);
    (Insert(s, p.(productId := Some(id)), id, counter), id)
  }

  /** `addProduct` appends the id to its category's and its brand's index
      lists and leaves every other list as it was. */
  lemma AddProductIndexes(s: Store, p: Product)
    requires Valid(s)
    ensures var (s', id) := AddProduct(s, p);
            && IndexList(s'.categoryIndex, p.category) == IndexList(s.categoryIndex, p.category) + [id]
            && (forall c :: c != p.category ==> IndexList(s'.categoryIndex, c) == IndexList(s.categoryIndex, c))
            && IndexList(s'.brandIndex, p.brand) == IndexList(s.brandIndex, p.brand) + [id]
            && (forall b :: b != p.brand ==> IndexList(s'.brandIndex, b) == IndexList(s.brandIndex, b))
  {
  }

  /** Stores `stored` under `id`, appends `id` to both index lists and sets
      the counter. */
  function Insert(s: Store, stored: Product, id: int, counter: int): (s': Store)
    ensures s'.products == s.products[id := stored] && s'.idCounter == counter
    ensures s'.order == if id in s.products then s.order else s.order + [id]
    ensures IndexList(s'.categoryIndex, stored.category) == IndexList(s.categoryIndex, stored.category) + [id]
    ensures forall c :: c != stored.category ==> IndexList(s'.categoryIndex, c) == IndexList(s.categoryIndex, c)
    ensures IndexList(s'.brandIndex, stored.brand) == IndexList(s.brandIndex, stored.brand) + [id]
    ensures forall b :: b != stored.brand ==> IndexList(s'.brandIndex, b) == IndexList(s.brandIndex, b)
  {
    var (categories, categoryOrder) := Push(s.categoryIndex, s.categoryOrder, stored.category, id);
    var (brands, brandOrder) := Push(s.brandIndex, s.brandOrder, stored.brand, id);
    Store(s.products[id := stored], if id in s.products then s.order else s.order + [id],
          categories, categoryOrder, brands, brandOrder, counter)
  }

  lemma InsertValid(s: Store, stored: Product, id: int, counter: int)
    requires Valid(s) && stored.productId == Some(id) && s.idCounter <= counter && id <= counter
    ensures Valid(Insert(s, stored, id, counter))
  {
    var s' := Insert(s, stored, id, counter);
    PushValid(s.categoryIndex, s.categoryOrder, stored.category, id, s.products, s'.products);
    PushValid(s.brandIndex, s.brandOrder, stored.brand, id, s.products, s'.products);
    PutKeepsOrder(s, stored, id);
    forall k | k in s'.products ensures k <= s'.idCounter && s'.products[k].productId == Some(k) {
      if k != id {
        assert k in s.products;
      }
    }
  }

  /** Storing under an id keeps the insertion order in step with the map. */
  lemma PutKeepsOrder(s: Store, stored: Product, id: int)
    requires Valid(s)
    ensures var order := if id in s.products then s.order else s.order + [id];
            && NoDuplicates(order)
            && (forall i :: 0 <= i < |order| ==> order[i] in s.products[id := stored])
            && (forall k :: k in s.products[id := stored] ==> k in order)
            && |s.products[id := stored]| == |order|
  {
    var order := if id in s.products then s.order else s.order + [id];
    if id !in s.products {
      forall i | 0 <= i < |s.order| ensures s.order[i] != id {
        assert s.order[i] in s.products;
      }
      forall k | k in s.products[id := stored] ensures k in order {
        if k != id {
          assert k in s.order;
        }
        assert order[|order| - 1] == id;
      }
    }
  }

  /** `getProductById(id)`; `None` is `null`. */
  function GetProductById(s: Store, id: int): (r: Option<Product>)
    ensures r.Some? <==> id in s.products
  {
    if id in s.products then Some(s.products[id]) else None
  }

  /** `updateProductMetadata(id, metadata)` at time `now`: the updated product,
      or `None` for an unknown id, which leaves the store as it was. */
  function UpdateProductMetadata(s: Store, id: int, metadata: Metadata, now: int): (r: (Store, Option<Product>))
    requires Valid(s)
    ensures Valid(r.0)
    ensures r.1.None? <==> id !in s.products
    ensures r.1.None? ==> r.0 == s
    ensures r.1.Some? ==> r.1 == Some(UpdateMetadata(s.products[id], metadata, now))
                          && GetProductById(r.0, id) == r.1
    ensures forall other :: other != id ==> GetProductById(r.0, other) == GetProductById(s, other)
    ensures r.0.order == s.order && r.0.idCounter == s.idCounter
    ensures r.0.categoryIndex == s.categoryIndex && r.0.brandIndex == s.brandIndex
  {
    if id !in s.products then (s, None)
    else
      var updated := UpdateMetadata(s.products[id], metadata, now);
      (s.(products := s.products[id := updated]), Some(updated))
  }

  /** `getAllProducts()`: the stored products in insertion order. */
  function GetAllProducts(s: Store): (r: seq<Product>)
    requires OrderStored(s)
    ensures |r| == |s.order|
    ensures forall i :: 0 <= i < |r| ==> s.order[i] in s.products && r[i] == s.products[s.order[i]]
  {
    seq(|s.order|, i requires 0 <= i < |s.order| && s.order[i] in s.products => s.products[s.order[i]])
  }

  /** Every stored product is listed. */
  lemma AllProductsComplete(s: Store)
    requires Valid(s)
    ensures forall id :: id in s.products ==> s.products[id] in GetAllProducts(s)
  {
    var r := GetAllProducts(s);
    forall id | id in s.products ensures s.products[id] in r {
      var i :| 0 <= i < |s.order| && s.order[i] == id;
      assert r[i] == s.products[id];
    }
  }

  /** Adding a product under a new id appends it to the insertion order. */
  lemma AllProductsAfterAdd(s: Store, p: Product)
    requires Valid(s) && AddProduct(s, p).1 !in s.products
    ensures GetAllProducts(AddProduct(s, p).0)
            == GetAllProducts(s) + [p.(productId := Some(AddProduct(s, p).1))]
  {
    var (s', id) := AddProduct(s, p);
    AllProductsAppend(s, s', id, p.(productId := Some(id)));
  }

  lemma AllProductsAppend(s: Store, s': Store, id: int, x: Product)
    requires OrderStored(s) && OrderStored(s') && id !in s.products
    requires s'.products == s.products[id := x] && s'.order == s.order + [id]
    ensures GetAllProducts(s') == GetAllProducts(s) + [x]
  {
    var before := GetAllProducts(s);
    var after := GetAllProducts(s');
    forall i | 0 <= i < |s.order| ensures after[i] == before[i] {
      assert s.order[i] in s.products;
    }
    assert after[|s.order|] == x;
  }

  /** Re-adding a stored id replaces the product in place. */
  lemma AllProductsAfterReAdd(s: Store, p: Product)
    requires Valid(s) && AddProduct(s, p).1 in s.products
    ensures |GetAllProducts(AddProduct(s, p).0)| == |GetAllProducts(s)|
    ensures forall i :: 0 <= i < |s.order| ==>
              GetAllProducts(AddProduct(s, p).0)[i]
              == if s.order[i] == AddProduct(s, p).1 then p.(productId := Some(AddProduct(s, p).1))
                 else GetAllProducts(s)[i]
  {
    var (s', id) := AddProduct(s, p);
    AllProductsReplace(s, s', id, p.(productId := Some(id)));
  }

  lemma AllProductsReplace(s: Store, s': Store, id: int, x: Product)
    requires OrderStored(s) && OrderStored(s') && id in s.products
    requires s'.products == s.products[id := x] && s'.order == s.order
    ensures |GetAllProducts(s')| == |GetAllProducts(s)|
    ensures forall i :: 0 <= i < |s.order| ==>
              GetAllProducts(s')[i] == if s.order[i] == id then x else GetAllProducts(s)[i]
  {
  }

  /** `getTotalProductCount()`. */
  function GetTotalProductCount(s: Store): (n: nat)
    requires Valid(s)
    ensures n == |GetAllProducts(s)|
  {
    |s.products|
  }

  /** `getAllCategories()` and `getAllBrands()`: index keys in first-use order. */
  function GetAllCategories(s: Store): (r: seq<string>)
    requires Valid(s)
    ensures NoDuplicates(r) && forall c :: c in r <==> c in s.categoryIndex
  {
    s.categoryOrder
  }

  function GetAllBrands(s: Store): (r: seq<string>)
    requires Valid(s)
    ensures NoDuplicates(r) && forall b :: b in r <==> b in s.brandIndex
  {
    s.brandOrder
  }

  /** The products an index list points at, in list order. */
  function ProductsAt(s: Store, ids: seq<int>): (r: seq<Product>)
    requires forall i :: 0 <= i < |ids| ==> ids[i] in s.products
    ensures |r| == |ids|
    ensures forall i :: 0 <= i < |r| ==> r[i] == s.products[ids[i]]
  {
    seq(|ids|, i requires 0 <= i < |ids| && ids[i] in s.products => s.products[ids[i]])
  }

  /** `getProductsByCategory(category)`: the products under the category's
      index entries, in the order they were added. */
  function GetProductsByCategory(s: Store, category: string): (r: seq<Product>)
    requires Valid(s)
    ensures |r| == |IndexList(s.categoryIndex, category)|
    ensures forall i :: 0 <= i < |r| ==> IndexList(s.categoryIndex, category)[i] in s.products
    ensures forall i :: 0 <= i < |r| ==> r[i] == s.products[IndexList(s.categoryIndex, category)[i]]
  {
    ProductsAt(s, IndexList(s.categoryIndex, category))
  }

  function GetProductsByBrand(s: Store, brand: string): (r: seq<Product>)
    requires Valid(s)
    ensures |r| == |IndexList(s.brandIndex, brand)|
    ensures forall i :: 0 <= i < |r| ==> IndexList(s.brandIndex, brand)[i] in s.products
    ensures forall i :: 0 <= i < |r| ==> r[i] == s.products[IndexList(s.brandIndex, brand)[i]]
  {
    ProductsAt(s, IndexList(s.brandIndex, brand))
  }

  /** A product added under a new id goes to the end of its category's and
      its brand's lists; every other list is unchanged. */
  lemma IndexQueriesAfterAdd(s: Store, p: Product, category: string, brand: string)
    requires Valid(s)
    requires AddProduct(s, p).1 !in s.products
    ensures var (s', id) := AddProduct(s, p);
            GetProductsByCategory(s', category)
            == GetProductsByCategory(s, category) + (if category == p.category then [p.(productId := Some(id))] else [])
    ensures var (s', id) := AddProduct(s, p);
            GetProductsByBrand(s', brand)
            == GetProductsByBrand(s, brand) + (if brand == p.brand then [p.(productId := Some(id))] else [])
  {
    var (s', id) := AddProduct(s, p);
    var x := p.(productId := Some(id));
    AddProductIndexes(s, p);
    CategoryAfterInsert(s, s', id, x, category);
    BrandAfterInsert(s, s', id, x, brand);
  }

  lemma CategoryAfterInsert(s: Store, s': Store, id: int, x: Product, category: string)
    requires Valid(s) && Valid(s') && id !in s.products && s'.products == s.products[id := x]
    requires IndexList(s'.categoryIndex, x.category) == IndexList(s.categoryIndex, x.category) + [id]
    requires forall c :: c != x.category ==> IndexList(s'.categoryIndex, c) == IndexList(s.categoryIndex, c)
    ensures GetProductsByCategory(s', category)
            == GetProductsByCategory(s, category) + (if category == x.category then [x] else [])
  {
    IndexListAfterAdd(s, s', id, x, IndexList(s.categoryIndex, category));
  }

  lemma BrandAfterInsert(s: Store, s': Store, id: int, x: Product, brand: string)
    requires Valid(s) && Valid(s') && id !in s.products && s'.products == s.products[id := x]
    requires IndexList(s'.brandIndex, x.brand) == IndexList(s.brandIndex, x.brand) + [id]
    requires forall b :: b != x.brand ==> IndexList(s'.brandIndex, b) == IndexList(s.brandIndex, b)
    ensures GetProductsByBrand(s', brand)
            == GetProductsByBrand(s, brand) + (if brand == x.brand then [x] else [])
  {
    IndexListAfterAdd(s, s', id, x, IndexList(s.brandIndex, brand));
  }

  /** Ids stored before a fresh id is added still name the same products. */
  lemma IndexListAfterAdd(s: Store, s': Store, id: int, x: Product, ids: seq<int>)
    requires forall i :: 0 <= i < |ids| ==> ids[i] in s.products
    requires id !in s.products && s'.products == s.products[id := x]
    ensures ProductsAt(s', ids + [id]) == ProductsAt(s, ids) + [x]
    ensures ProductsAt(s', ids) == ProductsAt(s, ids)
  {
  }

  /** Re-adding a stored id appends the id to its index lists a second time. */
  lemma ReAddDuplicatesIndex(s: Store, p: Product)
    requires Valid(s) && !FalsyId(p.productId) && p.productId.value in s.products
    requires p.productId.value in IndexList(s.categoryIndex, p.category)
    ensures var l := IndexList(AddProduct(s, p).0.categoryIndex, p.category);
            !NoDuplicates(l)
  {
    var id := p.productId.value;
    AddProductIndexes(s, p);
    var l := IndexList(AddProduct(s, p).0.categoryIndex, p.category);
    var old1 := IndexList(s.categoryIndex, p.category);
    var i :| 0 <= i < |old1| && old1[i] == id;
    assert l[i] == id == l[|l| - 1];
  }

  /** `searchByTitle(query)`: the products whose lower-cased title contains
      the lower-cased query, in store order. */
  function SearchByTitle(s: Store, query: string): (r: seq<Product>)
    requires Valid(s)
    ensures Seqs.IsSubsequence(r, GetAllProducts(s))
    ensures forall i :: 0 <= i < |r| ==> Text.Contains(Text.Lower(r[i].title), Text.Lower(query))
    ensures forall p :: p in GetAllProducts(s) && Text.Contains(Text.Lower(p.title), Text.Lower(query)) ==> p in r
  {
    Seqs.Filter(GetAllProducts(s), (p: Product) => Text.Contains(Text.Lower(p.title), Text.Lower(query)))
  }

  /** `searchByDescription(query)`, the same test on the description. */
  function SearchByDescription(s: Store, query: string): (r: seq<Product>)
    requires Valid(s)
    ensures Seqs.IsSubsequence(r, GetAllProducts(s))
    ensures forall i :: 0 <= i < |r| ==> Text.Contains(Text.Lower(r[i].description), Text.Lower(query))
    ensures forall p :: p in GetAllProducts(s) && Text.Contains(Text.Lower(p.description), Text.Lower(query)) ==> p in r
  {
    Seqs.Filter(GetAllProducts(s), (p: Product) => Text.Contains(Text.Lower(p.description), Text.Lower(query)))
  }

  /** `filterByPriceRange(min, max)`, both bounds inclusive. */
  function FilterByPriceRange(s: Store, minPrice: real, maxPrice: real): (r: seq<Product>)
    requires Valid(s)
    ensures Seqs.IsSubsequence(r, GetAllProducts(s))
    ensures forall i :: 0 <= i < |r| ==> minPrice <= r[i].price <= maxPrice
    ensures forall p :: p in GetAllProducts(s) && minPrice <= p.price <= maxPrice ==> p in r
    ensures minPrice > maxPrice ==> r == []
  {
    Seqs.Filter(GetAllProducts(s), (p: Product) => p.price >= minPrice && p.price <= maxPrice)
  }

  /** `filterByRating(min)`. */
  function FilterByRating(s: Store, minRating: real): (r: seq<Product>)
    requires Valid(s)
    ensures Seqs.IsSubsequence(r, GetAllProducts(s))
    ensures forall i :: 0 <= i < |r| ==> r[i].rating >= minRating
    ensures forall p :: p in GetAllProducts(s) && p.rating >= minRating ==> p in r
  {
    Seqs.Filter(GetAllProducts(s), (p: Product) => p.rating >= minRating)
  }

  /** `getInStockProducts()`. */
  function GetInStockProducts(s: Store): (r: seq<Product>)
    requires Valid(s)
    ensures Seqs.IsSubsequence(r, GetAllProducts(s))
    ensures forall i :: 0 <= i < |r| ==> IsInStock(r[i])
    ensures forall p :: p in GetAllProducts(s) && IsInStock(p) ==> p in r
  {
    Seqs.Filter(GetAllProducts(s), IsInStock)
  }

  /** `clear()`: nothing stored and the counter back at 0. */
  function Clear(s: Store): (r: Store)
    ensures Valid(r)
    ensures |r.products| == 0 && |r.categoryIndex| == 0 && |r.brandIndex| == 0 && r.idCounter == 0
  {
    Empty()
  }

  /** After `clear()`, the next automatic id is 1 again. */
  lemma ClearRestartsIds(s: Store, p: Product)
    requires FalsyId(p.productId)
    ensures AddProduct(Clear(s), p).1 == 1
  {
  }

  datatype Statistics = Statistics(
    totalProducts: nat,
    totalCategories: nat,
    totalBrands: nat,
    avgRating: real,
    inStockProducts: nat,
    totalValue: real)

  function Rating(p: Product): real {
    p.rating
  }

  function StockValue(p: Product): real {
    p.price * p.stock as real
  }

  /** `getStatistics()`: counts, the mean rating to two decimals (0 for an
      empty store), and the stock value `sum of price * stock`. */
  function GetStatistics(s: Store): (r: Statistics)
    requires Valid(s)
    ensures r.totalProducts == |s.products| && r.totalCategories == |s.categoryIndex|
    ensures r.totalBrands == |s.brandIndex|
    ensures r.inStockProducts <= r.totalProducts
    ensures r.totalProducts == 0 ==> r.avgRating == 0.0 && r.totalValue == 0.0 && r.inStockProducts == 0
    ensures RatingsInRange(s) ==> 0.0 <= r.avgRating <= 5.0
    ensures r.inStockProducts == Seqs.CountWhere(GetAllProducts(s), IsInStock)
    ensures r.totalValue == Seqs.SumOf(GetAllProducts(s), StockValue)
    ensures r.totalProducts > 0 ==>
              var mean := Seqs.SumOf(GetAllProducts(s), Rating) / r.totalProducts as real;
              mean - 0.005 < r.avgRating <= mean + 0.005
  {
    var all := GetAllProducts(s);
    var inStock := GetInStockProducts(s);
    Seqs.SubsequenceMembers(inStock, all);
    Seqs.CountWhereIsFilterLength(all, IsInStock);
    assert RatingsInRange(s) ==> AllRated(all) by {
      if RatingsInRange(s) {
        StoredRatingsInRange(s);
      }
    }
    Statistics(|all|, |s.categoryIndex|, |s.brandIndex|, MeanRating(all), |inStock|, Seqs.SumOf(all, StockValue))
  }

  /** Every stored rating lies in `[0, 5]`. */
  ghost predicate RatingsInRange(s: Store) {
    forall id :: id in s.products ==> 0.0 <= s.products[id].rating <= 5.0
  }

  ghost predicate AllRated(all: seq<Product>) {
    forall i :: 0 <= i < |all| ==> 0.0 <= all[i].rating <= 5.0
  }

  lemma StoredRatingsInRange(s: Store)
    requires OrderStored(s) && RatingsInRange(s)
    ensures AllRated(GetAllProducts(s))
  {
    var all := GetAllProducts(s);
    forall i | 0 <= i < |all| ensures 0.0 <= all[i].rating <= 5.0 {
      var id := s.order[i];
      assert id in s.products && all[i] == s.products[id];
      assert 0.0 <= s.products[id].rating <= 5.0;
    }
  }

  /** The mean rating to two decimals, 0 for no products. */
  function MeanRating(all: seq<Product>): (r: real)
    ensures |all| == 0 ==> r == 0.0
    ensures |all| > 0 ==>
              var mean := Seqs.SumOf(all, Rating) / |all| as real;
              mean - 0.005 < r <= mean + 0.005
    ensures Numeric.TwoDecimals(r)
    ensures AllRated(all) ==> 0.0 <= r <= 5.0
  {
    if |all| == 0 then 0.0
    else
      assert AllRated(all) ==> 0.0 <= Seqs.SumOf(all, Rating) / |all| as real <= 5.0 by {
        if AllRated(all) {
          MeanRatingBounded(all);
        }
      }
      Numeric.Round2(Seqs.SumOf(all, Rating) / |all| as real)
  }

  /** The mean of ratings in `[0, 5]` is in `[0, 5]`. */
  lemma MeanRatingBounded(all: seq<Product>)
    requires |all| > 0 && AllRated(all)
    ensures 0.0 <= Seqs.SumOf(all, Rating) / |all| as real <= 5.0
  {
    Seqs.SumOfBounded(all, Rating, 0.0, 5.0);
    Numeric.MeanBounded(Seqs.SumOf(all, Rating), |all| as real, 0.0, 5.0);
  }

  /** Adding a product under a new id adds one product, one more in-stock
      product when its stock is positive, and its `price * stock` to the
      stock value. */
  lemma StatisticsAfterAdd(s: Store, p: Product)
    requires Valid(s) && AddProduct(s, p).1 !in s.products
    ensures var r := GetStatistics(AddProduct(s, p).0);
            && r.totalProducts == GetStatistics(s).totalProducts + 1
            && r.inStockProducts == GetStatistics(s).inStockProducts + (if IsInStock(p) then 1 else 0)
            && r.totalValue == GetStatistics(s).totalValue + StockValue(p)
  {
    var r := AddProduct(s, p);
    var x := p.(productId := Some(r.1));
    SameStock(p, x);
    AllProductsAfterAdd(s, p);
    StatisticsAppend(s, r.0, x);
  }

  /** The stored copy of a product has the product's stock and price. */
  lemma SameStock(p: Product, x: Product)
    requires x == p.(productId := x.productId)
    ensures IsInStock(x) == IsInStock(p) && StockValue(x) == StockValue(p)
  {
    assert x.stock == p.stock && x.price == p.price;
  }

  lemma StatisticsAppend(s: Store, s': Store, x: Product)
    requires Valid(s) && Valid(s') && GetAllProducts(s') == GetAllProducts(s) + [x]
    ensures var r := GetStatistics(s');
            && r.totalProducts == GetStatistics(s).totalProducts + 1
            && r.inStockProducts == GetStatistics(s).inStockProducts + (if IsInStock(x) then 1 else 0)
            && r.totalValue == GetStatistics(s).totalValue + StockValue(x)
  {
    var all := GetAllProducts(s);
    var r, r0 := GetStatistics(s'), GetStatistics(s);
    assert r.totalValue == r0.totalValue + StockValue(x) by {
      Seqs.SumOfAppend(all, [x], StockValue);
      assert Seqs.SumOf([x], StockValue) == StockValue(x);
    }
    assert r.inStockProducts == r0.inStockProducts + (if IsInStock(x) then 1 else 0) by {
      Seqs.CountWhereAppend(all, x, IsInStock);
    }
  }
}
