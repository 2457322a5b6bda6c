/** The request middleware: the product-body and search-query validators, the
    per-address sliding-window rate limiter and the status selection of the
    error handler. Each validator is a pure function from the parsed request
    fields to the ordered list of messages it reports; the middleware either
    passes the request on or answers with a 400 carrying those messages. */
module Middleware {
  import opened Wrappers
  import opened Text
  import Js
  import Numeric
  import Seqs

  datatype Request = Request(verb: string, path: string)

  /** What a middleware does with a request: hand it to `next()`, or answer it. */
  datatype Outcome =
    | Next
    | Respond(status: int, error: string, message: string, details: seq<string>)

  // ---------------------------------------------------------------------------
  // Ordered error lists

  /** The tags of the messages in `s` lie in `[lo, hi)` and strictly increase. */
  ghost predicate Tagged<M>(s: seq<M>, tag: M -> int, lo: int, hi: int) {
    && (forall i :: 0 <= i < |s| ==> lo <= tag(s[i]) < hi)
    && (forall i, j :: 0 <= i < j < |s| ==> tag(s[i]) < tag(s[j]))
  }

  lemma TaggedSingle<M>(s: seq<M>, tag: M -> int, k: int)
    requires |s| <= 1 && (s != [] ==> tag(s[0]) == k)
    ensures Tagged(s, tag, k, k + 1)
  {
  }

  /** Messages of earlier fields followed by messages of later fields stay in
      field order. */
  lemma TaggedAppend<M>(a: seq<M>, b: seq<M>, tag: M -> int, lo: int, mid: int, hi: int)
    requires lo <= mid <= hi
    requires Tagged(a, tag, lo, mid) && Tagged(b, tag, mid, hi)
    ensures Tagged(a + b, tag, lo, hi)
  {
    var r := a + b;
    forall i, j | 0 <= i < j < |r| ensures tag(r[i]) < tag(r[j]) {
      if j < |a| {
        assert r[i] == a[i] && r[j] == a[j];
      } else if i < |a| {
        assert r[i] == a[i] && r[j] == b[j - |a|];
      } else {
        assert r[i] == b[i - |a|] && r[j] == b[j - |a|];
      }
    }
    forall i | 0 <= i < |r| ensures lo <= tag(r[i]) < hi {
      if i < |a| { assert r[i] == a[i]; } else { assert r[i] == b[i - |a|]; }
    }
  }

  /** A list tagged below `k` followed by at most one message tagged `k`. */
  lemma TaggedSnoc<M>(s: seq<M>, x: seq<M>, tag: M -> int, k: int)
    requires 0 <= k && |s| <= k && Tagged(s, tag, 0, k)
    requires |x| <= 1 && (x != [] ==> tag(x[0]) == k)
    ensures Tagged(s + x, tag, 0, k + 1) && |s + x| <= k + 1
  {
    TaggedSingle(x, tag, k);
    TaggedAppend(s, x, tag, 0, k, k + 1);
  }

  /** Five one-message lists, tagged 0 to 4, joined in order. */
  lemma TaggedFive<M>(a: seq<M>, b: seq<M>, c: seq<M>, d: seq<M>, e: seq<M>, tag: M -> int)
    requires |a| <= 1 && (a != [] ==> tag(a[0]) == 0)
    requires |b| <= 1 && (b != [] ==> tag(b[0]) == 1)
    requires |c| <= 1 && (c != [] ==> tag(c[0]) == 2)
    requires |d| <= 1 && (d != [] ==> tag(d[0]) == 3)
    requires |e| <= 1 && (e != [] ==> tag(e[0]) == 4)
    ensures Tagged(a + b + c + d + e, tag, 0, 5)
    ensures |a + b + c + d + e| <= 5
  {
    TaggedSingle(a, tag, 0);
    TaggedSnoc(a, b, tag, 1);
    TaggedSnoc(a + b, c, tag, 2);
    TaggedSnoc(a + b + c, d, tag, 3);
    TaggedSnoc(a + b + c + d, e, tag, 4);
  }

  /** Six one-message lists, tagged 0 to 5, joined in order. */
  lemma TaggedSix<M>(a: seq<M>, b: seq<M>, c: seq<M>, d: seq<M>, e: seq<M>, f: seq<M>, tag: M -> int)
    requires |a| <= 1 && (a != [] ==> tag(a[0]) == 0)
    requires |b| <= 1 && (b != [] ==> tag(b[0]) == 1)
    requires |c| <= 1 && (c != [] ==> tag(c[0]) == 2)
    requires |d| <= 1 && (d != [] ==> tag(d[0]) == 3)
    requires |e| <= 1 && (e != [] ==> tag(e[0]) == 4)
    requires |f| <= 1 && (f != [] ==> tag(f[0]) == 5)
    ensures Tagged(a + b + c + d + e + f, tag, 0, 6)
    ensures |a + b + c + d + e + f| <= 6
  {
    TaggedFive(a, b, c, d, e, tag);
    TaggedSnoc(a + b + c + d + e, f, tag, 5);
  }

  // ---------------------------------------------------------------------------
  // Product body validation

  /** The body fields `validateProductInput` reads, as parsed JSON values. */
  datatype ProductBody = ProductBody(
    title: Js.Value, description: Js.Value, price: Js.Value,
    mrp: Js.Value, rating: Js.Value, stock: Js.Value)

  /** The messages `validateProductInput` can report. */
  datatype ProductMessage =
    | TitleRequired | TitleShort | TitleLong
    | DescriptionRequired | DescriptionShort | DescriptionLong
    | PriceRequired | PriceNegative | PriceTooHigh
    | MrpRequired | MrpNegative | MrpTooHigh | PriceAboveMrp
    | RatingRequired | RatingRange
    | StockRequired | StockNegative | StockFractional

  /** The position, in checking order, of the field a message reports on. */
  function ProductField(m: ProductMessage): int {
    match m
    case TitleRequired | TitleShort | TitleLong => 0
    case DescriptionRequired | DescriptionShort | DescriptionLong => 1
    case PriceRequired | PriceNegative | PriceTooHigh => 2
    case MrpRequired | MrpNegative | MrpTooHigh | PriceAboveMrp => 3
    case RatingRequired | RatingRange => 4
    case StockRequired | StockNegative | StockFractional => 5
  }

  function ProductText(m: ProductMessage): string {
    match m
    case TitleRequired => "Title is required and must be a string"
    case TitleShort => "Title must be at least 3 characters long"
    case TitleLong => "Title cannot exceed 200 characters"
    case DescriptionRequired => "Description is required and must be a string"
    case DescriptionShort => "Description must be at least 10 characters long"
    case DescriptionLong => "Description cannot exceed 2000 characters"
    case PriceRequired => "Price is required"
    case PriceNegative => "Price must be a positive number"
    case PriceTooHigh => "Price cannot exceed ₹9,99,99,999"
    case MrpRequired => "MRP is required"
    case MrpNegative => "MRP must be a positive number"
    case MrpTooHigh => "MRP cannot exceed ₹9,99,99,999"
    case PriceAboveMrp => "Selling price cannot be greater than MRP"
    case RatingRequired => "Rating is required"
    case RatingRange => "Rating must be a number between 0 and 5"
    case StockRequired => "Stock is required"
    case StockNegative => "Stock must be a non-negative number"
    case StockFractional => "Stock must be an integer"
  }

  /** The largest accepted price or MRP. */
  const MaxAmount: real := 99999999.0

  /** A text field the validator accepts: a string whose trimmed length is at
      least `min` and whose own length is at most `max`. */
  predicate GoodText(v: Js.Value, min: nat, max: nat) {
    v.Str? && min <= Utf16Length(Trim(v.s)) && Utf16Length(v.s) <= max
  }

  /** A price or MRP the validator accepts: present, numeric, between 0 and
      `MaxAmount` inclusive. */
  predicate GoodAmount(v: Js.Value) {
    && !Js.IsNullish(v)
    && Js.ToNumber(v).Finite?
    && 0.0 <= Js.ToNumber(v).v <= MaxAmount
  }

  predicate GoodRating(v: Js.Value) {
    && !Js.IsNullish(v)
    && Js.ToNumber(v).Finite?
    && 0.0 <= Js.ToNumber(v).v <= 5.0
  }

  predicate GoodStock(v: Js.Value) {
    && !Js.IsNullish(v)
    && Js.ToNumber(v).Finite?
    && 0.0 <= Js.ToNumber(v).v
    && Js.IsInteger(Js.ToNumber(v))
  }

  /** Every field of the body is acceptable and the price does not exceed the MRP. */
  predicate ProductAcceptable(b: ProductBody) {
    && GoodText(b.title, 3, 200)
    && GoodText(b.description, 10, 2000)
    && GoodAmount(b.price)
    && GoodAmount(b.mrp)
    && !Js.GreaterThan(b.price, b.mrp)
    && GoodRating(b.rating)
    && GoodStock(b.stock)
  }

  /** A required string field: missing or not a string, too short once trimmed,
      or too long — the first failing test gives the one message. */
  function TextErrors<M>(v: Js.Value, min: nat, max: nat, required: M, short: M, long: M)
    : (r: seq<M>)
    requires 0 < min
    ensures |r| <= 1
    ensures r == [] <==> GoodText(v, min, max)
    ensures r != [] ==> r[0] == required || r[0] == short || r[0] == long
  {
    if !Js.Truthy(v) || !v.Str? then [required]
    else if Utf16Length(Trim(v.s)) < min then [short]
    else if Utf16Length(v.s) > max then [long]
    else []
  }

  /** The range tests of a price or MRP on `n = Number(v)`: `isNaN` or below
      0, then above the cap. */
  function AmountRangeErrors(n: Numeric.Ext, negative: ProductMessage, tooHigh: ProductMessage)
    : (r: seq<ProductMessage>)
    ensures r == [] <==> n.Finite? && 0.0 <= n.v <= MaxAmount
    ensures n.NaN? || n.NegInf? || (n.Finite? && n.v < 0.0) ==> r == [negative]
    ensures r != [] && !(n.NaN? || n.NegInf? || (n.Finite? && n.v < 0.0)) ==> r == [tooHigh]
  {
    if n.NaN? || Js.NumberBelow(n, 0.0) then [negative]
    else if Js.NumberAbove(n, MaxAmount) then [tooHigh]
    else []
  }

  /** Price: missing, not a number or negative, or above the cap. */
  function PriceErrors(price: Js.Value): (r: seq<ProductMessage>)
    ensures |r| <= 1
    ensures r == [] <==> GoodAmount(price)
    ensures r != [] ==> ProductField(r[0]) == 2
  {
    if Js.IsNullish(price) then [PriceRequired]
    else AmountRangeErrors(Js.ToNumber(price), PriceNegative, PriceTooHigh)
  }

  /** MRP: the same three tests as the price, then — only for an MRP that passes
      them — the comparison with the selling price. */
  function MrpErrors(price: Js.Value, mrp: Js.Value): (r: seq<ProductMessage>)
    ensures |r| <= 1
    ensures r == [] <==> GoodAmount(mrp) && !Js.GreaterThan(price, mrp)
    ensures r == [PriceAboveMrp] <==> GoodAmount(mrp) && Js.GreaterThan(price, mrp)
    ensures r != [] ==> ProductField(r[0]) == 3
  {
    if Js.IsNullish(mrp) then [MrpRequired]
    else
      var range := AmountRangeErrors(Js.ToNumber(mrp), MrpNegative, MrpTooHigh);
      if range != [] then range
      else if Js.GreaterThan(price, mrp) then [PriceAboveMrp]
      else []
  }

  /** The range test of a rating on `n = Number(v)`: `isNaN`, below 0 or
      above 5. */
  function RatingRangeErrors(n: Numeric.Ext): (r: seq<ProductMessage>)
    ensures r == [] <==> n.Finite? && 0.0 <= n.v <= 5.0
    ensures r != [] ==> r == [RatingRange]
  {
    if n.NaN? || Js.NumberBelow(n, 0.0) || Js.NumberAbove(n, 5.0) then [RatingRange]
    else []
  }

  function RatingErrors(rating: Js.Value): (r: seq<ProductMessage>)
    ensures |r| <= 1
    ensures r == [] <==> GoodRating(rating)
    ensures r != [] ==> ProductField(r[0]) == 4
  {
    if Js.IsNullish(rating) then [RatingRequired]
    else RatingRangeErrors(Js.ToNumber(rating))
  }

  /** The tests of a stock count on `n = Number(v)`: `isNaN` or below 0, then
      not an integer. */
  function StockRangeErrors(n: Numeric.Ext): (r: seq<ProductMessage>)
    ensures r == [] <==> n.Finite? && 0.0 <= n.v && n.v == n.v.Floor as real
    ensures r == [StockNegative] <==> n.NaN? || n.NegInf? || (n.Finite? && n.v < 0.0)
    ensures r != [] && r != [StockNegative] ==> r == [StockFractional]
  {
    if n.NaN? || Js.NumberBelow(n, 0.0) then [StockNegative]
    else if !Js.IsInteger(n) then [StockFractional]
    else []
  }

  function StockErrors(stock: Js.Value): (r: seq<ProductMessage>)
    ensures |r| <= 1
    ensures r == [] <==> GoodStock(stock)
    ensures r != [] ==> ProductField(r[0]) == 5
  {
    if Js.IsNullish(stock) then [StockRequired]
    else StockRangeErrors(Js.ToNumber(stock))
  }

  /** The `details` list of `validateProductInput`: at most one message per
      field, reported in field order, and empty exactly for an acceptable body. */
  function ProductErrors(b: ProductBody): (r: seq<ProductMessage>)
    ensures r == [] <==> ProductAcceptable(b)
    ensures |r| <= 6
    ensures forall i :: 0 <= i < |r| ==> 0 <= ProductField(r[i]) < 6
    ensures forall i, j :: 0 <= i < j < |r| ==> ProductField(r[i]) < ProductField(r[j])
  {
    var title := TextErrors(b.title, 3, 200, TitleRequired, TitleShort, TitleLong);
    var description := TextErrors(b.description, 10, 2000,
      DescriptionRequired, DescriptionShort, DescriptionLong);
    var price := PriceErrors(b.price);
    var mrp := MrpErrors(b.price, b.mrp);
    var rating := RatingErrors(b.rating);
    var stock := StockErrors(b.stock);
    TaggedSix(title, description, price, mrp, rating, stock, ProductField);
    title + description + price + mrp + rating + stock
  }

  /** `validateProductInput`. Only a POST to `/` is inspected; a body that cannot
      be destructured answers 400 "Bad Request"; a body with at least one
      failing field answers 400 with the messages; everything else reaches
      `next()`. */
  function ValidateProductInput(req: Request, body: Option<ProductBody>): (o: Outcome)
    ensures !(req.verb == "POST" && req.path == "/") ==> o == Next
    ensures o.Next? <==>
      !(req.verb == "POST" && req.path == "/") || (body.Some? && ProductAcceptable(body.value))
    ensures o.Respond? ==> o.status == 400 && (o.error == "Bad Request" <==> body.None?)
    ensures o.Respond? && body.Some? ==>
      o.details == Seqs.MapSeq(ProductErrors(body.value), ProductText) && o.details != []
  {
    if req.verb == "POST" && req.path == "/" then
      match body
      case None => Respond(400, "Bad Request", "Invalid request format", [])
      case Some(b) =>
        var errors := ProductErrors(b);
        if |errors| > 0 then
          Respond(400, "Validation Failed", "Invalid product data", Seqs.MapSeq(errors, ProductText))
        else Next
    else Next
  }

  /** The price-above-MRP message is reported exactly when the MRP itself
      passes its own tests and the price compares greater than it. */
  lemma PriceAboveMrpReported(b: ProductBody)
    ensures PriceAboveMrp in ProductErrors(b) <==>
      GoodAmount(b.mrp) && Js.GreaterThan(b.price, b.mrp)
  {
    var title := TextErrors(b.title, 3, 200, TitleRequired, TitleShort, TitleLong);
    var description := TextErrors(b.description, 10, 2000,
      DescriptionRequired, DescriptionShort, DescriptionLong);
    var price := PriceErrors(b.price);
    var mrp := MrpErrors(b.price, b.mrp);
    var rating := RatingErrors(b.rating);
    var stock := StockErrors(b.stock);
    assert ProductErrors(b) == title + description + price + mrp + rating + stock;
    assert PriceAboveMrp !in title + description + price;
    assert PriceAboveMrp !in rating + stock;
    assert PriceAboveMrp in mrp <==> mrp == [PriceAboveMrp];
  }

  /** A price and MRP of 0 pass: the lower bound is inclusive. */
  lemma ZeroAmountsAccepted(b: ProductBody)
    requires b.price == Js.Num(0.0) && b.mrp == Js.Num(0.0)
    requires GoodText(b.title, 3, 200) && GoodText(b.description, 10, 2000)
    requires GoodRating(b.rating) && GoodStock(b.stock)
    ensures ProductErrors(b) == []
  {
  }

  /** A price and an MRP that arrive as strings are compared as text: the
      price is reported as above the MRP whenever its string sorts after the
      MRP's, whatever the numbers (an MRP of "10" against a price of "9"). */
  lemma StringAmountsCompareAsText(b: ProductBody)
    requires b.price.Str? && b.mrp.Str? && StrLess(b.mrp.s, b.price.s)
    requires GoodAmount(b.mrp)
    ensures PriceAboveMrp in ProductErrors(b)
  {
    PriceAboveMrpReported(b);
  }

  // ---------------------------------------------------------------------------
  // Search query validation

  /** The query-string fields `validateSearchInput` reads. */
  datatype SearchParams = SearchParams(
    query: Js.Value, limit: Js.Value, offset: Js.Value, sortBy: Js.Value, order: Js.Value)

  datatype SearchMessage =
    | QueryRequired | QueryBlank | QueryLong
    | LimitRange | OffsetNegative | SortByInvalid | OrderInvalid

  function SearchField(m: SearchMessage): int {
    match m
    case QueryRequired | QueryBlank | QueryLong => 0
    case LimitRange => 1
    case OffsetNegative => 2
    case SortByInvalid => 3
    case OrderInvalid => 4
  }

  function SearchText(m: SearchMessage): string {
    match m
    case QueryRequired => "Search query is required"
    case QueryBlank => "Search query cannot be empty"
    case QueryLong => "Search query cannot exceed 500 characters"
    case LimitRange => "Limit must be a number between 1 and 100"
    case OffsetNegative => "Offset must be a non-negative number"
    case SortByInvalid => "sortBy must be one of: relevance, price, rating, sales"
    case OrderInvalid => "order must be either \"asc\" or \"desc\""
  }

  const ValidSortFields: seq<string> := ["relevance", "price", "rating", "sales"]
  const ValidOrders: seq<string> := ["asc", "desc"]

  /** `list.includes(v)` for a list of strings: only an equal string is found. */
  predicate IncludesString(list: seq<string>, v: Js.Value) {
    v.Str? && v.s in list
  }

  /** A query the validator accepts: a string with something besides white
      space, at most 500 characters long. */
  predicate GoodQuery(v: Js.Value) {
    v.Str? && Utf16Length(Trim(v.s)) > 0 && Utf16Length(v.s) <= 500
  }

  /** The optional parameters are checked only when truthy. */
  predicate GoodLimit(v: Js.Value) {
    Js.Truthy(v) ==> Js.ToNumber(v).Finite? && 1.0 <= Js.ToNumber(v).v <= 100.0
  }

  /** `Infinity` is not below 0, so it passes. */
  predicate GoodOffset(v: Js.Value) {
    Js.Truthy(v) ==> Js.ToNumber(v).PosInf? || (Js.ToNumber(v).Finite? && 0.0 <= Js.ToNumber(v).v)
  }

  predicate SearchAcceptable(p: SearchParams) {
    && GoodQuery(p.query)
    && GoodLimit(p.limit)
    && GoodOffset(p.offset)
    && (Js.Truthy(p.sortBy) ==> IncludesString(ValidSortFields, p.sortBy))
    && (Js.Truthy(p.order) ==> IncludesString(ValidOrders, p.order))
  }

  function QueryErrors(v: Js.Value): (r: seq<SearchMessage>)
    ensures |r| <= 1
    ensures r == [] <==> GoodQuery(v)
    ensures r != [] ==> SearchField(r[0]) == 0
  {
    if !Js.Truthy(v) || !v.Str? then [QueryRequired]
    else if Utf16Length(Trim(v.s)) == 0 then [QueryBlank]
    else if Utf16Length(v.s) > 500 then [QueryLong]
    else []
  }

  /** The range test of a limit on `n = Number(v)`: `isNaN`, below 1 or above
      100. */
  function LimitRangeErrors(n: Numeric.Ext): (r: seq<SearchMessage>)
    ensures r == [] <==> n.Finite? && 1.0 <= n.v <= 100.0
    ensures r != [] ==> r == [LimitRange]
  {
    if n.NaN? || Js.NumberBelow(n, 1.0) || Js.NumberAbove(n, 100.0) then [LimitRange] else []
  }

  /** `limit`, checked only when truthy. */
  function LimitErrors(v: Js.Value): (r: seq<SearchMessage>)
    ensures r == [] <==> GoodLimit(v)
    ensures |r| <= 1 && (r != [] ==> r[0] == LimitRange)
  {
    if Js.Truthy(v) then LimitRangeErrors(Js.ToNumber(v)) else []
  }

  /** The range test of an offset on `n = Number(v)`: `isNaN` or below 0;
      `Infinity` passes. */
  function OffsetRangeErrors(n: Numeric.Ext): (r: seq<SearchMessage>)
    ensures r == [] <==> n.PosInf? || (n.Finite? && 0.0 <= n.v)
    ensures r != [] ==> r == [OffsetNegative]
  {
    if n.NaN? || Js.NumberBelow(n, 0.0) then [OffsetNegative] else []
  }

  /** `offset`, checked only when truthy. */
  function OffsetErrors(v: Js.Value): (r: seq<SearchMessage>)
    ensures r == [] <==> GoodOffset(v)
    ensures |r| <= 1 && (r != [] ==> r[0] == OffsetNegative)
  {
    if Js.Truthy(v) then OffsetRangeErrors(Js.ToNumber(v)) else []
  }

  /** `sortBy` or `order`, checked only when truthy: not one of the allowed words. */
  function OneOfErrors(v: Js.Value, allowed: seq<string>, message: SearchMessage): (r: seq<SearchMessage>)
    ensures r == [] <==> (Js.Truthy(v) ==> IncludesString(allowed, v))
    ensures |r| <= 1 && (r != [] ==> r[0] == message)
  {
    if Js.Truthy(v) && !IncludesString(allowed, v) then [message] else []
  }

  /** The `details` list of `validateSearchInput`: at most one message per
      parameter, in parameter order, and empty exactly for acceptable
      parameters. */
  function SearchErrors(p: SearchParams): (r: seq<SearchMessage>)
    ensures r == [] <==> SearchAcceptable(p)
    ensures |r| <= 5
    ensures forall i :: 0 <= i < |r| ==> 0 <= SearchField(r[i]) < 5
    ensures forall i, j :: 0 <= i < j < |r| ==> SearchField(r[i]) < SearchField(r[j])
  {
    var query := QueryErrors(p.query);
    var limit := LimitErrors(p.limit);
    var offset := OffsetErrors(p.offset);
    var sortBy := OneOfErrors(p.sortBy, ValidSortFields, SortByInvalid);
    var order := OneOfErrors(p.order, ValidOrders, OrderInvalid);
    TaggedFive(query, limit, offset, sortBy, order, SearchField);
    SearchPartsEmpty(p);
    query + limit + offset + sortBy + order
  }

  lemma SearchPartsEmpty(p: SearchParams)
    ensures (QueryErrors(p.query) + LimitErrors(p.limit) + OffsetErrors(p.offset)
      + OneOfErrors(p.sortBy, ValidSortFields, SortByInvalid)
      + OneOfErrors(p.order, ValidOrders, OrderInvalid) == []) <==> SearchAcceptable(p)
  {
  }

  /** "Search query is required" is reported exactly when the query is missing
      or not a string. */
  lemma MissingQueryReported(p: SearchParams)
    ensures QueryRequired in SearchErrors(p) <==> !Js.Truthy(p.query) || !p.query.Str?
  {
    var query := QueryErrors(p.query);
    var limit := LimitErrors(p.limit);
    var offset := OffsetErrors(p.offset);
    var sortBy := OneOfErrors(p.sortBy, ValidSortFields, SortByInvalid);
    var order := OneOfErrors(p.order, ValidOrders, OrderInvalid);
    assert SearchErrors(p) == query + limit + offset + sortBy + order;
    assert QueryRequired !in limit + offset + sortBy + order;
  }

  /** `validateSearchInput`: 400 with the messages when there is one, `next()`
      otherwise. */
  function ValidateSearchInput(p: SearchParams): (o: Outcome)
    ensures o.Next? <==> SearchAcceptable(p)
    ensures o.Respond? ==>
      && o.status == 400
      && o.details == Seqs.MapSeq(SearchErrors(p), SearchText)
      && o.details != []
  {
    var errors := SearchErrors(p);
    if |errors| > 0 then
      Respond(400, "Validation Failed", "Invalid search parameters", Seqs.MapSeq(errors, SearchText))
    else Next
  }

  /** A numeric 0 limit is falsy and skips the range check, while a non-empty
      string that reads as 0 (the query string "0") is truthy and fails it. */
  lemma ZeroLimit(s: string)
    requires |s| > 0 && Js.ToNumber(Js.Str(s)) == Numeric.Finite(0.0)
    ensures GoodLimit(Js.Num(0.0))
    ensures !GoodLimit(Js.Str(s))
  {
  }

  // ---------------------------------------------------------------------------
  // Rate limiting

  /** A `RateLimiter`: per client address, the times (milliseconds) of the
      requests it admitted that may still be inside the window. */
  datatype Limiter = Limiter(maxRequests: int, windowMs: int, requests: map<string, seq<int>>)

  /** The limiter built with the constructor's defaults. */
  const DefaultLimiter := Limiter(100, 60000, map[])

  datatype Decision =
    | TooManyRequests(message: string, retryAfter: int)
    | Admitted(limit: int, remaining: int)

  function Window(l: Limiter, ip: string): seq<int> {
    if ip in l.requests then l.requests[ip] else []
  }

  /** The times still inside the window at `now`, in order. */
  function Recent(times: seq<int>, now: int, windowMs: int): (r: seq<int>)
    ensures forall t :: t in r <==> t in times && now - t < windowMs
    ensures Seqs.IsSubsequence(r, times)
  {
    Seqs.Filter(times, t => now - t < windowMs)
  }

  /** `Math.ceil(ms / 1000)`. */
  function CeilDiv1000(ms: int): (r: int)
    ensures (r - 1) * 1000 < ms <= r * 1000
  {
    -((-ms) / 1000)
  }

  /** The most entries a stored window may hold. */
  function Cap(l: Limiter): nat {
    if l.maxRequests < 0 then 0 else l.maxRequests
  }

  ghost predicate Capped(l: Limiter) {
    forall ip :: ip in l.requests ==> |l.requests[ip]| <= Cap(l)
  }

  /** One request from `ip` at time `now`: drop the times that left the window,
      refuse with 429 when what remains has reached the maximum, and otherwise
      record `now` and report how many requests remain. */
  function Handle(l: Limiter, ip: string, now: int): (res: (Limiter, Decision))
    ensures res.0.maxRequests == l.maxRequests && res.0.windowMs == l.windowMs
    ensures res.0.requests.Keys == l.requests.Keys + {ip}
    ensures forall other :: other in l.requests && other != ip ==>
      res.0.requests[other] == l.requests[other]
    ensures res.1.TooManyRequests? <==>
      Seqs.CountWhere(Window(l, ip), t => now - t < l.windowMs) >= l.maxRequests
    ensures res.1.TooManyRequests? ==>
      res.1.retryAfter * 1000 >= l.windowMs && Window(res.0, ip) == Recent(Window(l, ip), now, l.windowMs)
    ensures res.1.Admitted? ==>
      && Window(res.0, ip) == Recent(Window(l, ip), now, l.windowMs) + [now]
      && res.1.limit == l.maxRequests
      && res.1.remaining == l.maxRequests - |Window(res.0, ip)|
      && res.1.remaining >= 0
    ensures forall t :: t in Window(res.0, ip) ==> t == now || now - t < l.windowMs
    ensures Capped(l) ==> Capped(res.0)
  {
    var recent := Recent(Window(l, ip), now, l.windowMs);
    Seqs.CountWhereIsFilterLength(Window(l, ip), t => now - t < l.windowMs);
    if |recent| >= l.maxRequests then
      (l.(requests := l.requests[ip := recent]),
       TooManyRequests("Rate limit exceeded. Max " + IntToString(l.maxRequests) + " requests per minute",
         CeilDiv1000(l.windowMs)))
    else
      (l.(requests := l.requests[ip := recent + [now]]),
       Admitted(l.maxRequests, l.maxRequests - (|recent| + 1)))
  }

  /** `n` requests from `ip` at the same instant, with the number admitted. */
  function Burst(l: Limiter, ip: string, now: int, n: nat): (res: (Limiter, nat))
    ensures res.1 <= n
    decreases n
  {
    if n == 0 then (l, 0)
    else
      var (l1, d) := Handle(l, ip, now);
      var (l2, k) := Burst(l1, ip, now, n - 1);
      (l2, k + (if d.Admitted? then 1 else 0))
  }

  /** How many of `n` requests fit in `room` free places. */
  function Fit(n: nat, room: int): nat {
    if room <= 0 then 0 else if n <= room then n else room
  }

  /** Every time in the window for `ip` is still recent at `now`. */
  ghost predicate AllRecent(l: Limiter, ip: string, now: int) {
    forall t :: t in Window(l, ip) ==> now - t < l.windowMs
  }

  lemma RecentOfRecent(l: Limiter, ip: string, now: int)
    requires AllRecent(l, ip, now)
    ensures Recent(Window(l, ip), now, l.windowMs) == Window(l, ip)
  {
    var w := Window(l, ip);
    assert forall i :: 0 <= i < |w| ==> w[i] in w;
    Seqs.FilterAll(w, t => now - t < l.windowMs);
  }

  /** A burst of `n` simultaneous requests admits exactly as many as the
      window has room for, and refuses the rest. */
  lemma {:induction false} BurstAdmitsRoom(l: Limiter, ip: string, now: int, n: nat)
    requires l.windowMs > 0
    ensures Burst(l, ip, now, n).1 == Fit(n, l.maxRequests - |Recent(Window(l, ip), now, l.windowMs)|)
    decreases n
  {
    if n > 0 {
      var room := l.maxRequests - |Recent(Window(l, ip), now, l.windowMs)|;
      var (l1, d) := Handle(l, ip, now);
      assert Burst(l, ip, now, n).1 == Burst(l1, ip, now, n - 1).1 + (if d.Admitted? then 1 else 0);
      var room1 := l1.maxRequests - |Recent(Window(l1, ip), now, l1.windowMs)|;
      assert d.Admitted? <==> room > 0 by {
        Seqs.CountWhereIsFilterLength(Window(l, ip), t => now - t < l.windowMs);
      }
      assert room1 == if d.Admitted? then room - 1 else room by {
        assert AllRecent(l1, ip, now);
        RecentOfRecent(l1, ip, now);
      }
      BurstAdmitsRoom(l1, ip, now, n - 1);
    }
  }

  /** Retrying a refused request at the same instant is refused again and
      leaves the limiter as it was. */
  lemma RetryAtOnceRefused(l: Limiter, ip: string, now: int)
    requires Handle(l, ip, now).1.TooManyRequests?
    ensures Handle(Handle(l, ip, now).0, ip, now) == Handle(l, ip, now)
  {
    var l1 := Handle(l, ip, now).0;
    var recent := Recent(Window(l, ip), now, l.windowMs);
    assert Window(l1, ip) == recent;
    assert AllRecent(l1, ip, now);
    RecentOfRecent(l1, ip, now);
    assert l1.requests[ip := recent] == l1.requests;
  }

  // ---------------------------------------------------------------------------
  // Error handler

  /** The built-in error classes the handler distinguishes with `instanceof`. */
  datatype ErrorClass = SyntaxError | TypeError | RangeError | OtherError

  /** The properties of a thrown error the handler reads; `hasBody` is
      `'body' in err`. */
  datatype Error = Error(
    kind: ErrorClass, status: Js.Value, message: Js.Value, name: Js.Value,
    hasBody: bool, validation: Js.Value)

  datatype ErrorResponse = ErrorResponse(status: Js.Value, error: Js.Value, message: Js.Value)

  /** A request body that failed to parse as JSON. */
  predicate JsonParseError(e: Error) {
    e.kind.SyntaxError? && e.status == Js.Num(400.0) && e.hasBody
  }

  /** The errors answered with 400 whatever status they carry. */
  predicate ForcedBadRequest(e: Error) {
    JsonParseError(e) || e.kind.TypeError? || e.kind.RangeError? || Js.Truthy(e.validation)
  }

  /** `errorHandler`'s choice of status, error type and message. */
  function HandleError(e: Error): (r: ErrorResponse)
    ensures ForcedBadRequest(e) ==> r.status == Js.Num(400.0)
    ensures !ForcedBadRequest(e) ==> r.status == (if Js.Truthy(e.status) then e.status else Js.Num(500.0))
    ensures Js.Truthy(r.status)
    ensures Js.Truthy(e.validation) ==> r.error == Js.Str("Validation Error")
    ensures JsonParseError(e) && !Js.Truthy(e.validation) ==> r.error == Js.Str("JSON Parse Error")
    ensures e.kind.TypeError? && !Js.Truthy(e.validation) ==> r.error == Js.Str("Type Error")
    ensures e.kind.RangeError? && !Js.Truthy(e.validation) ==> r.error == Js.Str("Range Error")
    ensures !ForcedBadRequest(e) ==> r.error == (if Js.Truthy(e.name) then e.name else Js.Str("Error"))
    ensures JsonParseError(e) ==> r.message == Js.Str("Invalid JSON in request body")
    ensures !JsonParseError(e) ==>
      r.message == (if Js.Truthy(e.message) then e.message else Js.Str("Internal Server Error"))
  {
    var status := if Js.Truthy(e.status) then e.status else Js.Num(500.0);
    var message := if Js.Truthy(e.message) then e.message else Js.Str("Internal Server Error");
    var kind := if Js.Truthy(e.name) then e.name else Js.Str("Error");
    var r := ErrorResponse(status, kind, message);
    var r := if JsonParseError(e)
      then ErrorResponse(Js.Num(400.0), Js.Str("JSON Parse Error"), Js.Str("Invalid JSON in request body"))
      else r;
    var r := if e.kind.TypeError? then r.(status := Js.Num(400.0), error := Js.Str("Type Error")) else r;
    var r := if e.kind.RangeError? then r.(status := Js.Num(400.0), error := Js.Str("Range Error")) else r;
    if Js.Truthy(e.validation) then r.(status := Js.Num(400.0), error := Js.Str("Validation Error")) else r
  }
}
