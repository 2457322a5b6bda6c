/** The multi-factor ranker, the boost and penalty tables and the ranking
    orchestration of services/RankingService.js. `Math.log10` is the
    parameter `log10`, the clock is the parameter `now`, and
    `JSON.stringify` of the metadata is the parameter `render`. */
module Ranking {
  import opened Text
  import opened Numeric
  import Seqs
  import opened ProductModel
  import opened SearchUtils

  /** Milliseconds in a day. */
  const MsPerDay := 1000 * 60 * 60 * 24

  /** `Math.floor((now - createdAt) / (1000 * 60 * 60 * 24))`. */
  function AgeDays(now: int, createdAt: int): (d: int)
    ensures d * MsPerDay <= now - createdAt < (d + 1) * MsPerDay
  {
    FloorDiv(now - createdAt, MsPerDay)
  }

  // ---------------------------------------------------------------------------
  // Relevance

  /** The test "occurs in `text`". */
  function InText(text: string): string -> bool {
    w => Contains(text, w)
  }

  /** Share of `words` that pass `found`: their number over the number of
      words, 1 exactly when every word passes and 0 exactly when none does. */
  function ShareOf(words: seq<string>, found: string -> bool): (r: real)
    requires |words| > 0
    ensures r == Seqs.CountWhere(words, found) as real / |words| as real
    ensures 0.0 <= r <= 1.0
    ensures r == 1.0 <==> forall i :: 0 <= i < |words| ==> found(words[i])
    ensures r == 0.0 <==> forall i :: 0 <= i < |words| ==> !found(words[i])
  {
    Seqs.CountWhereAll(words, found);
    Seqs.CountWhereNone(words, found);
    Fraction(Seqs.CountWhere(words, found), |words|);
    Seqs.CountWhere(words, found) as real / |words| as real
  }

  /** Share of `words` that occur in `text`. */
  function FoundShare(words: seq<string>, text: string): (r: real)
    requires |words| > 0
    ensures r == Seqs.CountWhere(words, InText(text)) as real / |words| as real
    ensures 0.0 <= r <= 1.0
    ensures r == 1.0 <==> forall i :: 0 <= i < |words| ==> Contains(text, words[i])
    ensures r == 0.0 <==> forall i :: 0 <= i < |words| ==> !Contains(text, words[i])
  {
    ShareOf(words, InText(text))
  }

  /** `k / n` for `0 <= k <= n`, `n > 0`, lies in [0, 1] and is 1 exactly when `k == n`. */
  lemma Fraction(k: nat, n: nat)
    requires 0 < n && k <= n
    ensures 0.0 <= k as real / n as real <= 1.0
    ensures k as real / n as real == 1.0 <==> k == n
    ensures k as real / n as real == 0.0 <==> k == 0
  {
  }

  /** Scaling a share in [0, 1] by a positive weight. */
  lemma ScaleShare(share: real, weight: real)
    requires 0.0 <= share <= 1.0 && weight >= 0.0
    ensures 0.0 <= weight * share <= weight
    ensures weight > 0.0 ==> (weight * share == weight <==> share == 1.0)
    ensures weight > 0.0 ==> (weight * share == 0.0 <==> share == 0.0)
  {
  }

  /** The title (40 / 30) and description (20 / 15) parts: `full` points when
      the text contains the whole query, otherwise `partial` points times the
      share of the query's white-space-separated words it contains. */
  function MatchPart(text: string, query: string, full: real, partial: real): (r: real)
    requires 0.0 <= partial < full
    ensures 0.0 <= r <= full
    ensures r == full <==> Contains(text, query)
    ensures !Contains(text, query) ==> r == partial * FoundShare(Words(query), text)
    ensures !Contains(text, query) ==> r <= partial
  {
    if Contains(text, query) then full
    else
      var share := FoundShare(Words(query), text);
      ScaleShare(share, partial);
      partial * share
  }

  /** `w.length > 2`, counted in UTF-16 code units. */
  predicate IsLongWord(w: string) {
    Utf16Length(w) > 2
  }

  /** The query's words longer than two UTF-16 code units. */
  function LongWords(query: string): (r: seq<string>)
    ensures forall i :: 0 <= i < |r| ==> IsLongWord(r[i]) && Contains(query, r[i])
  {
    var r := Seqs.Filter(Words(query), IsLongWord);
    WordsContained(query);
    r
  }

  /** The test "occurs in the title or in the description". */
  function InEither(title: string, description: string): string -> bool {
    kw => Contains(title, kw) || Contains(description, kw)
  }

  /** The keyword part: 20 times the share of long words found in title or
      description. The source divides by `Math.max(count, 1)`; with no long
      word nothing is matched and the part is 0. */
  function KeywordPart(query: string, title: string, description: string): (r: real)
    ensures 0.0 <= r <= 20.0
    ensures |LongWords(query)| > 0 ==> r == 20.0 * ShareOf(LongWords(query), InEither(title, description))
    ensures |LongWords(query)| == 0 ==> r == 0.0
    ensures r == 20.0 <==>
              && |LongWords(query)| > 0
              && forall i :: 0 <= i < |LongWords(query)| ==>
                   Contains(title, LongWords(query)[i]) || Contains(description, LongWords(query)[i])
    ensures r == 0.0 <==>
              forall i :: 0 <= i < |LongWords(query)| ==>
                !Contains(title, LongWords(query)[i]) && !Contains(description, LongWords(query)[i])
  {
    var keywords := LongWords(query);
    if |keywords| == 0 then 0.0
    else
      var share := ShareOf(keywords, InEither(title, description));
      ScaleShare(share, 20.0);
      20.0 * share
  }

  /** `calculateRelevanceScore` of the multi-factor ranker. */
  function RelevanceScore(p: Product, query: string, render: Metadata -> string): (r: real)
    ensures 0.0 <= r <= 95.0
  {
    var q := Lower(query);
    var title := Lower(p.title);
    var description := Lower(p.description);
    var metadata := if Contains(Lower(render(p.metadata)), q) then 15.0 else 0.0;
    Min(MatchPart(title, q, 40.0, 30.0) + MatchPart(description, q, 20.0, 15.0)
        + KeywordPart(q, title, description) + metadata, 100.0)
  }

  /** A query found whole in the title, the description and the rendered
      metadata, with at least one word longer than two characters, earns the
      highest relevance, 95: every long word of the query is then found too. */
  lemma RelevanceFullMatch(p: Product, query: string, render: Metadata -> string)
    requires Contains(Lower(p.title), Lower(query))
    requires Contains(Lower(p.description), Lower(query))
    requires Contains(Lower(render(p.metadata)), Lower(query))
    requires |LongWords(Lower(query))| > 0
    ensures RelevanceScore(p, query, render) == 95.0
  {
    var q := Lower(query);
    var keywords := LongWords(q);
    forall i | 0 <= i < |keywords| ensures Contains(Lower(p.title), keywords[i]) {
      ContainsTrans(Lower(p.title), q, keywords[i]);
    }
  }

  /** A title that contains the query earns the full 40, whatever else. */
  lemma RelevanceTitleHit(p: Product, query: string, render: Metadata -> string)
    requires Contains(Lower(p.title), Lower(query))
    ensures RelevanceScore(p, query, render) >= 40.0
  {
  }

  // ---------------------------------------------------------------------------
  // Popularity, quality, value, recency

  /** `calculatePopularityScore`: sales on a log scale (up to 40), rating (up
      to 40) and stock (up to 20, only when in stock), capped at 100. A sales
      count of -1 takes `Math.log10(0) = -Infinity` and a lower one the
      logarithm of a negative number, `NaN`; both carry through the sum. */
  function PopularityScore(p: Product, log10: real -> real): (r: Ext)
    requires IsLogarithm(log10)
    ensures r.NaN? <==> p.salesCount < -1
    ensures r.NegInf? <==> p.salesCount == -1
    ensures !r.PosInf?
    ensures r.Finite? ==> r.v <= 100.0
    ensures p.salesCount >= 0 && 0.0 <= p.rating <= 5.0 ==> r.Finite? && 0.0 <= r.v
  {
    var sales := SalesTerm(p.salesCount, log10);
    MinWith(Add(Add(sales, Finite(p.rating / 5.0 * 40.0)), Finite(StockTerm(p.stock))), 100.0)
  }

  /** `Math.min(Math.log10(salesCount + 1) * 10, 40)`. */
  function SalesTerm(salesCount: int, log10: real -> real): (r: Ext)
    requires IsLogarithm(log10)
    ensures r.NaN? <==> salesCount < -1
    ensures r.NegInf? <==> salesCount == -1
    ensures r.Finite? <==> salesCount >= 0
    ensures r.Finite? ==> 0.0 <= r.v <= 40.0
  {
    LogPositive(log10, salesCount as real + 1.0);
    MinWith(Scale(LogOf(log10, salesCount as real + 1.0), 10.0), 40.0)
  }

  /** The stock term: a twenty-fifth of the stock, up to 20, and nothing
      unless the stock is positive. */
  function StockTerm(stock: int): (r: real)
    ensures 0.0 <= r <= 20.0
    ensures r == 0.0 <==> stock <= 0
    ensures r == 20.0 <==> stock >= 500
  {
    if stock > 0 then Min(stock as real / 500.0 * 20.0, 20.0) else 0.0
  }

  /** More sales never lower popularity. */
  lemma PopularityMonotoneInSales(p: Product, sales: int, log10: real -> real)
    requires IsLogarithm(log10)
    requires 0 <= p.salesCount <= sales
    ensures PopularityScore(p, log10).Finite? && PopularityScore(p.(salesCount := sales), log10).Finite?
    ensures PopularityScore(p, log10).v <= PopularityScore(p.(salesCount := sales), log10).v
  {
    var x, y := SalesTerm(p.salesCount, log10), SalesTerm(sales, log10);
    LogMonotone(log10, p.salesCount as real + 1.0, sales as real + 1.0);
    assert x.v <= y.v;
    var rest := p.rating / 5.0 * 40.0 + StockTerm(p.stock);
    assert PopularityScore(p, log10).v == Min(x.v + rest, 100.0);
    assert PopularityScore(p.(salesCount := sales), log10).v == Min(y.v + rest, 100.0);
  }

  /** Without stock there is no stock term: every non-positive stock scores as 0. */
  lemma PopularityIgnoresMissingStock(p: Product, log10: real -> real)
    requires IsLogarithm(log10)
    requires p.stock <= 0
    ensures PopularityScore(p, log10) == PopularityScore(p.(stock := 0), log10)
  {
    assert StockTerm(p.stock) == StockTerm(0);
  }

  /** `calculateQualityScore`: rating (up to 50), return-rate allowance (up to
      30) and complaint allowance (up to 20). */
  function QualityScore(p: Product): (r: real)
    ensures r <= 100.0
    ensures p.rating >= 0.0 ==> r >= 0.0
  {
    var rating := p.rating / 5.0 * 50.0;
    var returnAllowance := Max(30.0 - p.returnRate * 3.0, 0.0);
    var complaintAllowance := Max(20.0 - Min(p.complaintCount as real * 2.0, 20.0), 0.0);
    Min(rating + returnAllowance + complaintAllowance, 100.0)
  }

  /** More returns or more complaints never raise quality. */
  lemma QualityMonotone(p: Product, returnRate: real, complaintCount: int)
    requires p.returnRate <= returnRate && p.complaintCount <= complaintCount
    ensures QualityScore(p.(returnRate := returnRate, complaintCount := complaintCount)) <= QualityScore(p)
  {
  }

  /** The price tier bonus of `calculateValueScore`. */
  function TierBonus(price: real): (r: real)
    ensures r == 30.0 <==> price < 10000.0
    ensures r == 20.0 <==> 10000.0 <= price < 50000.0
    ensures r == 10.0 <==> 50000.0 <= price < 150000.0
    ensures r == 5.0 <==> price >= 150000.0
  {
    if price < 10000.0 then 30.0
    else if price < 50000.0 then 20.0
    else if price < 150000.0 then 10.0
    else 5.0
  }

  /** A dearer product never gets a larger tier bonus. */
  lemma TierBonusAntitone(a: real, b: real)
    requires a <= b
    ensures TierBonus(b) <= TierBonus(a)
  {
  }

  /** The discount term of `calculateValueScore`: 30 points at a 50% discount
      or more. A zero MRP divides by zero: `-Infinity` for a positive price,
      `NaN` for a zero price, and the full 30 for a negative one. */
  function DiscountTerm(p: Product): (r: Ext)
    ensures r.Finite? <==> p.mrp != 0.0 || p.price < 0.0
    ensures r.NaN? <==> p.mrp == 0.0 && p.price == 0.0
    ensures r.NegInf? <==> p.mrp == 0.0 && p.price > 0.0
    ensures r.Finite? ==> r.v <= 30.0
    ensures p.mrp > 0.0 && p.price <= p.mrp ==> r.Finite? && r.v >= 0.0
  {
    var discount := Scale(Quotient(p.mrp - p.price, p.mrp), 100.0);
    DiscountNonNegative(p.mrp, p.price);
    MinWith(Scale(Scale(discount, 1.0 / 50.0), 30.0), 30.0)
  }

  lemma DiscountNonNegative(mrp: real, price: real)
    ensures mrp > 0.0 && price <= mrp ==> (mrp - price) / mrp * 100.0 >= 0.0
  {
  }

  /** The value-for-money term: ten times the rating over `log10(price + 1)`,
      up to 40. A zero price divides by `log10(1) = 0`, which gives the full
      40 for a positive rating and `NaN` for a zero one; a price of -1 divides
      by `-Infinity`, and a price below -1 takes the logarithm of a negative
      number. */
  function RatingValueTerm(p: Product, log10: real -> real): (r: Ext)
    requires IsLogarithm(log10)
    ensures r.NaN? <==> (p.price == 0.0 && p.rating == 0.0) || p.price < -1.0
    ensures r.NegInf? <==> p.price == 0.0 && p.rating < 0.0
    ensures !r.PosInf?
    ensures r.Finite? ==> r.v <= 40.0
    ensures p.price > 0.0 && p.rating >= 0.0 ==> r.Finite? && r.v >= 0.0
    ensures p.price == 0.0 && p.rating > 0.0 ==> r == Finite(40.0)
  {
    var ratio := QuotientBy(p.rating, LogOf(log10, p.price + 1.0));
    RatioCases(p, log10);
    MinWith(Scale(ratio, 10.0), 40.0)
  }

  /** `rating / log10(price + 1)` case by case. */
  lemma RatioCases(p: Product, log10: real -> real)
    requires IsLogarithm(log10)
    ensures var ratio := QuotientBy(p.rating, LogOf(log10, p.price + 1.0));
            && (ratio.NaN? <==> (p.price == 0.0 && p.rating == 0.0) || p.price < -1.0)
            && (ratio.NegInf? <==> p.price == 0.0 && p.rating < 0.0)
            && (ratio.PosInf? <==> p.price == 0.0 && p.rating > 0.0)
            && (p.price > 0.0 && p.rating >= 0.0 ==> ratio.Finite? && ratio.v >= 0.0)
  {
    var x := p.price + 1.0;
    LogSign(log10, x);
    if p.price > 0.0 {
      assert log10(x) > 0.0;
      if p.rating >= 0.0 {
        assert p.rating / log10(x) >= 0.0;
      }
    } else if p.price == 0.0 {
      assert log10(x) == 0.0;
    } else if p.price > -1.0 {
      assert log10(x) < 0.0;
    }
  }

  /** `calculateValueScore`: the discount term, the rating-for-price term and
      the tier bonus, capped at 100. A zero price or a zero MRP can make it
      `-Infinity` or `NaN`. */
  function ValueScore(p: Product, log10: real -> real): (r: Ext)
    requires IsLogarithm(log10)
    ensures r.NaN? <==> ValueUndefined(p)
    ensures r.NegInf? <==> !ValueUndefined(p) && ((p.mrp == 0.0 && p.price > 0.0) || (p.price == 0.0 && p.rating < 0.0))
    ensures !r.PosInf?
    ensures r.Finite? ==> r.v <= 100.0
    ensures 0.0 < p.price <= p.mrp && p.rating >= 0.0 ==> r.Finite? && r.v >= TierBonus(p.price)
    ensures p.price == 0.0 && p.mrp > 0.0 && p.rating > 0.0 ==> r == Finite(100.0)
  {
    MinWith(Add(Add(DiscountTerm(p), RatingValueTerm(p, log10)), Finite(TierBonus(p.price))), 100.0)
  }

  /** The products whose value score is `NaN`: `0 / 0` in the discount or in
      the rating-for-price ratio, or the logarithm of a negative number. */
  predicate ValueUndefined(p: Product) {
    || (p.mrp == 0.0 && p.price == 0.0)
    || (p.price == 0.0 && p.rating == 0.0)
    || p.price < -1.0
  }

  /** `calculateRecencyScore`: a base of 50, a newness bonus at the 30, 90 and
      365 day thresholds, and 20 more for a `latest` query on a product younger
      than 180 days. */
  function RecencyScore(ageDays: int, intent: Intent): (r: real)
    ensures 50.0 <= r <= 95.0
    ensures intent != Latest || ageDays >= 180 ==>
              && (r == 75.0 <==> ageDays < 30)
              && (r == 65.0 <==> 30 <= ageDays < 90)
              && (r == 55.0 <==> 90 <= ageDays < 365)
              && (r == 50.0 <==> ageDays >= 365)
    ensures r > 75.0 ==> intent == Latest && ageDays < 180
    ensures intent == Latest && ageDays < 180 ==> r >= 70.0
  {
    var newness := if ageDays < 30 then 25.0 else if ageDays < 90 then 15.0
                   else if ageDays < 365 then 5.0 else 0.0;
    var latest := if intent == Latest && ageDays < 180 then 20.0 else 0.0;
    Min(50.0 + newness + latest, 100.0)
  }

  /** A `latest` query adds exactly 20 to the score of a product younger than
      180 days, and nothing to an older one. */
  lemma RecencyLatestBonus(ageDays: int)
    ensures ageDays < 180 ==> RecencyScore(ageDays, Latest) == RecencyScore(ageDays, General) + 20.0
    ensures ageDays >= 180 ==> RecencyScore(ageDays, Latest) == RecencyScore(ageDays, General)
  {
  }

  /** Older products never score higher on recency. */
  lemma RecencyAntitone(a: int, b: int, intent: Intent)
    requires a <= b
    ensures RecencyScore(b, intent) <= RecencyScore(a, intent)
  {
  }

  // ---------------------------------------------------------------------------
  // Weights and the comprehensive score

  datatype Components = Components(relevance: real, popularity: real, quality: real, value: real, recency: real)

  datatype Weights = Weights(relevance: real, popularity: real, quality: real, value: real, recency: real)

  /** Non-negative weights that add up to one. */
  predicate IsConvex(w: Weights) {
    && w.relevance >= 0.0 && w.popularity >= 0.0 && w.quality >= 0.0
    && w.value >= 0.0 && w.recency >= 0.0
    && w.relevance + w.popularity + w.quality + w.value + w.recency == 1.0
  }

  const DefaultWeights := Weights(0.35, 0.25, 0.20, 0.15, 0.05)

  /** The weight profile `calculateComprehensiveScore` picks for an intent;
      a general query keeps the defaults. */
  function WeightsFor(intent: Intent): (w: Weights)
    ensures IsConvex(w)
    ensures intent == General ==> w == DefaultWeights
    ensures intent == Budget ==> w.value == 0.30
    ensures intent == Premium || intent == Quality ==> w.quality >= 0.30
    ensures intent == Latest ==> w.recency == 0.25
  {
    match intent
    case Budget => Weights(0.30, 0.15, 0.20, 0.30, 0.05)
    case Premium => Weights(0.30, 0.20, 0.30, 0.15, 0.05)
    case Latest => Weights(0.35, 0.20, 0.15, 0.05, 0.25)
    case Quality => Weights(0.30, 0.15, 0.40, 0.10, 0.05)
    case General => DefaultWeights
  }

  function Combine(c: Components, w: Weights): real {
    c.relevance * w.relevance + c.popularity * w.popularity + c.quality * w.quality
    + c.value * w.value + c.recency * w.recency
  }

  predicate ComponentsWithin(c: Components, lo: real, hi: real) {
    && lo <= c.relevance <= hi && lo <= c.popularity <= hi && lo <= c.quality <= hi
    && lo <= c.value <= hi && lo <= c.recency <= hi
  }

  /** A convex combination stays within the bounds of its components. */
  lemma CombineWithin(c: Components, w: Weights, lo: real, hi: real)
    requires IsConvex(w) && ComponentsWithin(c, lo, hi)
    ensures lo <= Combine(c, w) <= hi
  {
    CombineAbove(c, w, lo);
    CombineBelow(c, w, hi);
  }

  lemma CombineAbove(c: Components, w: Weights, lo: real)
    requires IsConvex(w)
    requires lo <= c.relevance && lo <= c.popularity && lo <= c.quality && lo <= c.value && lo <= c.recency
    ensures lo <= Combine(c, w)
  {
    var d1 := Gap(c.relevance, lo, w.relevance);
    var d2 := Gap(c.popularity, lo, w.popularity);
    var d3 := Gap(c.quality, lo, w.quality);
    var d4 := Gap(c.value, lo, w.value);
    var d5 := Gap(c.recency, lo, w.recency);
    calc {
      Combine(c, w);
      lo * w.relevance + d1 + lo * w.popularity + d2 + lo * w.quality + d3
        + lo * w.value + d4 + lo * w.recency + d5;
      lo * (w.relevance + w.popularity + w.quality + w.value + w.recency) + (d1 + d2 + d3 + d4 + d5);
      lo + (d1 + d2 + d3 + d4 + d5);
    }
  }

  lemma CombineBelow(c: Components, w: Weights, hi: real)
    requires IsConvex(w)
    requires c.relevance <= hi && c.popularity <= hi && c.quality <= hi && c.value <= hi && c.recency <= hi
    ensures Combine(c, w) <= hi
  {
    var d1 := Gap(hi, c.relevance, w.relevance);
    var d2 := Gap(hi, c.popularity, w.popularity);
    var d3 := Gap(hi, c.quality, w.quality);
    var d4 := Gap(hi, c.value, w.value);
    var d5 := Gap(hi, c.recency, w.recency);
    calc {
      hi;
      hi * (w.relevance + w.popularity + w.quality + w.value + w.recency);
      hi * w.relevance + hi * w.popularity + hi * w.quality + hi * w.value + hi * w.recency;
      Combine(c, w) + (d1 + d2 + d3 + d4 + d5);
    }
  }

  /** Scaling by a non-negative weight keeps order: the gap `d` is what
      separates the two scaled values. */
  lemma Gap(x: real, y: real, w: real) returns (d: real)
    requires w >= 0.0 && y <= x
    ensures d >= 0.0 && x * w == y * w + d
  {
    d := (x - y) * w;
  }

  /** The five component scores of a product whose popularity and value
      scores are numbers. */
  function ComponentsOf(p: Product, query: string, intent: Intent, now: int,
                        log10: real -> real, render: Metadata -> string): Components
    requires IsLogarithm(log10) && PopularityScore(p, log10).Finite? && ValueScore(p, log10).Finite?
  {
    Components(RelevanceScore(p, query, render), PopularityScore(p, log10).v, QualityScore(p),
               ValueScore(p, log10).v, RecencyScore(AgeDays(now, p.createdAt), intent))
  }

  /** The products whose comprehensive score is `NaN`: those whose value
      score is `NaN` and those with a sales count below -1. */
  predicate ScoreUndefined(p: Product) {
    ValueUndefined(p) || p.salesCount < -1
  }

  /** The products whose comprehensive score is `-Infinity`: a sales count of
      -1, or a value score of `-Infinity`, when nothing makes it `NaN`. */
  predicate ScoreNegInf(p: Product) {
    && !ScoreUndefined(p)
    && (p.salesCount == -1 || (p.mrp == 0.0 && p.price > 0.0) || (p.price == 0.0 && p.rating < 0.0))
  }

  /** `calculateComprehensiveScore(...).finalScore` read back as a number: the
      intent's weighted average of the components, rounded to two decimals.
      Every weight is positive, so a popularity or value score of `-Infinity`
      or `NaN` carries through the sum, `toFixed(2)` and `parseFloat`, and
      `NaN` wins over `-Infinity`. */
  function ComprehensiveScore(p: Product, query: string, intent: Intent, now: int,
                              log10: real -> real, render: Metadata -> string): (r: Ext)
    requires IsLogarithm(log10)
    ensures r.NaN? <==> ScoreUndefined(p)
    ensures r.NegInf? <==> ScoreNegInf(p)
    ensures r.Finite? <==> PopularityScore(p, log10).Finite? && ValueScore(p, log10).Finite?
    ensures r.Finite? ==> TwoDecimals(r.v)
    ensures r.Finite? ==>
              forall lo: real, hi: real {:trigger ComponentsWithin(ComponentsOf(p, query, intent, now, log10, render), lo, hi)} ::
                ComponentsWithin(ComponentsOf(p, query, intent, now, log10, render), lo, hi) ==>
                  lo - 0.005 < r.v <= hi + 0.005
  {
    var popularity := PopularityScore(p, log10);
    var value := ValueScore(p, log10);
    if popularity.Finite? && value.Finite? then
      var c := ComponentsOf(p, query, intent, now, log10, render);
      var w := WeightsFor(intent);
      assert forall lo: real, hi: real :: ComponentsWithin(c, lo, hi) ==> lo <= Combine(c, w) <= hi by {
        forall lo: real, hi: real | ComponentsWithin(c, lo, hi) ensures lo <= Combine(c, w) <= hi {
          CombineWithin(c, w, lo, hi);
        }
      }
      Finite(Round2(Combine(c, w)))
    else Add(popularity, value)
  }

  /** For a product whose fields are in their documented ranges and whose
      price is positive and does not exceed its MRP, every component is a
      number in [0, 100], and so is the comprehensive score. */
  lemma ComprehensiveInRange(p: Product, query: string, intent: Intent, now: int,
                             log10: real -> real, render: Metadata -> string)
    requires IsLogarithm(log10) && 0.0 < p.price <= p.mrp
    requires 0.0 <= p.rating <= 5.0 && p.salesCount >= 0
    ensures ComprehensiveScore(p, query, intent, now, log10, render).Finite?
    ensures -0.005 < ComprehensiveScore(p, query, intent, now, log10, render).v <= 100.005
  {
    var c := ComponentsOf(p, query, intent, now, log10, render);
    assert ComponentsWithin(c, 0.0, 100.0);
  }

  // ---------------------------------------------------------------------------
  // Boosts and penalties

  const CategoryBoosts: map<string, real> := map[
    "Mobile Phones" := 1.1, "Laptops" := 1.05, "Headphones" := 1.0,
    "Tablets" := 0.95, "Smart Watches" := 0.95, "Phone Accessories" := 0.9]

  const BrandBoosts: map<string, real> := map[
    "Apple" := 1.15, "Samsung" := 1.10, "Sony" := 1.08, "Lenovo" := 1.05,
    "Dell" := 1.05, "Xiaomi" := 0.95, "Boat" := 0.90]

  /** `boosts[key] || 1.0`: the listed factor, or 1 for an unlisted key. */
  function Lookup(table: map<string, real>, key: string): (r: real)
    ensures key !in table ==> r == 1.0
    ensures key in table && table[key] != 0.0 ==> r == table[key]
  {
    if key in table && table[key] != 0.0 then table[key] else 1.0
  }

  /** Every listed category and brand factor lies between 0.9 and 1.15. */
  lemma BoostTablesBounded(category: string, brand: string)
    ensures 0.9 <= Lookup(CategoryBoosts, category) <= 1.1
    ensures 0.9 <= Lookup(BrandBoosts, brand) <= 1.15
  {
  }

  /** `applyStockPenalty` as a factor. */
  function StockFactor(stock: int): (f: real)
    ensures f == 0.5 <==> stock == 0
    ensures f == 0.75 <==> stock != 0 && stock < 10
    ensures f == 1.05 <==> stock > 500
    ensures f == 1.0 <==> 10 <= stock <= 500
  {
    if stock == 0 then 0.5
    else if stock < 10 then 0.75
    else if stock > 500 then 1.05
    else 1.0
  }

  /** `applyFreshnessPenalty` as a factor. */
  function FreshnessFactor(ageDays: int, salesCount: int): (f: real)
    ensures f == 0.7 <==> ageDays > 730 && salesCount < 100
    ensures f == 1.0 <==> !(ageDays > 730 && salesCount < 100)
  {
    if ageDays > 730 && salesCount < 100 then 0.7 else 1.0
  }

  /** Each of the four factors lies in its range. */
  lemma FactorsBounded(p: Product, ageDays: int)
    ensures 0.9 <= Lookup(CategoryBoosts, p.category) <= 1.1
    ensures 0.9 <= Lookup(BrandBoosts, p.brand) <= 1.15
    ensures 0.5 <= StockFactor(p.stock) <= 1.05
    ensures 0.7 <= FreshnessFactor(ageDays, p.salesCount) <= 1.0
  {
    BoostTablesBounded(p.category, p.brand);
  }

  /** The factors `applyAllAdjustments` applies in turn: the category boost,
      the brand boost, the stock penalty and the freshness penalty. */
  function Factors(p: Product, ageDays: int): seq<real> {
    [Lookup(CategoryBoosts, p.category), Lookup(BrandBoosts, p.brand),
     StockFactor(p.stock), FreshnessFactor(ageDays, p.salesCount)]
  }

  /** The product of a sequence of factors. */
  function FactorProduct(fs: seq<real>): real
    decreases |fs|
  {
    if |fs| == 0 then 1.0 else fs[0] * FactorProduct(fs[1..])
  }

  lemma ProductOfFour(a: real, b: real, c: real, d: real)
    ensures FactorProduct([a, b, c, d]) == a * b * c * d
  {
    var fs := [a, b, c, d];
    assert fs[1..][1..][1..][1..] == [];
    assert FactorProduct(fs[1..][1..][1..]) == d;
    assert FactorProduct(fs[1..][1..]) == c * d;
    assert FactorProduct(fs[1..]) == b * (c * d);
  }

  /** The combined multiplier: the product of the four factors, between
      `0.5 * 0.9 * 0.9 * 0.7` and `1.1 * 1.15 * 1.05`. */
  function AdjustmentFactor(p: Product, ageDays: int): (f: real)
    ensures f == FactorProduct(Factors(p, ageDays))
    ensures 0.5 * 0.9 * 0.9 * 0.7 <= f <= 1.1 * 1.15 * 1.05
  {
    FactorsBounded(p, ageDays);
    ProductBounded(Factors(p, ageDays));
    FactorProduct(Factors(p, ageDays))
  }

  lemma ProductBounded(fs: seq<real>)
    requires |fs| == 4
    requires 0.9 <= fs[0] <= 1.1 && 0.9 <= fs[1] <= 1.15 && 0.5 <= fs[2] <= 1.05 && 0.7 <= fs[3] <= 1.0
    ensures 0.5 * 0.9 * 0.9 * 0.7 <= FactorProduct(fs) <= 1.1 * 1.15 * 1.05
  {
    assert fs == [fs[0], fs[1], fs[2], fs[3]];
    ProductOfFour(fs[0], fs[1], fs[2], fs[3]);
    FactorBounds(fs[0], fs[1], fs[2], fs[3]);
  }

  lemma FactorBounds(a: real, b: real, c: real, d: real)
    requires 0.9 <= a <= 1.1 && 0.9 <= b <= 1.15 && 0.5 <= c <= 1.05 && 0.7 <= d <= 1.0
    ensures 0.5 * 0.9 * 0.9 * 0.7 <= a * b * c * d <= 1.1 * 1.15 * 1.05
  {
    MulMonotone(0.9, a, 0.9, b);
    MulMonotone(a, 1.1, b, 1.15);
    MulMonotone(0.9 * 0.9, a * b, 0.5, c);
    MulMonotone(a * b, 1.1 * 1.15, c, 1.05);
    MulMonotone(0.9 * 0.9 * 0.5, a * b * c, 0.7, d);
    MulMonotone(a * b * c, 1.1 * 1.15 * 1.05, d, 1.0);
  }

  lemma MulMonotone(a1: real, a2: real, b1: real, b2: real)
    requires 0.0 <= a1 <= a2 && 0.0 <= b1 <= b2
    ensures a1 * b1 <= a2 * b2
  {
    assert a1 * b1 <= a2 * b1;
  }

  /** `applyAllAdjustments`: the score times each factor in turn, capped at
      100. Over exact reals multiplying the factors in one after the other is
      multiplying by their product, `AdjustmentFactor`. */
  function ApplyAllAdjustments(score: real, p: Product, ageDays: int): (r: real)
    ensures r == Min(score * AdjustmentFactor(p, ageDays), 100.0)
    ensures r <= 100.0
    ensures score >= 0.0 ==> 0.0 <= r
    ensures score >= 0.0 ==> r <= score * (1.1 * 1.15 * 1.05)
  {
    Scaled(score, AdjustmentFactor(p, ageDays))
  }

  /** A score times a positive factor of at most `1.1 * 1.15 * 1.05`,
      capped at 100. */
  function Scaled(score: real, f: real): (r: real)
    requires 0.0 <= f <= 1.1 * 1.15 * 1.05
    ensures r == Min(score * f, 100.0)
    ensures r <= 100.0
    ensures score >= 0.0 ==> 0.0 <= r
    ensures score >= 0.0 ==> r <= score * (1.1 * 1.15 * 1.05)
  {
    assert score >= 0.0 ==> score * f <= score * (1.1 * 1.15 * 1.05) by {
      if score >= 0.0 {
        MulMonotone(score, score, f, 1.1 * 1.15 * 1.05);
      }
    }
    Min(score * f, 100.0)
  }

  /** Adjustments keep the order of scores for one product. */
  lemma AdjustmentsMonotone(s1: real, s2: real, p: Product, ageDays: int)
    requires s1 <= s2
    ensures ApplyAllAdjustments(s1, p, ageDays) <= ApplyAllAdjustments(s2, p, ageDays)
  {
    ScaledMonotone(s1, s2, AdjustmentFactor(p, ageDays));
  }

  lemma ScaledMonotone(s1: real, s2: real, f: real)
    requires s1 <= s2 && 0.0 <= f <= 1.1 * 1.15 * 1.05
    ensures Scaled(s1, f) <= Scaled(s2, f)
  {
    var a, b := ScaleMonotone(s1, s2, f);
    MinMonotone(a, b, 100.0);
    assert Scaled(s1, f) == Min(a, 100.0) && Scaled(s2, f) == Min(b, 100.0);
  }

  lemma MinMonotone(a: real, b: real, c: real)
    requires a <= b
    ensures Min(a, c) <= Min(b, c)
  {
  }

  lemma ScaleMonotone(s1: real, s2: real, f: real) returns (a: real, b: real)
    requires s1 <= s2 && f >= 0.0
    ensures a == s1 * f && b == s2 * f && a <= b
  {
    a, b := s1 * f, s2 * f;
    assert b - a == (s2 - s1) * f;
  }

  /** A product in a neutral category and brand, with ordinary stock and
      recent enough or selling, keeps its score up to the cap. */
  lemma AdjustmentsNeutral(score: real, p: Product, ageDays: int)
    requires p.category == "Headphones" && p.brand !in BrandBoosts
    requires 10 <= p.stock <= 500 && (ageDays <= 730 || p.salesCount >= 100)
    ensures ApplyAllAdjustments(score, p, ageDays) == Min(score, 100.0)
  {
    assert Factors(p, ageDays) == [1.0, 1.0, 1.0, 1.0];
    ProductOfFour(1.0, 1.0, 1.0, 1.0);
  }

  /** An Apple phone out of stock, more than two years old and with fewer
      than 100 sales takes every extreme factor: 1.1, 1.15, 0.5 and 0.7. */
  lemma AdjustmentsExtreme(score: real, p: Product, ageDays: int)
    requires p.category == "Mobile Phones" && p.brand == "Apple"
    requires p.stock == 0 && ageDays > 730 && p.salesCount < 100
    ensures ApplyAllAdjustments(score, p, ageDays) == Min(score * 1.1 * 1.15 * 0.5 * 0.7, 100.0)
  {
    assert Factors(p, ageDays) == [1.1, 1.15, 0.5, 0.7];
    ProductOfFour(1.1, 1.15, 0.5, 0.7);
  }

  // ---------------------------------------------------------------------------
  // Ranking

  datatype Algorithm = Comprehensive | Bm25 | TfIdf | OtherAlgorithm

  /** The `ranking` breakdown of a ranked item; the popularity and value
      scores may have left the reals. */
  datatype Breakdown = Breakdown(relevance: real, popularity: Ext, quality: real, value: Ext, recency: real)

  datatype RankedItem = RankedItem(product: Product, score: Ext, ranking: Breakdown)

  function BreakdownOf(p: Product, query: string, intent: Intent, now: int,
                       log10: real -> real, render: Metadata -> string): Breakdown
    requires IsLogarithm(log10)
  {
    Breakdown(RelevanceScore(p, query, render), PopularityScore(p, log10), QualityScore(p),
              ValueScore(p, log10), RecencyScore(AgeDays(now, p.createdAt), intent))
  }

  /** The score before adjustments. Every algorithm other than the
      comprehensive one uses the relevance score. */
  function BaseScore(p: Product, query: string, intent: Intent, algorithm: Algorithm, now: int,
                     log10: real -> real, render: Metadata -> string): Ext
    requires IsLogarithm(log10)
  {
    if algorithm == Comprehensive then ComprehensiveScore(p, query, intent, now, log10, render)
    else Finite(RelevanceScore(p, query, render))
  }

  /** The `bm25` and `tfidf` branches score exactly like any other
      non-comprehensive algorithm, with a number in [0, 95] whatever the
      product's price and MRP. */
  lemma NonComprehensiveAgree(p: Product, query: string, intent: Intent, a1: Algorithm, a2: Algorithm,
                              now: int, log10: real -> real, render: Metadata -> string)
    requires IsLogarithm(log10)
    requires a1 != Comprehensive && a2 != Comprehensive
    ensures BaseScore(p, query, intent, a1, now, log10, render)
         == BaseScore(p, query, intent, a2, now, log10, render)
    ensures BaseScore(p, query, intent, a1, now, log10, render).Finite?
    ensures 0.0 <= BaseScore(p, query, intent, a1, now, log10, render).v <= 95.0
  {
  }

  /** `applyAllAdjustments` on any JavaScript number: a number is adjusted as
      above, `Infinity` is capped at 100, and `-Infinity` and `NaN` stay. */
  function AdjustedScore(score: Ext, p: Product, ageDays: int): (r: Ext)
    ensures !r.PosInf?
    ensures r.Finite? ==> r.v <= 100.0
    ensures score.Finite? ==> r == Finite(ApplyAllAdjustments(score.v, p, ageDays))
    ensures score.PosInf? ==> r == Finite(100.0)
    ensures r.NegInf? <==> score.NegInf?
    ensures r.NaN? <==> score.NaN?
  {
    if score.Finite? then Finite(ApplyAllAdjustments(score.v, p, ageDays))
    else MinWith(score, 100.0)
  }

  /** One element of the `products.map(...)` step: the product, its adjusted
      score and its component breakdown. */
  function ScoreItem(p: Product, query: string, intent: Intent, algorithm: Algorithm, now: int,
                     log10: real -> real, render: Metadata -> string): (item: RankedItem)
    requires IsLogarithm(log10)
    ensures item.product == p
    ensures item.ranking == BreakdownOf(p, query, intent, now, log10, render)
    ensures !item.score.PosInf? && (item.score.Finite? ==> item.score.v <= 100.0)
    ensures algorithm != Comprehensive ==> item.score.Finite? && 0.0 <= item.score.v
    ensures item.score.NaN? <==> algorithm == Comprehensive && ScoreUndefined(p)
    ensures item.score.NegInf? <==> algorithm == Comprehensive && ScoreNegInf(p)
  {
    var base := BaseScore(p, query, intent, algorithm, now, log10, render);
    RankedItem(p, AdjustedScore(base, p, AgeDays(now, p.createdAt)),
               BreakdownOf(p, query, intent, now, log10, render))
  }

  /** The order `b.score - a.score` imposes: numbers by value, `-Infinity`
      below every number and equal to itself. `NaN` compares equal to
      everything, which is no order at all; the model ranks it lowest. */
  predicate RanksAtLeast(a: Ext, b: Ext) {
    match a
    case PosInf => true
    case Finite(x) => !b.PosInf? && (b.Finite? ==> x >= b.v)
    case NegInf => b.NegInf? || b.NaN?
    case NaN => b.NaN?
  }

  /** The sort key of an item with a numeric score. */
  function ItemScore(item: RankedItem): real {
    if item.score.Finite? then item.score.v else 0.0
  }

  predicate HasNumericScore(item: RankedItem) {
    item.score.Finite?
  }

  predicate HasNonNumericScore(item: RankedItem) {
    !item.score.Finite?
  }

  predicate HasNegInfScore(item: RankedItem) {
    item.score.NegInf?
  }

  predicate HasOtherScore(item: RankedItem) {
    !item.score.NegInf?
  }

  function ProductOf(item: RankedItem): Product {
    item.product
  }

  /** The stable sort by `b.score - a.score`: numeric scores in descending
      order, then the `-Infinity` scores in their original order, then the
      `NaN` scores in their original order. */
  function OrderByScore(items: seq<RankedItem>): (r: seq<RankedItem>)
    requires forall i :: 0 <= i < |items| ==> !items[i].score.PosInf?
    ensures |r| == |items|
    ensures multiset(r) == multiset(items)
    ensures forall i, j :: 0 <= i < j < |r| ==> RanksAtLeast(r[i].score, r[j].score)
  {
    var numbers := Seqs.Filter(items, HasNumericScore);
    var rest := Seqs.Filter(items, HasNonNumericScore);
    var negInf := Seqs.Filter(rest, HasNegInfScore);
    var nan := Seqs.Filter(rest, HasOtherScore);
    var sorted := Seqs.SortDesc(numbers, ItemScore);
    GroupsPermute(items, sorted, negInf, nan);
    GroupScores(items, sorted, negInf, nan);
    ScoreGroupsOrdered(sorted, negInf, nan);
    sorted + negInf + nan
  }

  /** The three groups of `OrderByScore` together hold every item once. */
  lemma GroupsPermute(items: seq<RankedItem>, sorted: seq<RankedItem>, negInf: seq<RankedItem>, nan: seq<RankedItem>)
    requires sorted == Seqs.SortDesc(Seqs.Filter(items, HasNumericScore), ItemScore)
    requires negInf == Seqs.Filter(Seqs.Filter(items, HasNonNumericScore), HasNegInfScore)
    requires nan == Seqs.Filter(Seqs.Filter(items, HasNonNumericScore), HasOtherScore)
    ensures multiset(sorted + negInf + nan) == multiset(items)
    ensures |sorted + negInf + nan| == |items|
  {
    var numbers := Seqs.Filter(items, HasNumericScore);
    var rest := Seqs.Filter(items, HasNonNumericScore);
    SplitNumeric(items);
    SplitNegInf(rest);
    Seqs.ConcatPermutes(sorted, negInf, nan, numbers, rest, items);
  }

  lemma SplitNumeric(items: seq<RankedItem>)
    ensures multiset(Seqs.Filter(items, HasNumericScore)) + multiset(Seqs.Filter(items, HasNonNumericScore))
            == multiset(items)
  {
    Seqs.FilterSplit(items, HasNumericScore, HasNonNumericScore);
  }

  lemma SplitNegInf(rest: seq<RankedItem>)
    ensures multiset(Seqs.Filter(rest, HasNegInfScore)) + multiset(Seqs.Filter(rest, HasOtherScore))
            == multiset(rest)
  {
    Seqs.FilterSplit(rest, HasNegInfScore, HasOtherScore);
  }

  /** What the three groups of `OrderByScore` hold. */
  lemma GroupScores(items: seq<RankedItem>, sorted: seq<RankedItem>, negInf: seq<RankedItem>, nan: seq<RankedItem>)
    requires forall i :: 0 <= i < |items| ==> !items[i].score.PosInf?
    requires sorted == Seqs.SortDesc(Seqs.Filter(items, HasNumericScore), ItemScore)
    requires negInf == Seqs.Filter(Seqs.Filter(items, HasNonNumericScore), HasNegInfScore)
    requires nan == Seqs.Filter(Seqs.Filter(items, HasNonNumericScore), HasOtherScore)
    ensures forall i :: 0 <= i < |sorted| ==> sorted[i].score.Finite?
    ensures forall i :: 0 <= i < |negInf| ==> negInf[i].score.NegInf?
    ensures forall i :: 0 <= i < |nan| ==> nan[i].score.NaN?
  {
    var numbers := Seqs.Filter(items, HasNumericScore);
    var rest := Seqs.Filter(items, HasNonNumericScore);
    forall i | 0 <= i < |sorted| ensures sorted[i].score.Finite? {
      assert sorted[i] in multiset(numbers);
      assert sorted[i] in numbers;
    }
    forall i | 0 <= i < |nan| ensures nan[i].score.NaN? {
      assert nan[i] in rest;
      assert nan[i] in items;
    }
  }

  /** Numbers in descending order, then `-Infinity`s, then `NaN`s, are
      ordered by `RanksAtLeast`. */
  lemma ScoreGroupsOrdered(sorted: seq<RankedItem>, negInf: seq<RankedItem>, nan: seq<RankedItem>)
    requires Seqs.SortedDesc(sorted, ItemScore)
    requires forall i :: 0 <= i < |sorted| ==> sorted[i].score.Finite?
    requires forall i :: 0 <= i < |negInf| ==> negInf[i].score.NegInf?
    requires forall i :: 0 <= i < |nan| ==> nan[i].score.NaN?
    ensures forall i, j :: 0 <= i < j < |sorted + negInf + nan| ==>
              RanksAtLeast((sorted + negInf + nan)[i].score, (sorted + negInf + nan)[j].score)
  {
    var r := sorted + negInf + nan;
    forall i, j | 0 <= i < j < |r| ensures RanksAtLeast(r[i].score, r[j].score) {
      if j < |sorted| {
        assert ItemScore(sorted[i]) >= ItemScore(sorted[j]);
      } else if i < |sorted| {
        assert r[i].score.Finite?;
      } else if j < |sorted| + |negInf| {
        assert r[i] == negInf[i - |sorted|] && r[j] == negInf[j - |sorted|];
      } else if i < |sorted| + |negInf| {
        assert r[i] == negInf[i - |sorted|] && r[j] == nan[j - |sorted| - |negInf|];
      } else {
        assert r[i] == nan[i - |sorted| - |negInf|] && r[j] == nan[j - |sorted| - |negInf|];
      }
    }
  }

  /** `rankProducts`: every product scored and adjusted, then sorted by
      descending score. */
  function RankProducts(products: seq<Product>, query: string, intent: Intent, algorithm: Algorithm,
                        now: int, log10: real -> real, render: Metadata -> string): (r: seq<RankedItem>)
    requires IsLogarithm(log10)
    ensures |products| == 0 ==> r == []
    ensures |r| == |products|
    ensures multiset(Seqs.MapSeq(r, ProductOf)) == multiset(products)
    ensures forall i, j :: 0 <= i < j < |r| ==> RanksAtLeast(r[i].score, r[j].score)
    ensures forall i :: 0 <= i < |r| ==>
              r[i] == ScoreItem(r[i].product, query, intent, algorithm, now, log10, render)
  {
    if |products| == 0 then []
    else
      var items := ScoreAll(products, query, intent, algorithm, now, log10, render);
      var r := OrderByScore(items);
      Seqs.MapSeqMultiset(r, items, ProductOf);
      SortedStillScored(r, items, query, intent, algorithm, now, log10, render);
      r
  }

  /** The `products.map(...)` step: one scored item per product, in order. */
  function ScoreAll(products: seq<Product>, query: string, intent: Intent, algorithm: Algorithm,
                    now: int, log10: real -> real, render: Metadata -> string): (items: seq<RankedItem>)
    requires IsLogarithm(log10)
    ensures Seqs.MapSeq(items, ProductOf) == products
    ensures forall k :: 0 <= k < |items| ==>
              && items[k] == ScoreItem(items[k].product, query, intent, algorithm, now, log10, render)
              && !items[k].score.PosInf?
  {
    seq(|products|, k requires 0 <= k < |products| =>
      ScoreItem(products[k], query, intent, algorithm, now, log10, render))
  }

  /** Reordering scored items keeps every item a scored item. */
  lemma SortedStillScored(r: seq<RankedItem>, items: seq<RankedItem>, query: string, intent: Intent,
                          algorithm: Algorithm, now: int, log10: real -> real, render: Metadata -> string)
    requires IsLogarithm(log10) && multiset(r) == multiset(items)
    requires forall k :: 0 <= k < |items| ==>
               items[k] == ScoreItem(items[k].product, query, intent, algorithm, now, log10, render)
    ensures forall i :: 0 <= i < |r| ==>
              r[i] == ScoreItem(r[i].product, query, intent, algorithm, now, log10, render)
  {
    forall i | 0 <= i < |r|
      ensures r[i] == ScoreItem(r[i].product, query, intent, algorithm, now, log10, render)
    {
      assert r[i] in multiset(r);
      assert r[i] in items;
    }
  }

  // ---------------------------------------------------------------------------
  // Diversification

  function BrandCount(items: seq<RankedItem>, brand: string): nat {
    Seqs.CountWhere(items, (it: RankedItem) => it.product.brand == brand)
  }

  function CategoryCount(items: seq<RankedItem>, category: string): nat {
    Seqs.CountWhere(items, (it: RankedItem) => it.product.category == category)
  }

  function Get(counts: map<string, nat>, key: string): nat {
    if key in counts then counts[key] else 0
  }

  /** No brand has more than 3 and no category more than 5 items. */
  ghost predicate WithinCaps(items: seq<RankedItem>) {
    && (forall b :: BrandCount(items, b) <= 3)
    && (forall c :: CategoryCount(items, c) <= 5)
  }

  /** Every item of `ranked[..upTo]` was kept, or its brand or category is full. */
  predicate PassedOverFull(ranked: seq<RankedItem>, upTo: int, kept: seq<RankedItem>)
    requires 0 <= upTo <= |ranked|
  {
    forall j :: 0 <= j < upTo ==>
      || ranked[j] in kept
      || BrandCount(kept, ranked[j].product.brand) >= 3
      || CategoryCount(kept, ranked[j].product.category) >= 5
  }

  /** The two tallies agree with the counts over the kept items. */
  ghost predicate Tallied(brandCounts: map<string, nat>, categoryCounts: map<string, nat>, kept: seq<RankedItem>) {
    && (forall b :: Get(brandCounts, b) == BrandCount(kept, b))
    && (forall c :: Get(categoryCounts, c) == CategoryCount(kept, c))
  }

  /** The greedy walk of `getDiversifiedResults` as a recursive reference:
      `kept` holds the items kept so far. The next item is kept while its
      brand has fewer than 3 and its category fewer than 5 kept items, and
      the walk ends as soon as `limit` items are kept. */
  function Diversify(ranked: seq<RankedItem>, kept: seq<RankedItem>, limit: int): seq<RankedItem>
    decreases |ranked|
  {
    if |ranked| == 0 then kept
    else if BrandCount(kept, ranked[0].product.brand) < 3 && CategoryCount(kept, ranked[0].product.category) < 5 then
      if |kept| + 1 >= limit then kept + [ranked[0]]
      else Diversify(ranked[1..], kept + [ranked[0]], limit)
    else Diversify(ranked[1..], kept, limit)
  }

  /** One step of the walk at position `i`. */
  lemma DiversifyStep(ranked: seq<RankedItem>, i: nat, kept: seq<RankedItem>, limit: int)
    requires i < |ranked|
    ensures Diversify(ranked[i..], kept, limit)
         == if BrandCount(kept, ranked[i].product.brand) < 3 && CategoryCount(kept, ranked[i].product.category) < 5 then
              if |kept| + 1 >= limit then kept + [ranked[i]]
              else Diversify(ranked[i + 1..], kept + [ranked[i]], limit)
            else Diversify(ranked[i + 1..], kept, limit)
  {
    assert ranked[i..][0] == ranked[i] && ranked[i..][1..] == ranked[i + 1..];
  }

  /** The walk only ever appends to what it has kept. */
  lemma {:induction false} DiversifyExtends(ranked: seq<RankedItem>, kept: seq<RankedItem>, limit: int)
    ensures |kept| <= |Diversify(ranked, kept, limit)|
    ensures Diversify(ranked, kept, limit)[..|kept|] == kept
    decreases |ranked|
  {
    if |ranked| > 0 {
      var item := ranked[0];
      if BrandCount(kept, item.product.brand) < 3 && CategoryCount(kept, item.product.category) < 5 {
        if |kept| + 1 < limit {
          DiversifyExtends(ranked[1..], kept + [item], limit);
          assert (kept + [item])[..|kept|] == kept;
        }
      } else {
        DiversifyExtends(ranked[1..], kept, limit);
      }
    }
  }

  /** The best-ranked item always heads the diversified results, whatever
      the limit. */
  lemma DiversifyKeepsTop(ranked: seq<RankedItem>, limit: int)
    requires |ranked| > 0
    ensures |Diversify(ranked, [], limit)| > 0 && Diversify(ranked, [], limit)[0] == ranked[0]
  {
    var empty: seq<RankedItem> := [];
    assert BrandCount(empty, ranked[0].product.brand) == 0;
    assert CategoryCount(empty, ranked[0].product.category) == 0;
    assert empty + [ranked[0]] == [ranked[0]];
    if 1 < limit {
      DiversifyExtends(ranked[1..], [ranked[0]], limit);
    }
  }

  /** `getDiversifiedResults`: walk the ranked items in order, keep an item
      while its brand has fewer than 3 and its category fewer than 5 kept
      items, and stop once `limit` items are kept. The limit is tested only
      after an item is kept, so a limit below 1 still keeps one item. */
  method GetDiversifiedResults(ranked: seq<RankedItem>, limit: int) returns (results: seq<RankedItem>)
    ensures results == Diversify(ranked, [], limit)
    ensures Seqs.IsSubsequence(results, ranked)
    ensures forall b :: BrandCount(results, b) <= 3
    ensures forall c :: CategoryCount(results, c) <= 5
    ensures |results| <= if limit >= 1 then limit else 1
    ensures |results| < limit || (limit < 1 && |results| == 0) ==>
              forall j :: 0 <= j < |ranked| ==>
                || ranked[j] in results
                || BrandCount(results, ranked[j].product.brand) >= 3
                || CategoryCount(results, ranked[j].product.category) >= 5
  {
    results := [];
    var brandCounts: map<string, nat> := map[];
    var categoryCounts: map<string, nat> := map[];
    var i := 0;
    while i < |ranked|
      invariant Walked(ranked, limit, i, results, brandCounts, categoryCounts)
    {
      var full;
      results, brandCounts, categoryCounts, full := Visit(ranked, limit, i, results, brandCounts, categoryCounts);
      if full {
        Seqs.SubsequencePrefix(ranked, i + 1);
        Seqs.SubsequenceTrans(results, ranked[..i + 1], ranked);
        return;
      }
      i := i + 1;
    }
    assert ranked[..i] == ranked;
  }

  /** The state of the walk after the first `i` items: what it kept, the two
      tallies, and what the reference walk still does from there. */
  ghost predicate Walked(ranked: seq<RankedItem>, limit: int, i: int, results: seq<RankedItem>,
                         brandCounts: map<string, nat>, categoryCounts: map<string, nat>) {
    && 0 <= i <= |ranked|
    && Seqs.IsSubsequence(results, ranked[..i])
    && Tallied(brandCounts, categoryCounts, results)
    && WithinCaps(results)
    && (|results| < limit || (limit < 1 && |results| == 0))
    && PassedOverFull(ranked, i, results)
    && Diversify(ranked[i..], results, limit) == Diversify(ranked, [], limit)
  }

  /** One item of the walk: keep it or pass over it. `full` reports that the
      limit is reached, and then `results'` is the whole answer. */
  method Visit(ranked: seq<RankedItem>, limit: int, i: int, results: seq<RankedItem>,
               brandCounts: map<string, nat>, categoryCounts: map<string, nat>)
    returns (results': seq<RankedItem>, brandCounts': map<string, nat>,
             categoryCounts': map<string, nat>, full: bool)
    requires i < |ranked| && Walked(ranked, limit, i, results, brandCounts, categoryCounts)
    ensures full ==>
      && results' == Diversify(ranked, [], limit)
      && Seqs.IsSubsequence(results', ranked[..i + 1])
      && WithinCaps(results')
      && limit <= |results'| <= if limit >= 1 then limit else 1
    ensures !full ==> Walked(ranked, limit, i + 1, results', brandCounts', categoryCounts')
  {
    var item := ranked[i];
    if Get(brandCounts, item.product.brand) < 3 && Get(categoryCounts, item.product.category) < 5 {
      results' := results + [item];
      assert Diversify(ranked[i..], results, limit)
          == if |results'| >= limit then results' else Diversify(ranked[i + 1..], results', limit) by {
        DiversifyStep(ranked, i, results, limit);
      }
      KeepStep(ranked, i, results);
      brandCounts', categoryCounts' := Tally(brandCounts, categoryCounts, results, item);
      SubsequenceKeep(ranked, i, results);
      full := |results'| >= limit;
    } else {
      results', brandCounts', categoryCounts', full := results, brandCounts, categoryCounts, false;
      assert Diversify(ranked[i..], results, limit) == Diversify(ranked[i + 1..], results, limit) by {
        DiversifyStep(ranked, i, results, limit);
      }
      SkipStep(ranked, i, results, brandCounts, categoryCounts);
      SubsequenceSkip(ranked, i, results);
    }
  }

  /** Keeping item `i` extends a subsequence of the items before it. */
  lemma SubsequenceKeep(ranked: seq<RankedItem>, i: nat, before: seq<RankedItem>)
    requires i < |ranked| && Seqs.IsSubsequence(before, ranked[..i])
    ensures Seqs.IsSubsequence(before + [ranked[i]], ranked[..i + 1])
  {
    assert ranked[..i + 1] == ranked[..i] + [ranked[i]];
    Seqs.SubsequenceAppendBoth(before, ranked[..i], ranked[i]);
  }

  /** Passing over item `i` keeps a subsequence of the items up to it. */
  lemma SubsequenceSkip(ranked: seq<RankedItem>, i: nat, results: seq<RankedItem>)
    requires i < |ranked| && Seqs.IsSubsequence(results, ranked[..i])
    ensures Seqs.IsSubsequence(results, ranked[..i + 1])
  {
    assert ranked[..i + 1] == ranked[..i] + [ranked[i]];
    Seqs.SubsequenceExtend(results, ranked[..i], ranked[i]);
  }

  /** Updating the two tallies for a kept item keeps them equal to the counts. */
  method Tally(brandCounts: map<string, nat>, categoryCounts: map<string, nat>,
               before: seq<RankedItem>, item: RankedItem)
    returns (brands: map<string, nat>, categories: map<string, nat>)
    requires Tallied(brandCounts, categoryCounts, before)
    ensures Tallied(brands, categories, before + [item])
  {
    CountsAfterPush(before, item);
    brands := brandCounts[item.product.brand := Get(brandCounts, item.product.brand) + 1];
    categories := categoryCounts[item.product.category := Get(categoryCounts, item.product.category) + 1];
  }

  /** Keeping `ranked[i]` while its brand and category are below their caps
      keeps every cap and every earlier reason for passing an item over. */
  lemma KeepStep(ranked: seq<RankedItem>, i: int, before: seq<RankedItem>)
    requires 0 <= i < |ranked|
    requires WithinCaps(before) && PassedOverFull(ranked, i, before)
    requires BrandCount(before, ranked[i].product.brand) < 3
    requires CategoryCount(before, ranked[i].product.category) < 5
    ensures WithinCaps(before + [ranked[i]])
    ensures PassedOverFull(ranked, i + 1, before + [ranked[i]])
  {
    CountsAfterPush(before, ranked[i]);
  }

  /** Passing over `ranked[i]` because its brand or category is full keeps
      the record of passed-over items complete. */
  lemma SkipStep(ranked: seq<RankedItem>, i: int, kept: seq<RankedItem>,
                 brandCounts: map<string, nat>, categoryCounts: map<string, nat>)
    requires 0 <= i < |ranked|
    requires Tallied(brandCounts, categoryCounts, kept) && PassedOverFull(ranked, i, kept)
    requires !(Get(brandCounts, ranked[i].product.brand) < 3 && Get(categoryCounts, ranked[i].product.category) < 5)
    ensures PassedOverFull(ranked, i + 1, kept)
  {
  }

  /** Keeping one more item raises exactly its brand's and its category's count. */
  lemma CountsAfterPush(before: seq<RankedItem>, item: RankedItem)
    ensures forall b :: BrandCount(before + [item], b)
                        == BrandCount(before, b) + (if item.product.brand == b then 1 else 0)
    ensures forall c :: CategoryCount(before + [item], c)
                        == CategoryCount(before, c) + (if item.product.category == c then 1 else 0)
  {
    forall b {
      Seqs.CountWhereAppend(before, item, (it: RankedItem) => it.product.brand == b);
    }
    forall c {
      Seqs.CountWhereAppend(before, item, (it: RankedItem) => it.product.category == c);
    }
  }
}
