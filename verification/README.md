# Product search and ranking core, in Dafny

This project models the deterministic core of a product-search backend for Indian e-commerce listings. The backend:
- normalises and understands shopper queries ("sasta iPhone under 50k");
- scores products on five weighted signals and re-orders them;
- keeps an in-memory catalogue with category and brand indices;
- validates incoming requests and rate-limits each client;
- cleans up product text scraped from Amazon and Flipkart;
- reports statistics over a fixed catalogue table.

Every operation is a pure function over immutable values. The two stateful components, the product store and the rate limiter, are values that each operation threads through and returns.

Modules, one per source component:

| file | module | models |
|---|---|---|
| `wrappers.dfy` | `Wrappers` | `Option` / `Result` |
| `numeric.dfy` | `Numeric` | `Math.min/max/round/floor`; logarithms as monotone parameters |
| `seqs.dfy` | `Seqs` | subsequences, `filter`, counting, sums, the stable descending sort |
| `text.dfy` | `Text` | `toLowerCase` (ASCII), `trim`, `\s`, `includes`, `split`, word splitting, UTF-16 lengths and code-unit order |
| `js.dfy` | `Js` | loosely typed request values, `Number(...)`, truthiness, the loose `>` |
| `edit_distance.dfy` | `EditDistance` | `levenshteinDistance` |
| `search_utils.dfy` | `SearchUtils` | the rest of `utils/searchUtils.js` |
| `product.dfy` | `ProductModel` | `models/Product.js` |
| `product_store.dfy` | `ProductStore` | `models/ProductStore.js` |
| `product_service.dfy` | `ProductService` | `services/ProductService.js` |
| `ranking.dfy` | `Ranking` | multi-factor ranker, boosts and penalties, `rankProducts`, the diversifier |
| `classical_rankers.dfy` | `ClassicalRankers` | `BM25Ranker`, `TFIDFRanker` |
| `validation.dfy` | `Middleware` | `middleware/ValidationMiddleware.js` |
| `web_scraper.dfy` | `WebScraper` | the text helpers, deduplication and brand templates of `services/WebScraper.js` |
| `scraper_markdown.dfy` | `ScraperMarkdown` | the line-driven Amazon and Flipkart markdown parsers |
| `catalog_stats.dfy` | `CatalogStats` | `data/CatalogStats.js` |

Design choices:
- **Numbers.** Source numbers are `real`; ids, counts and timestamps are `int`.
- **Clock and logarithms.** `Date.now()` is an explicit `now` parameter. `Math.log10` and `Math.log` are function parameters constrained by `Numeric.IsLogarithm`: the function is 0 at 1 and strictly increasing.
- **Regular expressions.** Each regular expression on the search and validation paths is written out as a scanner. The markdown parsers' line regexes, which recognise image, link and "M.R.P" fragments, are a `matcher` parameter that returns the captured groups of one line.
- **Rounding.** `toFixed(n)` and `Math.round` are rounding half up on exact reals.

Behaviours of the code that the model keeps on purpose:
- **`normalizeText` is not idempotent.** It trims before it drops punctuation, so `"! a"` becomes `" a"`.
- **`"iPhone"` vs `"ifone"`.** The code's edit distance for this pair is 2, so the similarity is 1 − 2/6.
- **The `bm25` and `tfidf` algorithms** of `rankProducts` call the relevance scorer, not the classical rankers.
- **TF-IDF scores are all 0.** `TFIDFRanker.calculateTF` divides an accumulator that is never incremented, so every term frequency is 0 and `rank` keeps the input order.
- **The diversifier tests its limit only after adding an item**, so a limit of 0 still yields one item.
- **`extractPrice` takes the first run of digits and commas.** When that run is a lone comma, as on Amazon's "Price, product page" line, the price is 0.
- **Brand keywords are matched as substrings and tried in table order.** Any query containing "mi" (for example "premium") selects Xiaomi phones unless an earlier keyword matched.
- **Amounts may arrive as strings.** The "price above MRP" check then compares the two strings by code units, not as numbers.
- **A filter value of 0 is falsy** and imposes no constraint.

## Model

| member | source | states |
|---|---|---|
| EditDistance.Levenshtein | utils/searchUtils.js:24-44 | the row-by-row matrix fill returns the edit distance of the recursive definition; an empty argument gives the other's length |
| EditDistance.NextRow | utils/searchUtils.js:32-41 | one pass of the inner loop turns row j−1 of the matrix into row j |
| EditDistance.DistanceProperties | utils/searchUtils.js:24-44 | distance(s,s)=0; distance("",t)=\|t\| and distance(s,"")=\|s\|; it lies between the length difference and the longer length; it is 0 iff the strings are equal; it is symmetric |
| EditDistance.DistLowerBound | utils/searchUtils.js:24-44 | every matrix cell is at least the difference of the prefix lengths |
| EditDistance.DistUpperBound | utils/searchUtils.js:24-44 | every matrix cell is at most the longer prefix length |
| EditDistance.DistZeroIff | utils/searchUtils.js:24-44 | a cell is 0 exactly when the two prefixes are equal |
| EditDistance.DistSymmetric | utils/searchUtils.js:24-44 | swapping the strings transposes the matrix |
| EditDistance.IphoneIfone | utils/searchUtils.js:24-44 | the distance from "iphone" to "ifone" is 2 |
| Text.Utf16Units | middleware/ValidationMiddleware.js:18 | a character is one UTF-16 code unit below U+10000 and otherwise a high and a low surrogate that encode it |
| Text.Utf16Length | middleware/ValidationMiddleware.js:18 | a string's `length` is at least its number of characters, and equal to it when every character is below U+10000 |
| Text.StrLessIsUnitOrder | data/CatalogStats.js:74 | comparing strings character by character gives the same order as comparing their UTF-16 code units |
| Text.WordsContained | utils/searchUtils.js:89 | every word of a whitespace split occurs in the split text |
| Js.ToNumber | middleware/ValidationMiddleware.js:34 | `Number(v)`: a number is itself, a string is read by the string grammar, undefined gives NaN and null gives 0; only strings give an infinity |
| Js.NumberCases | middleware/ValidationMiddleware.js:34 | a blank string reads as 0; after trimming, "Infinity" and "+Infinity" are the only +Infinity and "-Infinity" the only −Infinity; decimal digits read as their value; a 0x, 0o or 0b literal is finite iff it has digits and all are valid in that radix |
| Js.IntRoundTrip | middleware/ValidationMiddleware.js:34 | reading back the decimal rendering of any integer gives that integer |
| Js.NonNegativeDigits | middleware/ValidationMiddleware.js:34 | decimal digits read as their value |
| Js.NegativeDigits | middleware/ValidationMiddleware.js:34 | a minus sign before decimal digits reads as the negated value |
| Js.SignedLiteral | middleware/ValidationMiddleware.js:34 | a minus sign before an unsigned decimal literal negates its value |
| Js.UnsignedLiteral | middleware/ValidationMiddleware.js:34 | a trimmed string starting with a digit and no radix prefix reads as its decimal literal |
| Js.WithExponent | middleware/ValidationMiddleware.js:34 | a literal with an exponent is its mantissa scaled by that power of ten |
| Js.PositiveExponent | middleware/ValidationMiddleware.js:34 | digits, `e` and digits read as the mantissa times ten to the exponent |
| Js.NegativeExponent | middleware/ValidationMiddleware.js:34 | with `e-` the mantissa is divided by ten to the exponent |
| Js.DanglingExponentIsNaN | middleware/ValidationMiddleware.js:34 | digits followed by a bare `e` read as NaN |
| Js.HexLiteral | middleware/ValidationMiddleware.js:34 | a 0x literal reads its hexadecimal digits of either case |
| Js.SignedHexIsNaN | middleware/ValidationMiddleware.js:34 | a sign before a radix prefix gives NaN |
| SearchUtils.NormalizeText | utils/searchUtils.js:10-15 | the output keeps, in order, exactly the word characters and whitespace of the lower-cased, trimmed input: it is a subsequence of that text whose length is the number of such characters; so it has no upper-case ASCII letter and is no longer than the input |
| SearchUtils.NormalizeDetermined | utils/searchUtils.js:10-15 | any subsequence of the lower-cased, trimmed text that holds only kept characters and as many as the text has is the normalised text, so the contract above determines the result |
| SearchUtils.NormalizeNotIdempotent | utils/searchUtils.js:10-15 | normalising "! a" gives " a", and normalising that again gives "a", so normalisation is not idempotent |
| SearchUtils.StringSimilarity | utils/searchUtils.js:52-61 | the similarity is in [0,1], and it is exactly 1 iff both inputs normalise to the same string (including both empty) |
| SearchUtils.SimilarityOfDistance | utils/searchUtils.js:55-60 | for non-empty inputs the similarity is 1 − distance / longer length |
| SearchUtils.SimilarityIphoneIfone | utils/searchUtils.js:52-61 | similarity("iPhone","ifone") = 1 − 2/6 |
| SearchUtils.TextMatchesProperties | utils/searchUtils.js:69-73 | every text matches itself, and a query that normalises to "" matches every text |
| SearchUtils.ExtractKeywords | utils/searchUtils.js:80-91 | the keywords are an order-preserving subsequence of the lower-cased whitespace-separated words, each longer than one UTF-16 code unit and not a stop word, and there are exactly as many as such words: every such word is kept, with its repetitions, and no other |
| SearchUtils.KeywordsLowerCase | utils/searchUtils.js:80-91 | no keyword contains an upper-case ASCII letter |
| SearchUtils.KeywordsDetermined | utils/searchUtils.js:80-91 | any order-preserving selection of the words that holds only keywords (more than one UTF-16 code unit, not a stop word) and as many as there are is the keyword list, so the contract above determines the result |
| SearchUtils.KeywordsExample | utils/searchUtils.js:80-91 | "sasta wala iPhone 16 pro" gives [sasta, iphone, 16, pro] |
| SearchUtils.ExtractPriceFromQuery | utils/searchUtils.js:99-123 | the result is null iff the query has no digit; one match gives {0, p}; several give a minimum and a maximum drawn from the matched values that bound all of them |
| SearchUtils.PriceMatchesEmptyIff | utils/searchUtils.js:101-114 | the digit-run scanner finds no price exactly when the query has no digit |
| SearchUtils.PriceStep | utils/searchUtils.js:101-112 | a leading digit run is read as its value, times 1000 when a "k" unit follows |
| SearchUtils.PriceExampleUnder | utils/searchUtils.js:99-123 | "iPhone under 50k rupees" gives {min 0, max 50000} |
| SearchUtils.PriceExampleBetween | utils/searchUtils.js:99-123 | "between 20k and 50k" gives {min 20000, max 50000} |
| SearchUtils.DetectQueryIntent | utils/searchUtils.js:131-148 | the lists are tried in the order budget, premium, latest, quality: the intent is one of them iff its list has a term in the lower-cased query and no earlier list has one, and general iff no list has one |
| SearchUtils.BudgetFirst | utils/searchUtils.js:134-136 | "cheap premium phone" is budget: the budget list is tried first |
| SearchUtils.SubstringIntent | utils/searchUtils.js:137-139 | "protein" is premium because terms match as substrings ("pro") |
| SearchUtils.SimpleRelevance | utils/searchUtils.js:156-187 | the simple relevance score always lies in [15,100] |
| SearchUtils.KeywordShare | utils/searchUtils.js:164-177 | the keyword term is in [0,30]; it is 0 without keywords and 30 iff every keyword occurs in the title-plus-description text |
| SearchUtils.SimpleRelevanceExactTitle | utils/searchUtils.js:156-187 | a title that normalises like the query scores at least 55 |
| SearchUtils.ValidateProductData | utils/searchUtils.js:208-239 | the data is valid iff there is no error; each of the six field checks adds its one message exactly when that field is bad |
| SearchUtils.NaNPassesValidation | utils/searchUtils.js:208-239 | NaN amounts pass, because only `< 0` and `> 5` are tested |
| Numeric.Round2 | services/RankingService.js:332 | `toFixed(2)` read back is a whole number of hundredths within half a hundredth of its argument, and keeps [0,5] and [0,100] |
| Numeric.TwoDecimalsUnique | models/ProductStore.js:205-207 | at most one whole number of hundredths lies within half a hundredth of a value, so the rounding contract fixes the two-decimal result |
| ProductModel.ClampRating | models/Product.js:41 | the stored rating is the input clamped into [0,5] |
| ProductModel.NewProduct | models/Product.js:20-54 | the constructor clamps the rating and supplies the defaults: rating 0, stock 0, INR, Electronics, Unknown, empty metadata, counts 0, created and updated now |
| ProductModel.DiscountPercentage | models/Product.js:60-63 | 0 when the MRP is 0; otherwise (mrp−price)/mrp×100 rounded to the nearest integer; within [0,100] when 0 ≤ price ≤ mrp |
| ProductModel.CustomerSatisfaction | models/Product.js:77-81 | the score is non-negative, at most the rating share of 100, and at most 100 for ratings up to 5 |
| ProductModel.PopularityIndexMonotone | models/Product.js:87-90 | the index is non-negative, non-decreasing in salesCount, and equal for all salesCount ≤ 1 |
| ProductModel.UpdateMetadata | models/Product.js:96-99 | the merged keys are the union; new keys take the new values; other old keys keep theirs; only metadata and updatedAt change |
| ProductModel.ToJson | models/Product.js:105-123 | the JSON carries every stored field unchanged except the two timestamps, which it omits, and adds the product's discount as discountPercentage |
| ProductModel.ToJsonDeterminesProduct | models/Product.js:105-123 | two products with the same JSON differ at most in their timestamps |
| ProductStore.Empty | models/ProductStore.js:9-21 | a new store is valid, has counter 0 and holds no product |
| ProductStore.AddProduct | models/ProductStore.js:28-53 | a falsy id is replaced by counter+1, a fresh id that becomes the counter; an explicit id raises the counter only when larger; the product is stored under the returned id; every other id maps as before; the store invariant (every id ≤ counter, indices point at stored ids) is kept |
| ProductStore.AddProductIndexes | models/ProductStore.js:40-50 | the id is appended to its category's list and to its brand's list; every other list is unchanged |
| ProductStore.IndexQueriesAfterAdd | models/ProductStore.js:91-104 | after adding a new product, the category and brand queries return the old lists plus that product at the end |
| ProductStore.GetProductsByCategory | models/ProductStore.js:91-94 | one product per id in the category's index list, in list order, each the stored product under that id; an unknown category gives [] |
| ProductStore.GetProductsByBrand | models/ProductStore.js:101-104 | the same for the brand index |
| ProductStore.ReAddDuplicatesIndex | models/ProductStore.js:41-44 | re-adding a stored id appends it again, so the index list holds a duplicate |
| ProductStore.GetProductById | models/ProductStore.js:60-62 | a product is found iff its id is stored |
| ProductStore.UpdateProductMetadata | models/ProductStore.js:70-76 | an unknown id gives null and an unchanged store; a known id gets the merged metadata and nothing else changes |
| ProductStore.GetAllProducts | models/ProductStore.js:82-84 | the listing holds the stored products in insertion order |
| ProductStore.AllProductsComplete | models/ProductStore.js:82-84 | every stored product appears in the listing |
| ProductStore.AllProductsAfterAdd | models/ProductStore.js:28-53 | adding a new id appends its product to the listing |
| ProductStore.AllProductsAfterReAdd | models/ProductStore.js:38 | re-adding a stored id replaces it in place and keeps the listing's order and length |
| ProductStore.GetTotalProductCount | models/ProductStore.js:165-167 | the count is the length of the listing |
| ProductStore.GetAllCategories | models/ProductStore.js:173-175 | the categories are exactly the index keys, without duplicates |
| ProductStore.GetAllBrands | models/ProductStore.js:181-183 | the brands are exactly the index keys, without duplicates |
| ProductStore.SearchByTitle | models/ProductStore.js:111-116 | an order-preserving subsequence of the listing that holds exactly the products whose lower-cased title contains the lower-cased query |
| ProductStore.SearchByDescription | models/ProductStore.js:123-128 | the same for the description |
| ProductStore.FilterByPriceRange | models/ProductStore.js:136-140 | an order-preserving subsequence holding exactly the products with min ≤ price ≤ max; empty when min > max |
| ProductStore.FilterByRating | models/ProductStore.js:147-151 | an order-preserving subsequence holding exactly the products rated at least the minimum |
| ProductStore.GetInStockProducts | models/ProductStore.js:157-159 | an order-preserving subsequence holding exactly the products with stock > 0 |
| ProductStore.Clear | models/ProductStore.js:188-193 | the cleared store is valid, empty, with empty indices and counter 0 |
| ProductStore.ClearRestartsIds | models/ProductStore.js:188-193 | after clear, the next automatic id is 1 |
| ProductStore.GetStatistics | models/ProductStore.js:199-211 | the totals count stored ids, categories and brands; the in-stock count is the number of listed products with stock > 0; the total value is the sum of price × stock; the average rating lies within 0.005 of the mean of the listed ratings, is 0 for an empty store, and lies in [0,5] when every rating does |
| ProductStore.StatisticsAfterAdd | models/ProductStore.js:199-211 | adding a new product raises the total by one, the in-stock count by its stock test, and the total value by price×stock |
| ProductStore.MeanRating | models/ProductStore.js:205-207 | the average of no products is 0; otherwise it is a whole number of hundredths within 0.005 of the mean (above mean − 0.005, at most mean + 0.005), which by Numeric.TwoDecimalsUnique is the mean rounded half up to two decimals; ratings in [0,5] give an average in [0,5] |
| ProductService.CreateProduct | services/ProductService.js:15-49 | the call fails iff a required field is missing, naming the first missing one in the order title, description, price, mrp, rating, stock; otherwise the product is stored under the next automatic id with the given title, description, price, mrp and stock, the clamped rating, the given or default currency, category, brand, metadata and counts, and created now; no other id changes |
| ProductService.FirstMissing | services/ProductService.js:17-22 | finds the first required field that is undefined or null |
| ProductService.OrString | services/ProductService.js:32-34 | a missing or empty string falls back to the default |
| ProductService.GetProduct | services/ProductService.js:56-62 | fails with "Product with ID … not found" iff the id is unknown; otherwise returns the product's JSON |
| ProductService.UpdateProductMetadataChecked | services/ProductService.js:70-76 | fails with the not-found message iff the id is unknown; otherwise returns the merged product and a valid store |
| ProductService.GetAllProducts | services/ProductService.js:83-107 | an order-preserving subsequence of the store's listing holding exactly the products that pass every active filter |
| ProductService.FilterIf | services/ProductService.js:87-104 | a filter step keeps everything when inactive, and exactly the matching products when active |
| ProductService.ZeroBoundsFilterNothing | services/ProductService.js:93-101 | a minPrice, maxPrice or minRating of 0 gives the same result as no bound |
| ProductService.NoFiltersReturnsAll | services/ProductService.js:83-107 | with no active filter the store's listing is returned unchanged |
| Ranking.FoundShare | services/RankingService.js:146-148 | the share of query words found is the count of words the text contains over the number of words; it lies in [0,1], is 1 iff every word is found and 0 iff none is |
| Ranking.ShareOf | services/RankingService.js:146-148 | the share is the number of words satisfying the test over the number of words; it lies in [0,1], is 1 iff every word passes and 0 iff none does |
| Ranking.MatchPart | services/RankingService.js:142-158 | a title or description part equals its full weight iff the text contains the query; otherwise it is the partial weight times the share of query words the text contains, so at most the partial weight |
| Ranking.KeywordPart | services/RankingService.js:160-163 | without words longer than two UTF-16 code units the part is 0; otherwise it is 20 times the share of such words found in the title or the description, so it is in [0,20], 20 iff every such word is found and 0 iff none is |
| Ranking.RelevanceScore | services/RankingService.js:136-172 | the relevance score lies in [0,95] |
| Ranking.RelevanceFullMatch | services/RankingService.js:136-172 | a query found in title, description and metadata, with a long word, scores the maximum 95 |
| Ranking.RelevanceTitleHit | services/RankingService.js:142-144 | a query found in the title scores at least 40 |
| Ranking.PopularityScore | services/RankingService.js:178-195 | popularity is NaN iff salesCount < −1 (log10 of a negative number) and −Infinity iff salesCount = −1; it is never +Infinity, at most 100 when finite, and finite and non-negative for non-negative sales and ratings in [0,5] |
| Ranking.SalesTerm | services/RankingService.js:182 | the sales term is NaN iff salesCount < −1, −Infinity iff salesCount = −1, and otherwise finite and in [0,40] |
| Ranking.StockTerm | services/RankingService.js:189-192 | the stock term lies in [0,20]; it is 0 iff stock ≤ 0 and 20 iff stock ≥ 500 |
| Ranking.PopularityMonotoneInSales | services/RankingService.js:182 | for non-negative sales counts popularity is finite and does not decrease when salesCount grows (at −1 it is −Infinity and below that NaN, as PopularityScore states) |
| Ranking.PopularityIgnoresMissingStock | services/RankingService.js:189-192 | stock ≤ 0 contributes nothing |
| Ranking.QualityScore | services/RankingService.js:201-216 | quality is at most 100, and non-negative for a non-negative rating |
| Ranking.QualityMonotone | services/RankingService.js:208-213 | quality does not increase when the return rate or the complaint count grows |
| Ranking.TierBonus | services/RankingService.js:237-245 | the price tier gives 30, 20, 10 or 5 for prices below 10000, below 50000, below 150000, or higher |
| Ranking.TierBonusAntitone | services/RankingService.js:237-245 | a higher price never earns a larger tier bonus |
| Ranking.DiscountTerm | services/RankingService.js:225-228 | with an MRP of 0 the term is NaN for price 0 and −Infinity for a positive price; otherwise it is finite, at most 30, and non-negative when 0 < mrp and price ≤ mrp |
| Ranking.RatingValueTerm | services/RankingService.js:230-233 | the term is NaN iff price and rating are both 0 or the logarithm's argument is negative; −Infinity iff price 0 with a negative rating; never +Infinity; a finite term is at most 40, non-negative for a positive price and a non-negative rating, and exactly 40 for price 0 with a positive rating |
| Ranking.ValueScore | services/RankingService.js:222-248 | value is NaN iff a term is 0/0 or the logarithm's argument is negative; otherwise −Infinity iff the MRP is 0 with a positive price or the price is 0 with a negative rating; never +Infinity; a finite value is at most 100, at least the tier bonus when 0 < price ≤ mrp and rating ≥ 0, and exactly 100 for price 0, a positive MRP and a positive rating |
| Ranking.RecencyScore | services/RankingService.js:254-275 | recency lies in [50,95]; outside the latest intent's first 180 days it is 75 iff the age is under 30 days, 65 iff 30–89, 55 iff 90–364 and 50 iff 365 or more; above 75 only for the latest intent under 180 days, and at least 70 then |
| Ranking.RecencyLatestBonus | services/RankingService.js:254-275 | for the latest intent a product under 180 days old scores exactly 20 more than for any other intent, and the same from 180 days on |
| Ranking.RecencyAntitone | services/RankingService.js:258-272 | an older product never scores higher |
| Ranking.AgeDays | services/RankingService.js:258 | the age is the floor of the elapsed milliseconds over a day |
| Ranking.WeightsFor | services/RankingService.js:289-322 | every intent's weights are non-negative and sum to 1; the general intent keeps the default profile; budget puts 0.30 on value, premium and quality at least 0.30 on quality, latest 0.25 on recency |
| Ranking.CombineWithin | services/RankingService.js:324-329 | a convex combination of components in [lo,hi] stays in [lo,hi] |
| Ranking.ComprehensiveScore | services/RankingService.js:281-342 | the final score is NaN iff the value score is NaN or salesCount < −1; −Infinity iff otherwise salesCount = −1, or the MRP is 0 with a positive price, or the price is 0 with a negative rating; finite iff popularity and value are; a finite final score is a whole number of hundredths and lies within half a hundredth of every bound that all five components respect |
| Ranking.ComprehensiveInRange | services/RankingService.js:281-342 | for a positive price at most the MRP, a rating in [0,5] and non-negative sales, the final score is finite and in [0,100] up to the two-decimal rounding |
| Ranking.Lookup | services/RankingService.js:364 | an unlisted key gives multiplier 1.0 |
| Ranking.BoostTablesBounded | services/RankingService.js:354-385 | category boosts lie in [0.9,1.1] and brand boosts in [0.9,1.15] |
| Ranking.StockFactor | services/RankingService.js:391-400 | stock 0 gives 0.5, other stock below 10 gives 0.75, above 500 gives 1.05, and otherwise 1.0 |
| Ranking.FreshnessFactor | services/RankingService.js:406-414 | the factor is 0.7 iff the product is older than 730 days with fewer than 100 sales, and 1.0 otherwise |
| Ranking.AdjustmentFactor | services/RankingService.js:419-428 | the combined multiplier is the product of the category boost, the brand boost, the stock factor and the freshness factor, and lies between 0.5·0.9·0.9·0.7 and 1.1·1.15·1.05 |
| Ranking.ProductOfFour | services/RankingService.js:419-428 | the product of a list of four multipliers is a·b·c·d, so applying them in turn equals multiplying by their product |
| Ranking.ApplyAllAdjustments | services/RankingService.js:419-428 | the adjusted score is min(score · category boost · brand boost · stock factor · freshness factor, 100); so it is at most 100, and a non-negative score stays non-negative and is at most the score times the largest multiplier |
| Ranking.AdjustedScore | services/RankingService.js:419-428 | a finite score is adjusted by the multipliers; +Infinity is capped at 100; −Infinity and NaN pass through unchanged; the result is never +Infinity and at most 100 when finite |
| Ranking.AdjustmentsMonotone | services/RankingService.js:419-428 | adjustment preserves the order of scores |
| Ranking.AdjustmentsNeutral | services/RankingService.js:354-428 | a Headphones product of an unlisted brand with normal stock and no age penalty is only capped at 100 |
| Ranking.AdjustmentsExtreme | services/RankingService.js:354-428 | an out-of-stock Apple phone older than 730 days with fewer than 100 sales is scaled by 1.1 · 1.15 · 0.5 · 0.7 and capped at 100 |
| Ranking.NonComprehensiveAgree | services/RankingService.js:448-459 | the bm25, tfidf and unknown algorithms all use the relevance score, so they agree, and for every product it is finite and in [0,95] |
| Ranking.ScoreItem | services/RankingService.js:445-474 | each ranked item carries its product and the five component scores; its score is never +Infinity and at most 100 when finite; the non-comprehensive algorithms give a finite non-negative score; the score is NaN iff the algorithm is comprehensive and the value score is NaN or salesCount < −1, and −Infinity iff it is comprehensive and the product meets the −Infinity conditions of the final score |
| Ranking.OrderByScore | services/RankingService.js:478 | the sort returns a permutation of the items in which each item ranks at least as high as every later one: numeric scores in non-increasing order, then −Infinity, then NaN |
| Ranking.RankProducts | services/RankingService.js:439-479 | empty input gives []; otherwise the items are a permutation of the products, each scored as its product's item, with numeric scores in non-increasing order, then −Infinity, then NaN |
| Ranking.GetDiversifiedResults | services/RankingService.js:484-507 | the loop computes the greedy reference selection; the result is an order-preserving subsequence with at most 3 items per brand and 5 per category; its length is at most the limit (1 when the limit is below 1); when it stops short, every skipped item had its brand or category cap reached |
| Ranking.Visit | services/RankingService.js:491-503 | one loop iteration either keeps the loop invariant or stops with the full greedy selection, holding at least limit items |
| Ranking.DiversifyStep | services/RankingService.js:491-503 | the greedy selection keeps an item under both caps and stops once the limit is reached; it skips any other item |
| Ranking.DiversifyExtends | services/RankingService.js:484-507 | the greedy selection only appends to the items already kept |
| Ranking.DiversifyKeepsTop | services/RankingService.js:484-507 | the top-ranked item is always kept, first, whatever the limit |
| ClassicalRankers.AvgDocLength | services/RankingService.js:22-26 | the average length is 0 for an empty corpus and at least 1 otherwise |
| ClassicalRankers.DocFrequency | services/RankingService.js:29-36 | the document frequency is at most the corpus size, and 0 iff no document has the word |
| ClassicalRankers.Bm25Idf | services/RankingService.js:38-41 | the BM25 idf is non-negative, and positive iff some document has the word |
| ClassicalRankers.Bm25IdfAntitone | services/RankingService.js:39 | a word found in more documents never gets a larger idf |
| ClassicalRankers.WordFrequency | services/RankingService.js:52 | a word is found at most once per position of the document, plus one for an empty match at the end |
| ClassicalRankers.MatchCountPositive | services/RankingService.js:52 | the global search counts at least one match iff the word matches at some position from the starting one on |
| ClassicalRankers.Bm25TermBounds | services/RankingService.js:54-57 | a term contributes 0 when the word is absent, and otherwise lies strictly between 0 and idf·(k1+1) |
| ClassicalRankers.Bm25TermMonotone | services/RankingService.js:54-57 | a term does not decrease when the word occurs more often |
| ClassicalRankers.Bm25Score | services/RankingService.js:46-61 | a document's score is non-negative, and 0 over an empty corpus |
| ClassicalRankers.Bm25NoMatchScoresZero | services/RankingService.js:50-58 | a document with none of the query words scores 0 |
| ClassicalRankers.Bm25Rank | services/RankingService.js:44-64 | the result is a permutation of the document indices in non-increasing score order |
| ClassicalRankers.Bm25EmptyCorpusKeepsOrder | services/RankingService.js:44-64 | over an empty corpus every score is 0 and the documents keep their order |
| ClassicalRankers.RankIndices | services/RankingService.js:63 | the sort returns a permutation of the indices in non-increasing score order, and equal scores keep their index order, as the stable `sort` does |
| ClassicalRankers.TfIdfIdf | services/RankingService.js:89-91 | an unseen word gets idf 0 and a word in every document gets a negative idf |
| ClassicalRankers.TfIdfIdfRare | services/RankingService.js:89-91 | a word in some but fewer than n−1 documents gets a positive idf |
| ClassicalRankers.TermFrequencies | services/RankingService.js:96-106 | the table has exactly the text's words, and every frequency is 0 |
| ClassicalRankers.TfIdfScoreZero | services/RankingService.js:108-121 | every TF-IDF score is 0 |
| ClassicalRankers.TfIdfRank | services/RankingService.js:108-124 | the result is a permutation of the document indices in non-increasing score order |
| ClassicalRankers.TfIdfRankKeepsOrder | services/RankingService.js:108-124 | the ranking is always the identity order |
| Middleware.TextErrors | middleware/ValidationMiddleware.js:14-29 | a text field yields at most one message, none iff it is a string whose trimmed length in UTF-16 code units reaches the minimum and whose UTF-16 length stays within the maximum |
| Middleware.PriceErrors | middleware/ValidationMiddleware.js:32-38 | the price yields at most one message, none iff it is present and `Number(price)` is finite, at least 0 and at most 99999999 |
| Middleware.MrpErrors | middleware/ValidationMiddleware.js:41-49 | the MRP yields at most one message; none iff the MRP is acceptable and the price does not compare greater; the price-above-MRP message iff the MRP is acceptable and the price compares greater |
| Middleware.RatingErrors | middleware/ValidationMiddleware.js:52-56 | the rating yields a message iff it is missing or `Number(rating)` is NaN, infinite or outside [0,5] |
| Middleware.StockErrors | middleware/ValidationMiddleware.js:59-65 | the stock yields a message iff it is missing or `Number(stock)` is NaN, infinite, negative or not a whole number |
| Middleware.AmountRangeErrors | middleware/ValidationMiddleware.js:34-37 | a read amount passes iff it is finite and in [0,99999999]; NaN, −Infinity and negatives get the "positive number" message; any other failure, +Infinity included, gets the cap message |
| Middleware.RatingRangeErrors | middleware/ValidationMiddleware.js:54-55 | a read rating passes iff it is finite and in [0,5], and gets the range message otherwise |
| Middleware.StockRangeErrors | middleware/ValidationMiddleware.js:61-64 | a read stock passes iff it is finite, non-negative and whole; it gets the non-negative message iff it is NaN, −Infinity or negative, and the integer message otherwise |
| Middleware.ProductErrors | middleware/ValidationMiddleware.js:11-65 | the list is empty iff the body is acceptable; it holds at most one message per field, in field order |
| Middleware.ValidateProductInput | middleware/ValidationMiddleware.js:6-85 | only POST to "/" is inspected; the request passes iff the body is acceptable; otherwise a 400 carries the messages in field order, or "Bad Request" when the body cannot be read |
| Middleware.PriceAboveMrpReported | middleware/ValidationMiddleware.js:47-48 | the price-above-MRP message appears iff the MRP passes its own checks and the price compares greater |
| Middleware.ZeroAmountsAccepted | middleware/ValidationMiddleware.js:32-49 | price and MRP of 0 are accepted |
| Middleware.StringAmountsCompareAsText | middleware/ValidationMiddleware.js:47 | string amounts are compared as strings, so "9" is above "10" |
| Middleware.QueryErrors | middleware/ValidationMiddleware.js:97-103 | the query yields a message iff it is missing, not a string, blank after trimming, or longer than 500 UTF-16 code units |
| Middleware.LimitErrors | middleware/ValidationMiddleware.js:106-108 | a truthy limit must read as a finite number in [1,100]; a falsy limit passes |
| Middleware.OffsetErrors | middleware/ValidationMiddleware.js:111-113 | a truthy offset must read as a non-negative number, +Infinity included; a falsy offset passes |
| Middleware.LimitRangeErrors | middleware/ValidationMiddleware.js:106-108 | a read limit passes iff it is finite and in [1,100] |
| Middleware.OffsetRangeErrors | middleware/ValidationMiddleware.js:111-113 | a read offset passes iff it is +Infinity or a finite number of at least 0 |
| Middleware.OneOfErrors | middleware/ValidationMiddleware.js:116-125 | a truthy sortBy or order must be one of the allowed strings |
| Middleware.SearchErrors | middleware/ValidationMiddleware.js:94-125 | the list is empty iff the parameters are acceptable; at most one message per parameter, in order |
| Middleware.MissingQueryReported | middleware/ValidationMiddleware.js:97-98 | "Search query is required" appears iff the query is falsy or not a string |
| Middleware.ValidateSearchInput | middleware/ValidationMiddleware.js:90-144 | the request passes iff the parameters are acceptable; otherwise a 400 carries the messages |
| Middleware.ZeroLimit | middleware/ValidationMiddleware.js:106 | a numeric 0 limit is falsy and passes, while a non-empty string reading as 0 is rejected |
| Middleware.Recent | middleware/ValidationMiddleware.js:169 | pruning keeps, in order, exactly the timestamps younger than the window |
| Middleware.CeilDiv1000 | middleware/ValidationMiddleware.js:176 | retryAfter is the window in seconds, rounded up |
| Middleware.Handle | middleware/ValidationMiddleware.js:157-187 | the request is refused iff the pruned window already holds maxRequests timestamps; a refusal stores the pruned window; an admission appends now and reports remaining = max − count ≥ 0; other clients are untouched; a window never exceeds maxRequests |
| Middleware.BurstAdmitsRoom | middleware/ValidationMiddleware.js:157-187 | n requests at the same instant admit exactly min(n, room left in the window) |
| Middleware.RetryAtOnceRefused | middleware/ValidationMiddleware.js:169-179 | a refused request retried at the same instant is refused again and changes nothing |
| Middleware.HandleError | middleware/ValidationMiddleware.js:194-237 | the status is err.status or 500, forced to 400 for a JSON body syntax error, a TypeError, a RangeError or a validation error; the error type is then "JSON Parse Error", "Type Error", "Range Error" or (overriding them) "Validation Error", otherwise err.name or "Error"; the message is the fixed JSON text for a body syntax error, otherwise err.message or "Internal Server Error" |
| WebScraper.ExtractPrice | services/WebScraper.js:502-511 | text with no digit gives 0 |
| WebScraper.ExtractPriceReadsNumber | services/WebScraper.js:502-511 | a number written in decimal after text without digits or commas is read back exactly |
| WebScraper.ExtractPriceRun | services/WebScraper.js:505-508 | the first run of digits and commas is read with its commas removed |
| WebScraper.ExtractPriceLoneComma | services/WebScraper.js:505-508 | a run that is a lone comma gives 0 |
| WebScraper.ExtractRating | services/WebScraper.js:518-522 | the rating is non-negative, and 0 for text with no digit |
| WebScraper.ExtractRatingReadsDecimal | services/WebScraper.js:520-521 | the first number with a fractional part is read as whole + fraction |
| WebScraper.ExtractRatingReadsInteger | services/WebScraper.js:520-521 | the first number without a fractional part is read as an integer |
| WebScraper.SanitizeText | services/WebScraper.js:557-559 | the result has no leading or trailing whitespace and only single spaces inside |
| WebScraper.SanitizeIdempotent | services/WebScraper.js:557-559 | sanitising twice equals sanitising once |
| WebScraper.SanitizeKeepsContent | services/WebScraper.js:557-559 | sanitising keeps every non-space character in order |
| WebScraper.DeriveBrand | services/WebScraper.js:566-569 | the brand is never empty: "Unknown" for a blank title, else the first word of the sanitised title |
| WebScraper.DeriveBrandOfSanitized | services/WebScraper.js:566-569 | deriving from the sanitised title gives the same brand |
| WebScraper.ToJinaUrl | services/WebScraper.js:135-138 | the result starts with the proxy prefix; the URL is the rest with at most one http:// or https:// in front, and the rest is the whole URL iff the URL starts with neither scheme |
| WebScraper.ToJinaUrlScheme | services/WebScraper.js:135-138 | for every string, putting http:// or https:// in front gives the same proxy address as the string alone, and a string starting with neither scheme is kept whole, so exactly one leading scheme is removed |
| WebScraper.BuildProduct | services/WebScraper.js:529-550 | title and description are the sanitised title; the brand is derived from it; price is kept and an mrp of 0 falls back to the price; the rating is kept; url and image are null iff empty and the given values otherwise; stock and counts are 0; INR, Electronics and the page's source name |
| WebScraper.TitleKey | services/WebScraper.js:626 | the key is the lower-cased title cut at 30 characters: the prefix of length min(title length, 30) |
| WebScraper.FirstPerKeyShape | services/WebScraper.js:621-632 | keeping the first product per key gives an order-preserving subsequence with distinct keys and the same set of keys |
| WebScraper.KeepFirstPerKey | services/WebScraper.js:622-632 | the loop with its seen-map computes the first-per-key sequence |
| WebScraper.DeduplicateProducts | services/WebScraper.js:621-635 | the result is the first min(20, n) products of the first-per-key sequence of length n, so all of it when n ≤ 20 |
| WebScraper.DeduplicatedShape | services/WebScraper.js:621-635 | any prefix of the first-per-key sequence is an order-preserving subsequence of the input with pairwise distinct keys |
| WebScraper.FirstNonEmpty | services/WebScraper.js:600-613 | the search returns [] iff no later keyword offers templates, and otherwise the offer of one such keyword with only empty offers before it |
| WebScraper.FindBrandSpecificProducts | services/WebScraper.js:577-614 | nothing is found iff no row of the eighteen-keyword table, in table order, both occurs in the query and has templates of its brand in its category; otherwise the first such row's templates of that brand are returned |
| WebScraper.BrandSpecificSound | services/WebScraper.js:577-614 | every returned template has the brand of a keyword that the query contains and comes from that keyword's category |
| WebScraper.MiQueryGivesXiaomiPhones | services/WebScraper.js:586-609 | a query containing "mi" but none of the seven earlier keywords returns the Xiaomi phone templates when there are any |
| WebScraper.PremiumMatchesMi | services/WebScraper.js:578-601 | "premium" contains "mi" and none of the earlier keywords |
| ScraperMarkdown.ParseMarkdown | services/WebScraper.js:245-362 | empty markdown gives []; every emitted product has a title, a positive price, the site's source name and, for Flipkart, mrp = price; there are at most as many products as link lines |
| ScraperMarkdown.StepOk | services/WebScraper.js:258-306 | one line keeps every entry and product well formed and opens at most one entry, only on a link line |
| ScraperMarkdown.FlushOk | services/WebScraper.js:251-256 | a flush emits only complete entries and never adds to the count of open and emitted items |
| ScraperMarkdown.ParseLinesOk | services/WebScraper.js:258-306 | over any lines the state stays well formed, and products plus the open entry never outnumber the link lines |
| ScraperMarkdown.OneLineNoProduct | services/WebScraper.js:245-310 | a one-line page emits nothing, because a listing needs a price line after its link |
| ScraperMarkdown.FlipkartListing | services/WebScraper.js:312-362 | a Flipkart link line followed by a rupee price line emits one product with the sanitised link text, that price as both price and mrp, rating 0 and the link URL |
| ScraperMarkdown.AmazonListing | services/WebScraper.js:245-310 | an Amazon image-caption link line followed by a price line emits one product titled with the caption, with the line's price and the M.R.P. value as mrp |
| CatalogStats.TotalEstimated | data/CatalogStats.js:43-45 | the total bounds every category's estimate |
| CatalogStats.TotalEstimatedAppend | data/CatalogStats.js:43-45 | the total of a concatenation is the sum of the totals |
| CatalogStats.CatalogTotal | data/CatalogStats.js:6-45 | the table's estimated total is 278 |
| CatalogStats.Percentage | data/CatalogStats.js:57 | the percentage is undefined iff the total is 0, and otherwise a non-negative p with p·total = count·100 |
| CatalogStats.ToFixed1ReadsBack | data/CatalogStats.js:57 | the one-decimal label reads back within 0.05 of the value |
| CatalogStats.PercentLabel | data/CatalogStats.js:57 | the label is the one-decimal number followed by "%" |
| CatalogStats.CategoryDistribution | data/CatalogStats.js:50-62 | one entry per category, in order, with its name, its estimated count and its percentage label |
| CatalogStats.PercentagesSumTo100 | data/CatalogStats.js:50-62 | the unformatted percentages of a non-empty catalogue sum to 100 |
| CatalogStats.InsertBrand | data/CatalogStats.js:68-71 | adding a brand to a sorted duplicate-free list keeps it so and adds exactly that brand |
| CatalogStats.AllBrands | data/CatalogStats.js:67-75 | the brand list is strictly sorted by code units and holds exactly the brands of some category |
| CatalogStats.StrictlySortedDistinct | data/CatalogStats.js:74 | a strictly sorted list has no duplicates |
| CatalogStats.UpperCaseFirst | data/CatalogStats.js:74 | code-unit order puts "ASUS" before "Apple" |

## Left out

- Network and DOM access is not modelled: `fetchHtml` (axios), the `scrape*` entry points and `Promise.allSettled`, `isMarkdownContent`, and the cheerio-based HTML parsers. The markdown parsers' regular-expression matches come in through the `matcher` parameter.
- `generateMockProducts`, `getProductSuggestions` and the data generators and initialisers are not modelled. They are driven by `Math.random` and have no deterministic result.
- `requestLogger`, `securityHeaders` and `notFoundHandler` are not modelled. They only set headers and write responses.
- Response plumbing is left out: JSON bodies, ISO timestamps, the development-only stack, and the `X-RateLimit-*` headers beyond their two values.
- `formatIndianPrice` and `printCatalogInfo` are not modelled. They are locale formatting and console output.
- Floating point is not modelled: all arithmetic is on exact reals. `toFixed` and `Math.round` are rounding half up. `Math.log10` and `Math.log` are any strictly increasing function that is 0 at 1.
- Case mapping covers ASCII only: `toLowerCase` lowers A–Z and leaves every other character alone.
- The Mobile Phones `subCategories` table of the catalogue is not modelled: no operation reads it.
- Only the keyword table of `findBrandSpecificProducts` is modelled; the template catalogue is a parameter.
- `JSON.stringify(product.metadata)` in the relevance score is a `render` parameter.
- The singleton store and in-place mutation become values that each operation returns.
- ProductModel.ToJsonDeterminesProduct: timestamps are not in the JSON, so it states equality only up to createdAt and updatedAt.
- ScraperMarkdown.ParseMarkdown: bounds the number of products by the number of link lines rather than stating the full output, which the two listing lemmas give for concrete two-line pages.
- Ranking.ComprehensiveScore: states the two-decimal result only within half a hundredth of the convex bounds, because `toFixed(2)` followed by `parseFloat` is rounding.
- SearchUtils.SimpleRelevance: states only the [15,100] range, because the title term depends on a real-valued similarity; the keyword and exact-title lemmas give the parts.
- WebScraper.ExtractPrice: states only the no-digit case in its contract; the reading of the first run is stated by ExtractPriceRun, ExtractPriceReadsNumber and ExtractPriceLoneComma for inputs split at that run.
- WebScraper.ExtractRating: states only non-negativity and the no-digit case in its contract; the two reading lemmas give the value for inputs split at the first number.
- ClassicalRankers.Bm25Score: matches each query word literally. The source splices the word into `new RegExp` without escaping it, so a word with a metacharacter throws (`"("`) or matches other text (`"a.c"`, `"a*"`). The model covers the source only for words without metacharacters.
- ClassicalRankers.Bm25Rank: the same literal matching as Bm25Score.
- ClassicalRankers.Bm25NoMatchScoresZero: the same literal matching as Bm25Score.
- ClassicalRankers.Bm25EmptyCorpusKeepsOrder: the same literal matching as Bm25Score.
- ClassicalRankers.TermFrequencies: treats every word as an ordinary key. In the source, a word naming an `Object.prototype` member (`"constructor"`, `"toString"`, …) starts from that inherited function, so its frequency is NaN, and `"__proto__"` is never stored.
- ClassicalRankers.TfIdfScoreZero: the same ordinary keys as TermFrequencies. In the source, a query holding such a word scores NaN against a document without it, because the inherited function is truthy.
- ClassicalRankers.TfIdfRankKeepsOrder: the same ordinary keys as TermFrequencies.
- Ranking.Lookup: treats every category and brand as an ordinary key. In the source, a name of an `Object.prototype` member (`"constructor"`, `"toString"`, `"__proto__"`, …) finds the inherited value, which is truthy, so the boost is that value and the adjusted score becomes NaN.
- Ranking.ApplyAllAdjustments: the same ordinary keys as Lookup, so it does not cover products whose category or brand names an `Object.prototype` member.
- Ranking.BoostTablesBounded: the same ordinary keys as Lookup. In the source, a category or brand naming an `Object.prototype` member gives the inherited value as its boost, which is not in [0.9,1.1] or [0.9,1.15].
- Ranking.AdjustmentFactor: the same ordinary keys as Lookup. In the source, such a category or brand makes the combined multiplier NaN, outside the stated bounds.
- Ranking.AdjustedScore: the same ordinary keys as Lookup. In the source, such a category or brand turns a finite score into NaN, so NaN does not arise only from a NaN score.
- Ranking.AdjustmentsMonotone: the same ordinary keys as Lookup. In the source, such a category or brand makes both adjusted scores NaN, which are not ordered.
- Ranking.AdjustmentsNeutral: the same ordinary keys as Lookup. Its brand outside the table may in the source be `"toString"` or another `Object.prototype` member, for which the adjusted score is NaN rather than the score capped at 100.
- Ranking.ScoreItem: the same ordinary keys as Lookup. In the source, a product whose category or brand names an `Object.prototype` member scores NaN under every algorithm, bm25 and tfidf included.
- Ranking.RankProducts: the same ordinary keys as ScoreItem, so such products are NaN-scored in the source and have no defined place in the sort.
- Ranking.GetDiversifiedResults: counts brands and categories under ordinary keys. In the source, a brand or category naming an `Object.prototype` member starts from the inherited value, the `< 3` or `< 5` test is false, and the item is never kept.
- Ranking.DiversifyStep: the same ordinary keys as GetDiversifiedResults. In the source, an item under both caps whose brand or category names an `Object.prototype` member is skipped, not kept.
- Ranking.Visit: the same ordinary keys as GetDiversifiedResults, since the loop it checks is compared with the greedy selection over ordinary keys.
- Ranking.DiversifyKeepsTop: the same ordinary keys as GetDiversifiedResults. In the source, a top item whose brand or category names an `Object.prototype` member is skipped.
- WebScraper.TitleKey: cuts at 30 characters, while `substring(0, 30)` counts UTF-16 code units. The two agree on titles without characters above U+FFFF.
- ScraperMarkdown.ParseMarkdown: the link text's `length > 3` test counts characters, not UTF-16 code units. The two agree below U+10000.
- EditDistance.Levenshtein: works on characters, while the source indexes UTF-16 code units. The two agree on strings without characters above U+FFFF. The same holds for SearchUtils.StringSimilarity.
- Middleware.PriceErrors: request values are undefined, null, booleans, numbers, NaN and strings. Arrays and objects, whose `Number()` goes through `toString`, are not modelled. Numbers are exact reals, so a literal beyond the double range (`"1e400"`) keeps its value instead of becoming Infinity. The same holds for MrpErrors, RatingErrors, LimitErrors and OffsetErrors.
- Middleware.StockErrors: the same value domain as PriceErrors. For a stock beyond the double range (`"1e400"`) the model reports no error. The source reads Infinity and reports "Stock must be an integer".
- Js.ToNumber: `-0` is not told apart from 0. Every use here compares with `<` or `>` or tests truthiness, and there `-0` and 0 behave alike.
- Ranking.OrderByScore: does not state that items with equal numeric scores keep their input order. The insertion sort it uses keeps that order, and `sort` is stable, but only the index sort of ClassicalRankers.RankIndices has that clause proved.
- Ranking.RankProducts: puts NaN scores after all others, in input order. The source's comparator returns NaN for them, so `sort` gives them no defined place. Like OrderByScore, it does not state that equal numeric scores keep their input order.
- ProductStore.GetStatistics: gives `avgRating` as the number within 0.005 of the mean, not as the string that `toFixed(2)` returns.
