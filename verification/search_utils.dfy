/** Query understanding and string matching (utils/searchUtils.js): text
    normalisation, similarity, keyword extraction, intent classification,
    price-range extraction, the simple relevance score and the product-data
    validator. */
module SearchUtils {
  import opened Wrappers
  import opened Text
  import opened Numeric
  import Seqs
  import EditDistance
  import Js
  import opened ProductModel

  // ---------------------------------------------------------------------------
  // Normalisation and matching

  predicate KeptByNormalize(c: char) {
    IsWordChar(c) || IsSpace(c)
  }

  /** `normalizeText`: lower-case, trim, then remove every character outside
      `\w` and `\s`. The trim happens before the removal, so white space that
      punctuation was hiding survives at the ends. */
  function NormalizeText(text: string): (r: string)
    ensures |r| <= |text|
    ensures NoUpper(r)
    ensures forall i :: 0 <= i < |r| ==> KeptByNormalize(r[i])
    ensures Seqs.IsSubsequence(r, Trim(Lower(text)))
    ensures |r| == Seqs.CountWhere(Trim(Lower(text)), KeptByNormalize)
  {
    var t := Trim(Lower(text));
    TrimKeepsNoUpper(Lower(text));
    var r := Seqs.Filter(t, KeptByNormalize);
    FilterKeepsNoUpper(t);
    Seqs.CountWhereIsFilterLength(t, KeptByNormalize);
    r
  }

  /** The contract of `NormalizeText` pins its result down: the one
      subsequence of the trimmed lower-cased text that consists of word and
      white-space characters and keeps all of them. */
  lemma NormalizeDetermined(text: string, r: string)
    requires Seqs.IsSubsequence(r, Trim(Lower(text)))
    requires forall i :: 0 <= i < |r| ==> KeptByNormalize(r[i])
    requires |r| == Seqs.CountWhere(Trim(Lower(text)), KeptByNormalize)
    ensures r == NormalizeText(text)
  {
    Seqs.FilterUnique(r, Trim(Lower(text)), KeptByNormalize);
  }

  predicate NoUpper(s: string) {
    forall i :: 0 <= i < |s| ==> !IsUpper(s[i])
  }

  lemma TrimKeepsNoUpper(s: string)
    requires NoUpper(s)
    ensures NoUpper(Trim(s))
  {
    var r := Trim(s);
    var k := |s| - |TrimStart(s)|;
    TrimSlice(s);
    forall i | 0 <= i < |r| ensures !IsUpper(r[i]) {
      assert r[i] == s[k + i];
    }
  }

  lemma {:induction false} FilterKeepsNoUpper(s: string)
    requires NoUpper(s)
    ensures NoUpper(Seqs.Filter(s, KeptByNormalize))
    decreases |s|
  {
    if |s| > 0 {
      FilterKeepsNoUpper(s[1..]);
    }
  }

  /** Normalisation is not idempotent: "! a" becomes " a", which becomes "a". */
  lemma NormalizeNotIdempotent()
    ensures NormalizeText("! a") == " a"
    ensures NormalizeText(" a") == "a"
    ensures NormalizeText(NormalizeText("! a")) != NormalizeText("! a")
  {
    NormalizeBang("! a");
    NormalizeSpaced(" a");
  }

  lemma NormalizeBang(s: string)
    requires s == "! a"
    ensures NormalizeText(s) == " a"
  {
    LowerNoUpper(s);
    assert TrimStart(s) == s;
    assert TrimEnd(s) == s;
    assert Seqs.Filter(s[2..], KeptByNormalize) == "a" by {
      assert s[2..][1..] == "";
    }
    assert Seqs.Filter(s[1..], KeptByNormalize) == " a" by {
      assert s[1..][1..] == s[2..];
    }
  }

  lemma NormalizeSpaced(s: string)
    requires s == " a"
    ensures NormalizeText(s) == "a"
  {
    LowerNoUpper(s);
    assert TrimStart(s) == "a" by {
      assert s[1..] == "a";
    }
    assert TrimEnd("a") == "a";
    assert Seqs.Filter("a", KeptByNormalize) == "a" by {
      assert "a"[1..] == "";
    }
  }

  lemma LowerNoUpper(s: string)
    requires NoUpper(s)
    ensures Lower(s) == s
  {
  }

  /** `stringSimilarity`: one minus the edit distance of the normalised
      strings over the longer normalised length; 1 when both are empty. */
  function StringSimilarity(s1: string, s2: string): (r: real)
    ensures 0.0 <= r <= 1.0
    ensures r == 1.0 <==> NormalizeText(s1) == NormalizeText(s2)
  {
    Similarity(NormalizeText(s1), NormalizeText(s2))
  }

  /** The similarity of two already normalised strings. */
  function Similarity(n1: string, n2: string): (r: real)
    ensures 0.0 <= r <= 1.0
    ensures r == 1.0 <==> n1 == n2
  {
    var maxLen := if |n1| >= |n2| then |n1| else |n2|;
    EditDistance.DistanceProperties(n1, n2);
    if maxLen == 0 then 1.0
    else
      var d := EditDistance.Distance(n1, n2);
      FractionBounds(d, maxLen);
      1.0 - d as real / maxLen as real
  }

  lemma FractionBounds(d: nat, m: nat)
    requires 0 < m && d <= m
    ensures 0.0 <= d as real / m as real <= 1.0
    ensures d as real / m as real == 0.0 <==> d == 0
  {
  }

  /** "iPhone" against "ifone": distance 2 over length 6. */
  lemma SimilarityIphoneIfone()
    ensures StringSimilarity("iPhone", "ifone") == 1.0 - 2.0 / 6.0
  {
    SimilarityIphoneIfoneAt("iPhone", "ifone");
  }

  lemma SimilarityIphoneIfoneAt(a: string, b: string)
    requires a == "iPhone" && b == "ifone"
    ensures StringSimilarity(a, b) == 1.0 - 2.0 / 6.0
  {
    NormalizeIphone(a, b);
    SimilarityOfNormalized(NormalizeText(a), NormalizeText(b));
  }

  lemma SimilarityOfNormalized(n1: string, n2: string)
    requires n1 == "iphone" && n2 == "ifone"
    ensures Similarity(n1, n2) == 1.0 - 2.0 / 6.0
  {
    EditDistance.IphoneIfone();
    SimilarityOfDistance(n1, n2);
  }

  lemma NormalizeIphone(a: string, b: string)
    requires a == "iPhone" && b == "ifone"
    ensures NormalizeText(a) == "iphone" && NormalizeText(b) == "ifone"
  {
    NormalizeIphoneTitle(a);
    NormalizeIfoneQuery(b);
  }

  lemma NormalizeIphoneTitle(a: string)
    requires a == "iPhone"
    ensures NormalizeText(a) == "iphone"
  {
    LowerIphone(a);
    assert forall i :: 0 <= i < |a| ==> IsUpper(a[i]) || 'a' <= a[i] <= 'z';
    NormalizeLetters(a, "iphone");
  }

  lemma NormalizeIfoneQuery(b: string)
    requires b == "ifone"
    ensures NormalizeText(b) == "ifone"
  {
    LowerIfone(b);
    assert forall i :: 0 <= i < |b| ==> 'a' <= b[i] <= 'z';
    NormalizeLetters(b, "ifone");
  }

  lemma NormalizeLetters(s: string, l: string)
    requires |s| > 0 && forall i :: 0 <= i < |s| ==> IsUpper(s[i]) || 'a' <= s[i] <= 'z'
    requires Lower(s) == l
    ensures NormalizeText(s) == l
  {
    NormalizeWord(s);
  }

  lemma LowerIphone(a: string)
    requires a == "iPhone"
    ensures Lower(a) == "iphone"
  {
    var la := Lower(a);
    assert la[0] == 'i' && la[1] == 'p' && la[2] == 'h' && la[3] == 'o' && la[4] == 'n' && la[5] == 'e';
  }

  lemma LowerIfone(b: string)
    requires b == "ifone"
    ensures Lower(b) == "ifone"
  {
    var lb := Lower(b);
    assert lb[0] == 'i' && lb[1] == 'f' && lb[2] == 'o' && lb[3] == 'n' && lb[4] == 'e';
  }

  lemma SimilarityOfDistance(n1: string, n2: string)
    requires |n1| >= |n2| && |n1| > 0
    ensures Similarity(n1, n2) == 1.0 - EditDistance.Distance(n1, n2) as real / |n1| as real
  {
  }

  /** A single non-empty word of ASCII letters normalises to its lower case. */
  lemma NormalizeWord(s: string)
    requires |s| > 0 && forall i :: 0 <= i < |s| ==> IsUpper(s[i]) || 'a' <= s[i] <= 'z'
    ensures NormalizeText(s) == Lower(s)
  {
    var l := Lower(s);
    assert !IsSpace(l[0]);
    assert TrimStart(l) == l;
    assert !IsSpace(l[|l| - 1]);
    assert TrimEnd(l) == l;
    assert Trim(l) == l;
    Seqs.FilterAll(l, KeptByNormalize);
  }

  /** `textMatches`: the normalised query is a substring of the normalised text. */
  predicate TextMatches(text: string, query: string) {
    Contains(NormalizeText(text), NormalizeText(query))
  }

  /** Every text matches itself, and an empty (or all-punctuation) query
      matches every text. */
  lemma TextMatchesProperties(text: string, query: string)
    ensures TextMatches(text, text)
    ensures NormalizeText(query) == "" ==> TextMatches(text, query)
  {
    ContainsSelf(NormalizeText(text));
    ContainsEmpty(NormalizeText(text));
  }

  // ---------------------------------------------------------------------------
  // Keywords

  const StopWords: set<string> := {
    "the", "a", "an", "and", "or", "but", "in", "on", "at", "to", "for",
    "of", "with", "is", "are", "was", "were", "be", "been", "by", "from",
    "wala", "waali"
  }

  /** `w.length > 1 && !stopWords.includes(w)`: the length counts UTF-16
      code units, so a lone character outside the Basic Multilingual Plane
      is long enough. */
  predicate IsKeyword(w: string) {
    Utf16Length(w) > 1 && w !in StopWords
  }

  /** `extractKeywords`: the lower-cased white-space-separated tokens longer
      than one character that are not stop words, in query order. */
  function ExtractKeywords(query: string): (r: seq<string>)
    ensures Seqs.IsSubsequence(r, Words(Lower(query)))
    ensures forall i :: 0 <= i < |r| ==> IsKeyword(r[i]) && NoSpace(r[i]) && r[i] in Words(Lower(query))
    ensures forall i :: (0 <= i < |Words(Lower(query))| && IsKeyword(Words(Lower(query))[i])
                         ==> Words(Lower(query))[i] in r)
    ensures |r| == Seqs.CountWhere(Words(Lower(query)), IsKeyword)
  {
    WordsHaveNoSpace(Lower(query));
    Seqs.CountWhereIsFilterLength(Words(Lower(query)), IsKeyword);
    Seqs.Filter(Words(Lower(query)), IsKeyword)
  }

  /** The contract of `ExtractKeywords` pins its result down, repeated words
      included: the one subsequence of the query's words that consists of
      keywords and keeps every occurrence of each. */
  lemma KeywordsDetermined(query: string, r: seq<string>)
    requires Seqs.IsSubsequence(r, Words(Lower(query)))
    requires forall i :: 0 <= i < |r| ==> IsKeyword(r[i])
    requires |r| == Seqs.CountWhere(Words(Lower(query)), IsKeyword)
    ensures r == ExtractKeywords(query)
  {
    Seqs.FilterUnique(r, Words(Lower(query)), IsKeyword);
  }

  /** No keyword has an upper-case letter. */
  lemma KeywordsLowerCase(query: string)
    ensures forall i :: 0 <= i < |ExtractKeywords(query)| ==> NoUpper(ExtractKeywords(query)[i])
  {
    var ws := Words(Lower(query));
    WordsOfLowerAreLower(Lower(query));
    var r := ExtractKeywords(query);
    forall i | 0 <= i < |r| ensures NoUpper(r[i]) {
      var k :| 0 <= k < |ws| && ws[k] == r[i];
    }
  }

  lemma {:induction false} WordsOfLowerAreLower(s: string)
    requires NoUpper(s)
    ensures forall k :: 0 <= k < |Words(s)| ==> NoUpper(Words(s)[k])
    decreases |s|
  {
    var i := IndexOfSpace(s);
    if i < |s| {
      var rest := TrimStart(s[i..]);
      assert NoUpper(rest) by {
        TrimStartSuffix(s[i..]);
        assert rest == s[|s| - |rest|..];
      }
      WordsOfLowerAreLower(rest);
      assert Words(s) == [s[..i]] + Words(rest) by {
        WordsStep(s);
      }
      assert NoUpper(s[..i]);
    } else {
      assert Words(s) == [s];
    }
  }

  /** "sasta wala iPhone 16 pro" gives sasta, iphone, 16, pro. */
  lemma KeywordsExample()
    ensures ExtractKeywords("sasta wala iPhone 16 pro") == ["sasta", "iphone", "16", "pro"]
  {
    KeywordsExampleAt("sasta wala iPhone 16 pro", ["sasta", "wala", "iphone", "16", "pro"]);
  }

  lemma KeywordsExampleAt(q: string, ws: seq<string>)
    requires q == "sasta wala iPhone 16 pro" && ws == ["sasta", "wala", "iphone", "16", "pro"]
    ensures ExtractKeywords(q) == ["sasta", "iphone", "16", "pro"]
  {
    LowerExample(q);
    JoinExample(ws);
    WordsJoin(ws);
    FilterExample(ws);
  }

  lemma LowerExample(q: string)
    requires q == "sasta wala iPhone 16 pro"
    ensures Lower(q) == "sasta wala iphone 16 pro"
  {
    var l := Lower(q);
    assert forall i :: 0 <= i < |q| && i != 12 ==> !IsUpper(q[i]);
    assert l[12] == 'p';
  }

  lemma JoinExample(ws: seq<string>)
    requires ws == ["sasta", "wala", "iphone", "16", "pro"]
    ensures JoinWith(ws, ' ') == "sasta wala iphone 16 pro"
  {
    var w4 := ws[4..];
    assert w4 == ["pro"];
    assert JoinWith(w4, ' ') == "pro";
    var w3 := ws[3..];
    assert w3[0] == "16" && w3[1..] == w4;
    assert JoinWith(w3, ' ') == "16" + " " + "pro";
    var w2 := ws[2..];
    assert w2[0] == "iphone" && w2[1..] == w3;
    assert JoinWith(w2, ' ') == "iphone" + " " + ("16" + " " + "pro");
    var w1 := ws[1..];
    assert w1[0] == "wala" && w1[1..] == w2;
    assert JoinWith(w1, ' ') == "wala" + " " + ("iphone" + " " + ("16" + " " + "pro"));
    assert ws[1..] == w1;
    assert "sasta" + " " + ("wala" + " " + ("iphone" + " " + ("16" + " " + "pro")))
        == "sasta wala iphone 16 pro";
  }

  lemma FilterExample(ws: seq<string>)
    requires ws == ["sasta", "wala", "iphone", "16", "pro"]
    ensures Seqs.Filter(ws, IsKeyword) == ["sasta", "iphone", "16", "pro"]
  {
    ExampleKeywords();
    FilterDropsSecond(ws, IsKeyword);
  }

  /** Filtering five words of which only the second fails the test. */
  lemma FilterDropsSecond<T>(ws: seq<T>, keep: T -> bool)
    requires |ws| == 5 && keep(ws[0]) && !keep(ws[1]) && keep(ws[2]) && keep(ws[3]) && keep(ws[4])
    ensures Seqs.Filter(ws, keep) == [ws[0], ws[2], ws[3], ws[4]]
  {
    var u := ws[2..];
    assert Seqs.Filter(u, keep) == u by {
      Seqs.FilterAll(u, keep);
    }
    assert Seqs.Filter(ws[1..], keep) == u by {
      assert ws[1..][1..] == u;
      Seqs.FilterStep(ws[1..], keep);
    }
    assert Seqs.Filter(ws, keep) == [ws[0]] + u by {
      Seqs.FilterStep(ws, keep);
    }
    SkipSecond(ws);
  }

  /** The first of five elements followed by the last three. */
  lemma SkipSecond<T>(ws: seq<T>)
    requires |ws| == 5
    ensures [ws[0]] + ws[2..] == [ws[0], ws[2], ws[3], ws[4]]
  {
  }

  lemma ExampleKeywords()
    ensures IsKeyword("sasta") && !IsKeyword("wala") && IsKeyword("iphone")
    ensures IsKeyword("16") && IsKeyword("pro")
  {
    LongEnough("sasta");
    LongEnough("iphone");
    LongEnough("16");
    LongEnough("pro");
  }

  /** A word of two or more characters that is not a stop word is a keyword. */
  lemma LongEnough(w: string)
    requires |w| > 1 && w !in StopWords
    ensures IsKeyword(w)
  {
  }

  // ---------------------------------------------------------------------------
  // Intent

  datatype Intent = General | Budget | Premium | Latest | Quality

  const BudgetTerms: seq<string> := ["sasta", "cheap", "budget", "affordable", "under", "less"]
  const PremiumTerms: seq<string> := ["premium", "pro", "max", "high", "expensive", "costly"]
  const LatestTerms: seq<string> := ["latest", "new", "2024", "2025", "2026"]
  const QualityTerms: seq<string> := ["strong", "durable", "tough", "good quality"]

  /** `detectQueryIntent`: the first of the budget, premium, latest and
      quality term groups that occurs (as a substring) in the lower-cased
      query decides the intent; none gives general. */
  function DetectQueryIntent(query: string): (r: Intent)
    ensures r == Budget <==> ContainsAny(Lower(query), BudgetTerms)
    ensures r == Premium <==> !ContainsAny(Lower(query), BudgetTerms) && ContainsAny(Lower(query), PremiumTerms)
    ensures r == Latest <==>
              && !ContainsAny(Lower(query), BudgetTerms) && !ContainsAny(Lower(query), PremiumTerms)
              && ContainsAny(Lower(query), LatestTerms)
    ensures r == Quality <==>
              && !ContainsAny(Lower(query), BudgetTerms) && !ContainsAny(Lower(query), PremiumTerms)
              && !ContainsAny(Lower(query), LatestTerms) && ContainsAny(Lower(query), QualityTerms)
    ensures r == General <==>
              && !ContainsAny(Lower(query), BudgetTerms) && !ContainsAny(Lower(query), PremiumTerms)
              && !ContainsAny(Lower(query), LatestTerms) && !ContainsAny(Lower(query), QualityTerms)
    ensures r == General ==> !ContainsAny(Lower(query), BudgetTerms + PremiumTerms + LatestTerms + QualityTerms)
  {
    var q := Lower(query);
    if ContainsAny(q, BudgetTerms) then Budget
    else if ContainsAny(q, PremiumTerms) then Premium
    else if ContainsAny(q, LatestTerms) then Latest
    else if ContainsAny(q, QualityTerms) then Quality
    else
      assert !ContainsAny(q, BudgetTerms + PremiumTerms + LatestTerms + QualityTerms) by {
        var all := BudgetTerms + PremiumTerms + LatestTerms + QualityTerms;
        forall k | 0 <= k < |all| ensures !Contains(q, all[k]) {
          if k < 6 { assert all[k] == BudgetTerms[k]; }
          else if k < 12 { assert all[k] == PremiumTerms[k - 6]; }
          else if k < 17 { assert all[k] == LatestTerms[k - 12]; }
          else { assert all[k] == QualityTerms[k - 17]; }
        }
      }
      General
  }

  /** Budget terms win over every other group: "cheap premium phone" is a
      budget query. */
  lemma BudgetFirst()
    ensures DetectQueryIntent("cheap premium phone") == Budget
  {
    var q := Lower("cheap premium phone");
    assert q == "cheap premium phone";
    assert MatchesAt(q, BudgetTerms[1], 0);
  }

  /** Matching is by substring, so "pro" inside a longer word counts:
      "protein" is a premium query. */
  lemma SubstringIntent()
    ensures DetectQueryIntent("protein") == Premium
  {
    var q := Lower("protein");
    assert q == "protein";
    assert MatchesAt(q, PremiumTerms[1], 0);
    forall k | 0 <= k < |BudgetTerms| ensures !Contains(q, BudgetTerms[k]) {
      NotContainedTerm(q, BudgetTerms[k]);
    }
  }

  /** A term whose first letter does not occur in `q` is not contained in it. */
  lemma NotContainedTerm(q: string, t: string)
    requires |t| > 0 && t[0] !in q
    ensures !Contains(q, t)
  {
  }

  // ---------------------------------------------------------------------------
  // Price range

  /** Length of the run of digits at the start of `s`. */
  function DigitRun(s: string): (n: nat)
    ensures n <= |s|
    ensures forall i :: 0 <= i < n ==> IsDigit(s[i])
    ensures n < |s| ==> !IsDigit(s[n])
    decreases |s|
  {
    if |s| > 0 && IsDigit(s[0]) then 1 + DigitRun(s[1..]) else 0
  }

  /** The numbers `/(\d+(?:,\d+)?)\s*(?:k|rupees?|rs\.?)?/gi` finds, in order,
      each read without its comma and multiplied by 1000 when the match ends in
      `k`. A match starts at a digit; the unit after it holds no digit, so
      scanning on from the end of the numeral finds the same next match. */
  function PriceMatches(q: string): (prices: seq<nat>)
    decreases |q|
  {
    if |q| == 0 then []
    else if !IsDigit(q[0]) then PriceMatches(q[1..])
    else
      var n := DigitRun(q);
      var grouped := n + 1 < |q| && q[n] == ',' && IsDigit(q[n + 1]);
      var m := if grouped then DigitRun(q[n + 1..]) else 0;
      var digits := if grouped then q[..n] + q[n + 1..n + 1 + m] else q[..n];
      var rest := if grouped then q[n + 1 + m..] else q[n..];
      [DigitsValue(digits) * (if ThousandsUnit(rest) then 1000 else 1)] + PriceMatches(rest)
  }

  /** The text after a numeral starts, past optional white space, with the
      unit `k` (the other units, `rupee`, `rupees`, `rs` and `rs.`, hold no
      `k`). */
  predicate ThousandsUnit(rest: string) {
    var unit := TrimStart(rest);
    |unit| > 0 && (unit[0] == 'k' || unit[0] == 'K')
  }

  /** A query yields a price exactly when it has a digit. */
  lemma {:induction false} PriceMatchesEmptyIff(q: string)
    ensures PriceMatches(q) == [] <==> !HasDigit(q)
    decreases |q|
  {
    if |q| > 0 && !IsDigit(q[0]) {
      PriceMatchesEmptyIff(q[1..]);
      if HasDigit(q) {
        var i :| 0 <= i < |q| && IsDigit(q[i]);
        assert IsDigit(q[1..][i - 1]);
      }
      if HasDigit(q[1..]) {
        var i :| 0 <= i < |q[1..]| && IsDigit(q[1..][i]);
        assert IsDigit(q[i + 1]);
      }
    } else if |q| > 0 {
      assert IsDigit(q[0]);
    }
  }

  datatype PriceRange = PriceRange(min: int, max: int)

  function SeqMin(s: seq<nat>): (m: nat)
    requires |s| > 0
    ensures m in s && forall i :: 0 <= i < |s| ==> m <= s[i]
  {
    if |s| == 1 then s[0]
    else
      var t := SeqMin(s[1..]);
      if s[0] <= t then s[0] else t
  }

  function SeqMax(s: seq<nat>): (m: nat)
    requires |s| > 0
    ensures m in s && forall i :: 0 <= i < |s| ==> m >= s[i]
  {
    if |s| == 1 then s[0]
    else
      var t := SeqMax(s[1..]);
      if s[0] >= t then s[0] else t
  }

  /** `extractPriceFromQuery`: no number gives no range; one number is an
      upper bound from 0; several span their minimum to their maximum. */
  function ExtractPriceFromQuery(query: string): (r: Option<PriceRange>)
    ensures r.None? <==> !HasDigit(query)
    ensures |PriceMatches(query)| == 1 ==> r == Some(PriceRange(0, PriceMatches(query)[0]))
    ensures |PriceMatches(query)| >= 2 ==>
              && r.Some? && r.value.min <= r.value.max
              && r.value.min in PriceMatches(query) && r.value.max in PriceMatches(query)
              && (forall i :: 0 <= i < |PriceMatches(query)| ==>
                    r.value.min <= PriceMatches(query)[i] <= r.value.max)
  {
    var prices := PriceMatches(query);
    PriceMatchesEmptyIff(query);
    if |prices| == 0 then None
    else if |prices| == 1 then Some(PriceRange(0, prices[0]))
    else Some(PriceRange(SeqMin(prices), SeqMax(prices)))
  }

  /** "iPhone under 50k rupees" is a range from 0 to 50000. */
  lemma PriceExampleUnder()
    ensures ExtractPriceFromQuery("iPhone under 50k rupees") == Some(PriceRange(0, 50000))
  {
    var pre, tail := "iPhone under ", " rupees";
    DigitFree(pre);
    DigitFree(tail);
    assert "iPhone under 50k rupees" == pre + ("50k" + tail);
    DigitFreeThenFiftyK(pre, tail);
  }

  lemma DigitFree(s: string)
    requires s in {"iPhone under ", " rupees", "between ", " and ", ""}
    ensures forall i :: 0 <= i < |s| ==> !IsDigit(s[i])
  {
  }

  lemma DigitFreeThenFiftyK(pre: string, tail: string)
    requires forall i :: 0 <= i < |pre| ==> !IsDigit(pre[i])
    requires forall i :: 0 <= i < |tail| ==> !IsDigit(tail[i])
    ensures PriceMatches(pre + ("50k" + tail)) == [50000]
  {
    DigitFreePrefix(pre, "50k" + tail);
    FiftyK("50k" + tail, tail);
  }

  /** A digit-free prefix contributes no match. */
  lemma DigitFreePrefix(pre: string, s: string)
    requires forall i :: 0 <= i < |pre| ==> !IsDigit(pre[i])
    ensures PriceMatches(pre + s) == PriceMatches(s)
  {
    var q := pre + s;
    assert forall i :: 0 <= i < |pre| ==> !IsDigit(q[i]) by {
      forall i | 0 <= i < |pre| ensures !IsDigit(q[i]) {
        assert q[i] == pre[i];
      }
    }
    NoDigitsSkipped(q, |pre|);
    assert q[|pre|..] == s;
  }

  /** "50k" followed by digit-free text is the single price 50000. */
  lemma FiftyK(t: string, tail: string)
    requires t == "50k" + tail && forall i :: 0 <= i < |tail| ==> !IsDigit(tail[i])
    ensures PriceMatches(t) == [50000]
  {
    assert t[..2] == "50";
    Fifty(t[..2]);
    PriceStep(t, 2);
    var rest := t[2..];
    assert rest[0] == 'k';
    assert TrimStart(rest) == rest;
    assert forall i :: 0 <= i < |rest| ==> !IsDigit(rest[i]) by {
      forall i | 0 <= i < |rest| ensures !IsDigit(rest[i]) {
        if i > 0 { assert rest[i] == tail[i - 1]; }
      }
    }
    NoDigitsNoPrice(rest);
  }

  /** "between 20k and 50k" is a range from 20000 to 50000. */
  lemma PriceExampleBetween()
    ensures ExtractPriceFromQuery("between 20k and 50k") == Some(PriceRange(20000, 50000))
  {
    BetweenQuery("between 20k and 50k");
  }

  lemma BetweenQuery(q: string)
    requires q == "between 20k and 50k"
    ensures ExtractPriceFromQuery(q) == Some(PriceRange(20000, 50000))
  {
    var pre, mid, end := "between ", " and ", "";
    DigitFree(pre);
    DigitFree(mid);
    DigitFree(end);
    assert q == pre + ("20k" + (mid + ("50k" + end)));
    var prices := BetweenPrices(pre, mid, end);
    var r := ExtractPriceFromQuery(q);
    assert r.value.min <= prices[0] && r.value.max >= prices[1];
  }

  lemma BetweenPrices(pre: string, mid: string, end: string) returns (prices: seq<nat>)
    requires forall i :: 0 <= i < |pre| ==> !IsDigit(pre[i])
    requires forall i :: 0 <= i < |mid| ==> !IsDigit(mid[i])
    requires forall i :: 0 <= i < |end| ==> !IsDigit(end[i])
    requires |mid| > 0 && mid[0] == ' '
    ensures prices == PriceMatches(pre + ("20k" + (mid + ("50k" + end)))) == [20000, 50000]
  {
    var t := "20k" + (mid + ("50k" + end));
    DigitFreePrefix(pre, t);
    TwentyKThen(t, mid + ("50k" + end));
    DigitFreePrefix(mid, "50k" + end);
    FiftyK("50k" + end, end);
    prices := [20000, 50000];
  }

  /** "20k" followed by text starting with white space is the price 20000
      followed by the matches of that text. */
  lemma TwentyKThen(t: string, tail: string)
    requires t == "20k" + tail && |tail| > 0 && tail[0] == ' '
    ensures PriceMatches(t) == [20000] + PriceMatches(t[2..])
    ensures PriceMatches(t[2..]) == PriceMatches(tail)
  {
    assert t[..2] == "20";
    Twenty(t[..2]);
    PriceStep(t, 2);
    var rest := t[2..];
    assert rest[0] == 'k';
    assert TrimStart(rest) == rest;
    assert rest == "k" + tail;
    DigitFreePrefix("k", tail);
  }

  lemma Fifty(s: string)
    requires s == "50"
    ensures AllDigits(s) && DigitsValue(s) == 50
  {
    var h := s[..1];
    assert h[..0] == "" && h[0] == '5';
    assert DigitsValue(h) == 5;
    assert s[1] == '0';
  }

  lemma Twenty(s: string)
    requires s == "20"
    ensures AllDigits(s) && DigitsValue(s) == 20
  {
    var h := s[..1];
    assert h[..0] == "" && h[0] == '2';
    assert DigitsValue(h) == 2;
    assert s[1] == '0';
  }

  lemma NoDigitsNoPrice(s: string)
    requires forall i :: 0 <= i < |s| ==> !IsDigit(s[i])
    ensures PriceMatches(s) == []
  {
    PriceMatchesEmptyIff(s);
  }

  /** A numeral of `d` digits not followed by a digit or a comma is one match,
      and scanning resumes right after it. */
  lemma PriceStep(q: string, d: nat)
    requires 0 < d <= |q| && AllDigits(q[..d])
    requires d < |q| ==> !IsDigit(q[d]) && q[d] != ','
    ensures PriceMatches(q) == [DigitsValue(q[..d]) * (if ThousandsUnit(q[d..]) then 1000 else 1)]
                               + PriceMatches(q[d..])
  {
    assert forall i :: 0 <= i < d ==> IsDigit(q[i]) by {
      forall i | 0 <= i < d ensures IsDigit(q[i]) {
        assert q[i] == q[..d][i];
      }
    }
    assert DigitRun(q) == d;
  }

  /** Skipping a digit-free prefix does not change the matches. */
  lemma {:induction false} NoDigitsSkipped(q: string, k: nat)
    requires k <= |q|
    requires forall i :: 0 <= i < k ==> !IsDigit(q[i])
    ensures PriceMatches(q) == PriceMatches(q[k..])
    decreases k
  {
    if k > 0 {
      NoDigitsSkipped(q[1..], k - 1);
      assert q[1..][k - 1..] == q[k..];
    }
  }

  // ---------------------------------------------------------------------------
  // Simple relevance

  /** `calculateRelevanceScore` in searchUtils: 40 times the title
      similarity, up to 30 for the share of keywords found in title and
      description, 15 when the brand matches the title, a flat 15, capped at
      100. */
  function SimpleRelevance(p: Product, query: string): (r: real)
    ensures 15.0 <= r <= 100.0
  {
    var similarity := StringSimilarity(p.title, query);
    var keywordScore := KeywordShare(ExtractKeywords(query), Lower(p.title + " " + p.description));
    var brandScore := if TextMatches(p.title, p.brand) then 15.0 else 0.0;
    Min(similarity * 40.0 + keywordScore + brandScore + 15.0, 100.0)
  }

  /** 30 times the share of `keywords` that occur in `fullText`; 0 when there
      are no keywords. */
  function KeywordShare(keywords: seq<string>, fullText: string): (r: real)
    ensures 0.0 <= r <= 30.0
    ensures |keywords| == 0 ==> r == 0.0
    ensures r == 30.0 <==> |keywords| > 0 && forall i :: 0 <= i < |keywords| ==> Contains(fullText, keywords[i])
  {
    var found := (k: string) => Contains(fullText, k);
    var matched := Seqs.CountWhere(keywords, found);
    Seqs.CountWhereAll(keywords, found);
    if |keywords| > 0 then
      Share(matched, |keywords|);
      matched as real / |keywords| as real * 30.0
    else 0.0
  }

  /** A title equal to the query after normalisation scores at least 55. */
  lemma SimpleRelevanceExactTitle(p: Product, query: string)
    requires NormalizeText(p.title) == NormalizeText(query)
    ensures SimpleRelevance(p, query) >= 55.0
  {
    assert StringSimilarity(p.title, query) == 1.0;
  }

  // ---------------------------------------------------------------------------
  // Product-data validation

  /** The fields `validateProductData` inspects, as arbitrary JavaScript values. */
  datatype ProductData = ProductData(
    title: Js.Value, description: Js.Value, price: Js.Value,
    mrp: Js.Value, rating: Js.Value, stock: Js.Value)

  datatype Validation = Validation(isValid: bool, errors: seq<string>)

  const TitleError := "Title is required and must be a non-empty string"
  const DescriptionError := "Description is required and must be a non-empty string"
  const PriceError := "Price must be a non-negative number"
  const MrpError := "MRP must be a non-negative number"
  const RatingError := "Rating must be a number between 0 and 5"
  const StockError := "Stock must be a non-negative number"

  /** A required text: a non-empty string with something besides white space. */
  predicate BadText(v: Js.Value) {
    !Js.Truthy(v) || !v.Str? || |Trim(v.s)| == 0
  }

  /** `typeof v !== 'number' || v < min || v > max`; `NaN` is a number and
      fails no comparison. */
  predicate BadNumber(v: Js.Value, min: real, max: Option<real>) {
    || !(v.Num? || v.NaN?)
    || (v.Num? && v.n < min)
    || (v.Num? && max.Some? && v.n > max.value)
  }

  function Check(bad: bool, message: string): seq<string> {
    if bad then [message] else []
  }

  /** `validateProductData`: one message per failing field, in field order;
      valid exactly when there is none. */
  function ValidateProductData(data: ProductData): (r: Validation)
    ensures r.isValid <==> |r.errors| == 0
    ensures |r.errors| <= 6
    ensures TitleError in r.errors <==> BadText(data.title)
    ensures DescriptionError in r.errors <==> BadText(data.description)
    ensures PriceError in r.errors <==> BadNumber(data.price, 0.0, None)
    ensures MrpError in r.errors <==> BadNumber(data.mrp, 0.0, None)
    ensures RatingError in r.errors <==> BadNumber(data.rating, 0.0, Some(5.0))
    ensures StockError in r.errors <==> BadNumber(data.stock, 0.0, None)
  {
    var errors :=
      Check(BadText(data.title), TitleError)
      + Check(BadText(data.description), DescriptionError)
      + Check(BadNumber(data.price, 0.0, None), PriceError)
      + Check(BadNumber(data.mrp, 0.0, None), MrpError)
      + Check(BadNumber(data.rating, 0.0, Some(5.0)), RatingError)
      + Check(BadNumber(data.stock, 0.0, None), StockError);
    Validation(|errors| == 0, errors)
  }

  /** `NaN` has type number, so a `NaN` price, MRP, rating and stock pass. */
  lemma NaNPassesValidation(title: string, description: string)
    requires |Trim(title)| > 0 && |Trim(description)| > 0
    ensures ValidateProductData(ProductData(Js.Str(title), Js.Str(description),
      Js.NaN, Js.NaN, Js.NaN, Js.NaN)).isValid
  {
  }
}
