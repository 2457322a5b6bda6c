/** The two classical text rankers of the ranking service: Okapi BM25 over a
    fixed corpus, and a TF-IDF ranker whose term frequencies never leave
    zero. Both return document indices sorted by descending score. The
    natural logarithm is a parameter constrained by `Numeric.IsLogarithm`. */
module ClassicalRankers {
  import Text
  import Numeric
  import Seqs

  // ---------------------------------------------------------------------------
  // Shared vocabulary

  /** `doc.split(' ').length`: one more than the number of single spaces. */
  function SpaceFields(doc: string): (n: nat)
    ensures n >= 1
  {
    |Text.SplitOn(doc, ' ')|
  }

  /** `new Set(doc.toLowerCase().split(/\s+/))`, as a membership test. */
  predicate HasWord(doc: string, word: string) {
    word in Text.Words(Text.Lower(doc))
  }

  /** Number of documents whose lower-cased word set holds `word`. */
  function DocFrequency(corpus: seq<string>, word: string): (n: nat)
    ensures n <= |corpus|
    ensures n == 0 <==> forall i :: 0 <= i < |corpus| ==> !HasWord(corpus[i], word)
  {
    var present := (d: string) => HasWord(d, word);
    Seqs.CountWhereIsFilterLength(corpus, present);
    Seqs.CountWhere(corpus, present)
  }

  /** The document indices, best score first; equal scores keep index order. */
  function RankIndices(scores: seq<real>): (r: seq<nat>)
    ensures |r| == |scores|
    ensures multiset(r) == multiset(Seqs.Range(|scores|))
    ensures forall i :: 0 <= i < |r| ==> r[i] < |scores|
    ensures forall i, j :: 0 <= i < j < |r| ==> scores[r[i]] >= scores[r[j]]
    ensures forall i, j :: 0 <= i < j < |r| && scores[r[i]] == scores[r[j]] ==> r[i] < r[j]
  {
    var key := (k: nat) => if k < |scores| then scores[k] else 0.0;
    var r := Seqs.SortDesc<nat>(Seqs.Range(|scores|), key);
    forall i | 0 <= i < |r| ensures r[i] < |scores| {
      assert r[i] in multiset(Seqs.Range(|scores|));
    }
    Seqs.SortDescStable(Seqs.Range(|scores|), key);
    r
  }

  /** When every document scores the same, the stable sort keeps index order. */
  lemma RankIndicesEqualScores(scores: seq<real>, c: real)
    requires forall i :: 0 <= i < |scores| ==> scores[i] == c
    ensures RankIndices(scores) == Seqs.Range(|scores|)
  {
    var key := (k: nat) => if k < |scores| then scores[k] else 0.0;
    Seqs.SortDescEqualKeys<nat>(Seqs.Range(|scores|), key, c);
  }

  // ---------------------------------------------------------------------------
  // BM25

  const K1: real := 1.5
  const B: real := 0.75

  /** `calculateAvgDocLength`: the mean number of single-space fields, 0 for
      an empty corpus. */
  function AvgDocLength(corpus: seq<string>): (r: real)
    ensures |corpus| == 0 ==> r == 0.0
    ensures |corpus| > 0 ==> r >= 1.0
  {
    if |corpus| == 0 then 0.0
    else
      var total := Seqs.SumOf(corpus, (d: string) => SpaceFields(d) as real);
      Seqs.SumOfAtLeast(corpus, (d: string) => SpaceFields(d) as real, 1.0);
      total / |corpus| as real
  }

  /** The BM25 inverse document frequency of a word found in `df` of `n`
      documents. */
  function Bm25IdfOf(n: nat, df: nat, ln: real -> real): (r: real)
    requires Numeric.IsLogarithm(ln) && df <= n
    ensures r > 0.0
  {
    var ratio := (n - df) as real + 0.5;
    assert ratio / (df as real + 0.5) >= 0.0;
    Numeric.LogPositive(ln, ratio / (df as real + 0.5) + 1.0);
    ln(ratio / (df as real + 0.5) + 1.0)
  }

  /** A word found in more documents never gets a larger idf. */
  lemma Bm25IdfAntitone(n: nat, df1: nat, df2: nat, ln: real -> real)
    requires Numeric.IsLogarithm(ln) && df1 <= df2 <= n
    ensures Bm25IdfOf(n, df2, ln) <= Bm25IdfOf(n, df1, ln)
  {
    var x1 := ((n - df1) as real + 0.5) / (df1 as real + 0.5);
    var x2 := ((n - df2) as real + 0.5) / (df2 as real + 0.5);
    RatioAntitone((n - df2) as real + 0.5, (n - df1) as real + 0.5, df1 as real + 0.5, df2 as real + 0.5);
    assert x2 >= 0.0;
    Numeric.LogMonotone(ln, x2 + 1.0, x1 + 1.0);
  }

  /** A smaller numerator over a larger denominator gives a smaller ratio. */
  lemma RatioAntitone(a1: real, a2: real, d1: real, d2: real)
    requires 0.0 < a1 <= a2 && 0.0 < d1 <= d2
    ensures a1 / d2 <= a2 / d1
  {
    var q1 := a1 / d2;
    var q2 := a2 / d1;
    assert q1 * d2 == a1 && q2 * d1 == a2;
    assert q2 * d2 >= q2 * d1;
  }

  /** The idf table lookup `this.idf.get(word) || 0`: words absent from
      every corpus document have no entry and score 0. */
  function Bm25Idf(corpus: seq<string>, word: string, ln: real -> real): (r: real)
    requires Numeric.IsLogarithm(ln)
    ensures r >= 0.0
    ensures r > 0.0 <==> exists i :: 0 <= i < |corpus| && HasWord(corpus[i], word)
  {
    var df := DocFrequency(corpus, word);
    if df == 0 then 0.0 else Bm25IdfOf(|corpus|, df, ln)
  }

  /** `\b` at position `i` of `s`: a word character on exactly one side. */
  predicate Boundary(s: string, i: nat)
    requires i <= |s|
  {
    (i > 0 && Text.IsWordChar(s[i - 1])) != (i < |s| && Text.IsWordChar(s[i]))
  }

  /** The regular expression `\b<word>\b` with flag `i` matches at `j`. */
  predicate MatchesWordAt(doc: string, word: string, j: nat) {
    && j + |word| <= |doc|
    && (forall k :: 0 <= k < |word| ==> Text.LowerChar(doc[j + k]) == Text.LowerChar(word[k]))
    && Boundary(doc, j)
    && Boundary(doc, j + |word|)
  }

  /** Matches found by a global search that resumes at `pos`; after an empty
      match the search steps one position on, as `String.prototype.match` does. */
  function MatchCountFrom(doc: string, word: string, pos: nat): (n: nat)
    ensures n <= |doc| + 1 - pos || (pos > |doc| && n == 0)
    decreases |doc| + 1 - pos
  {
    if pos > |doc| then 0
    else if MatchesWordAt(doc, word, pos) then
      1 + MatchCountFrom(doc, word, pos + if |word| == 0 then 1 else |word|)
    else MatchCountFrom(doc, word, pos + 1)
  }

  /** `(doc.match(new RegExp('\\b' + word + '\\b', 'gi')) || []).length` for a
      word without regular-expression metacharacters: the word is matched
      literally, as that expression does when the word is plain text. */
  function WordFrequency(doc: string, word: string): (n: nat)
    ensures n <= |doc| + 1
  {
    MatchCountFrom(doc, word, 0)
  }

  /** The global search finds something exactly when some position from
      `pos` on matches. */
  lemma {:induction false} MatchCountPositive(doc: string, word: string, pos: nat)
    ensures MatchCountFrom(doc, word, pos) > 0
        <==> exists j :: pos <= j <= |doc| && MatchesWordAt(doc, word, j)
    decreases |doc| + 1 - pos
  {
    if pos <= |doc| && !MatchesWordAt(doc, word, pos) {
      MatchCountPositive(doc, word, pos + 1);
      if exists j :: pos <= j <= |doc| && MatchesWordAt(doc, word, j) {
        var j :| pos <= j <= |doc| && MatchesWordAt(doc, word, j);
        assert j != pos;
      }
    }
  }

  /** The term weight of one query word in one document: saturating in the
      word's frequency and damped by the document's length relative to the
      corpus average. */
  function Bm25Term(idf: real, tf: nat, docLength: nat, avg: real): (r: real)
    requires avg > 0.0
  {
    var norm := K1 * (1.0 - B + B * (docLength as real / avg));
    idf * ((tf as real * (K1 + 1.0)) / (tf as real + norm))
  }

  /** A term vanishes without an occurrence and never reaches `idf * (K1 + 1)`. */
  lemma Bm25TermBounds(idf: real, tf: nat, docLength: nat, avg: real)
    requires avg > 0.0 && idf >= 0.0
    ensures tf == 0 ==> Bm25Term(idf, tf, docLength, avg) == 0.0
    ensures 0.0 <= Bm25Term(idf, tf, docLength, avg) <= idf * (K1 + 1.0)
    ensures idf > 0.0 && tf > 0 ==> 0.0 < Bm25Term(idf, tf, docLength, avg) < idf * (K1 + 1.0)
  {
    var norm := K1 * (1.0 - B + B * (docLength as real / avg));
    assert docLength as real / avg >= 0.0;
    assert norm > 0.0;
    var t := tf as real;
    var sat := (t * (K1 + 1.0)) / (t + norm);
    SaturationBounds(t, norm, K1 + 1.0);
    ScaleBetween(idf, sat, K1 + 1.0);
  }

  /** `t * c / (t + d)` lies in `[0, c)`, and is positive for a positive `t`. */
  lemma SaturationBounds(t: real, d: real, c: real)
    requires t >= 0.0 && d > 0.0 && c > 0.0
    ensures 0.0 <= (t * c) / (t + d) < c
    ensures t > 0.0 ==> (t * c) / (t + d) > 0.0
  {
    var s := t + d;
    var q := Numeric.QuotientOf(t * c, s);
    Numeric.MulSign(t, c);
    assert (c - q) * s == c * d;
    Numeric.MulSign(d, c);
    Numeric.MulSign(c - q, s);
    Numeric.MulSign(q, s);
  }

  lemma ScaleBetween(idf: real, x: real, c: real)
    requires idf >= 0.0 && 0.0 <= x < c
    ensures 0.0 <= idf * x <= idf * c
    ensures idf > 0.0 && x > 0.0 ==> 0.0 < idf * x < idf * c
  {
  }

  /** A larger frequency never lowers a term. */
  lemma Bm25TermMonotone(idf: real, tf1: nat, tf2: nat, docLength: nat, avg: real)
    requires avg > 0.0 && idf >= 0.0 && tf1 <= tf2
    ensures Bm25Term(idf, tf1, docLength, avg) <= Bm25Term(idf, tf2, docLength, avg)
  {
    var norm := K1 * (1.0 - B + B * (docLength as real / avg));
    assert docLength as real / avg >= 0.0;
    SaturationMonotone(tf1 as real, tf2 as real, norm, K1 + 1.0);
    var s1 := (tf1 as real * (K1 + 1.0)) / (tf1 as real + norm);
    var s2 := (tf2 as real * (K1 + 1.0)) / (tf2 as real + norm);
    ScaleMonotone(idf, s1, s2);
  }

  lemma SaturationMonotone(t1: real, t2: real, d: real, c: real)
    requires 0.0 <= t1 <= t2 && d > 0.0 && c > 0.0
    ensures (t1 * c) / (t1 + d) <= (t2 * c) / (t2 + d)
  {
    var q1 := (t1 * c) / (t1 + d);
    var q2 := (t2 * c) / (t2 + d);
    assert q1 * (t1 + d) == t1 * c;
    assert q2 * (t2 + d) == t2 * c;
    assert q1 == c - (c * d) / (t1 + d) by {
      assert (c - (c * d) / (t1 + d)) * (t1 + d) == c * (t1 + d) - c * d;
    }
    assert q2 == c - (c * d) / (t2 + d) by {
      assert (c - (c * d) / (t2 + d)) * (t2 + d) == c * (t2 + d) - c * d;
    }
    RatioAntitone(c * d, c * d, t1 + d, t2 + d);
  }

  lemma ScaleMonotone(k: real, x: real, y: real)
    requires k >= 0.0 && x <= y
    ensures k * x <= k * y
  {
  }

  /** The score `rank` gives one document: the sum of the query words' terms,
      each query word counted as often as it occurs. An empty corpus leaves
      the idf table empty, so every document scores 0. */
  function Bm25Score(corpus: seq<string>, queryWords: seq<string>, doc: string,
                     ln: real -> real): (r: real)
    requires Numeric.IsLogarithm(ln)
    ensures r >= 0.0
    ensures |corpus| == 0 ==> r == 0.0
  {
    if |corpus| == 0 then 0.0
    else
      var avg := AvgDocLength(corpus);
      var term := (w: string) => Bm25Term(Bm25Idf(corpus, w, ln), WordFrequency(doc, w), SpaceFields(doc), avg);
      forall i | 0 <= i < |queryWords| ensures term(queryWords[i]) >= 0.0 {
        Bm25TermBounds(Bm25Idf(corpus, queryWords[i], ln), WordFrequency(doc, queryWords[i]),
                       SpaceFields(doc), avg);
      }
      Seqs.SumOfNonNegative(queryWords, term);
      Seqs.SumOf(queryWords, term)
  }

  /** A document in which no query word occurs scores 0. */
  lemma Bm25NoMatchScoresZero(corpus: seq<string>, queryWords: seq<string>, doc: string,
                              ln: real -> real)
    requires Numeric.IsLogarithm(ln)
    requires forall i :: 0 <= i < |queryWords| ==> WordFrequency(doc, queryWords[i]) == 0
    ensures Bm25Score(corpus, queryWords, doc, ln) == 0.0
  {
    if |corpus| > 0 {
      var avg := AvgDocLength(corpus);
      var term := (w: string) => Bm25Term(Bm25Idf(corpus, w, ln), WordFrequency(doc, w), SpaceFields(doc), avg);
      forall i | 0 <= i < |queryWords| ensures term(queryWords[i]) == 0.0 {
        Bm25TermBounds(Bm25Idf(corpus, queryWords[i], ln), 0, SpaceFields(doc), avg);
      }
      Seqs.SumOfZero(queryWords, term);
    }
  }

  /** `BM25Ranker.rank`: the documents' indices, best BM25 score first. */
  function Bm25Rank(corpus: seq<string>, query: string, documents: seq<string>,
                    ln: real -> real): (r: seq<nat>)
    requires Numeric.IsLogarithm(ln)
    ensures |r| == |documents|
    ensures multiset(r) == multiset(Seqs.Range(|documents|))
    ensures forall i :: 0 <= i < |r| ==> r[i] < |documents|
    ensures forall i, j :: 0 <= i < j < |r| ==>
              Bm25Score(corpus, Text.Words(Text.Lower(query)), documents[r[i]], ln)
              >= Bm25Score(corpus, Text.Words(Text.Lower(query)), documents[r[j]], ln)
  {
    var queryWords := Text.Words(Text.Lower(query));
    RankIndices(seq(|documents|, k requires 0 <= k < |documents| =>
      Bm25Score(corpus, queryWords, documents[k], ln)))
  }

  /** With an empty corpus every score is 0 and the ranking is the identity. */
  lemma Bm25EmptyCorpusKeepsOrder(query: string, documents: seq<string>, ln: real -> real)
    requires Numeric.IsLogarithm(ln)
    ensures Bm25Rank([], query, documents, ln) == Seqs.Range(|documents|)
  {
    var queryWords := Text.Words(Text.Lower(query));
    RankIndicesEqualScores(seq(|documents|, k requires 0 <= k < |documents| =>
      Bm25Score([], queryWords, documents[k], ln)), 0.0);
  }

  // ---------------------------------------------------------------------------
  // TF-IDF

  /** The TF-IDF idf of a word found in `df > 0` of the documents; words in
      no document have no entry, read as 0. */
  function TfIdfIdf(documents: seq<string>, word: string, ln: real -> real): (r: real)
    requires Numeric.IsLogarithm(ln)
    ensures DocFrequency(documents, word) == 0 ==> r == 0.0
    ensures DocFrequency(documents, word) == |documents| > 0 ==> r < 0.0
  {
    var df := DocFrequency(documents, word);
    if df == 0 then 0.0
    else
      var x := |documents| as real / (df as real + 1.0);
      UbiquitousWordNegative(|documents|, df, ln);
      ln(x)
  }

  lemma UbiquitousWordNegative(n: nat, df: nat, ln: real -> real)
    requires Numeric.IsLogarithm(ln)
    ensures df == n > 0 ==> ln(n as real / (df as real + 1.0)) < 0.0
  {
    if df == n > 0 {
      var x := n as real / (df as real + 1.0);
      assert x * (df as real + 1.0) == df as real;
      Numeric.LogNegative(ln, x);
    }
  }

  /** A word found in fewer than `n - 1` of `n` documents gets a positive idf. */
  lemma TfIdfIdfRare(documents: seq<string>, word: string, ln: real -> real)
    requires Numeric.IsLogarithm(ln)
    requires 0 < DocFrequency(documents, word) && DocFrequency(documents, word) + 1 < |documents|
    ensures TfIdfIdf(documents, word, ln) > 0.0
  {
    var df := DocFrequency(documents, word);
    var d := df as real + 1.0;
    var x := |documents| as real / d;
    assert x > 1.0 by {
      assert x * d == |documents| as real;
      assert |documents| as real > d;
    }
    Numeric.LogPositive(ln, x);
    assert TfIdfIdf(documents, word, ln) == ln(x);
  }

  /** `tf[word] || 0` on a table of reals. */
  function Entry(table: map<string, real>, word: string): real {
    if word in table then table[word] else 0.0
  }

  /** `calculateTF`: for each word in turn, `tf[word] = (tf[word] || 0) / total`.
      The accumulator is divided but never incremented. */
  function TfTable(words: seq<string>, total: real): (tf: map<string, real>)
    requires total > 0.0
    ensures forall w :: w in tf <==> w in words
    ensures forall w :: w in tf ==> tf[w] == 0.0
    decreases |words|
  {
    if |words| == 0 then map[]
    else
      var front := TfTable(words[..|words| - 1], total);
      var w := words[|words| - 1];
      assert words == words[..|words| - 1] + [w];
      front[w := Entry(front, w) / total]
  }

  /** `calculateTF(text)` on the lower-cased white-space fields of `text`. */
  function TermFrequencies(text: string): (tf: map<string, real>)
    ensures forall w :: w in tf <==> HasWord(text, w)
    ensures forall w :: w in tf ==> tf[w] == 0.0
  {
    var words := Text.Words(Text.Lower(text));
    TfTable(words, |words| as real)
  }

  /** One document's score: the sum over the query's distinct words of
      `queryTF * docTF * idf`, skipped when the document's frequency is falsy. */
  function TfIdfScore(documents: seq<string>, query: string, doc: string, ln: real -> real): (r: real)
    requires Numeric.IsLogarithm(ln)
  {
    var queryTf := TermFrequencies(query);
    var docTf := TermFrequencies(doc);
    var term := (w: string) =>
      if Entry(docTf, w) != 0.0 then Entry(queryTf, w) * Entry(docTf, w) * TfIdfIdf(documents, w, ln)
      else 0.0;
    Seqs.SumOf(Seqs.Distinct(Text.Words(Text.Lower(query))), term)
  }

  /** Every TF-IDF score is 0: the frequencies it multiplies never leave 0. */
  lemma TfIdfScoreZero(documents: seq<string>, query: string, doc: string, ln: real -> real)
    requires Numeric.IsLogarithm(ln)
    ensures TfIdfScore(documents, query, doc, ln) == 0.0
  {
    var queryTf := TermFrequencies(query);
    var docTf := TermFrequencies(doc);
    var term := (w: string) =>
      if Entry(docTf, w) != 0.0 then Entry(queryTf, w) * Entry(docTf, w) * TfIdfIdf(documents, w, ln)
      else 0.0;
    var keys := Seqs.Distinct(Text.Words(Text.Lower(query)));
    forall i | 0 <= i < |keys| ensures term(keys[i]) == 0.0 {
      assert Entry(docTf, keys[i]) == 0.0;
    }
    Seqs.SumOfZero(keys, term);
  }

  /** `TFIDFRanker.rank`: the documents' indices, best TF-IDF score first. */
  function TfIdfRank(corpus: seq<string>, query: string, documents: seq<string>,
                     ln: real -> real): (r: seq<nat>)
    requires Numeric.IsLogarithm(ln)
    ensures |r| == |documents|
    ensures multiset(r) == multiset(Seqs.Range(|documents|))
    ensures forall i, j :: 0 <= i < j < |r| ==>
              r[i] < |documents| && r[j] < |documents|
              && TfIdfScore(corpus, query, documents[r[i]], ln) >= TfIdfScore(corpus, query, documents[r[j]], ln)
  {
    RankIndices(seq(|documents|, k requires 0 <= k < |documents| =>
      TfIdfScore(corpus, query, documents[k], ln)))
  }

  /** Since every score is 0, the TF-IDF ranking is always `0, 1, ..., n-1`. */
  lemma TfIdfRankKeepsOrder(corpus: seq<string>, query: string, documents: seq<string>,
                            ln: real -> real)
    requires Numeric.IsLogarithm(ln)
    ensures TfIdfRank(corpus, query, documents, ln) == Seqs.Range(|documents|)
  {
    var scores := seq(|documents|, k requires 0 <= k < |documents| =>
      TfIdfScore(corpus, query, documents[k], ln));
    forall i | 0 <= i < |scores| ensures scores[i] == 0.0 {
      TfIdfScoreZero(corpus, query, documents[i], ln);
    }
    RankIndicesEqualScores(scores, 0.0);
  }
}
