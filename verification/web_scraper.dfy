/** The deterministic helpers of the scraper (services/WebScraper.js): reading
    prices and ratings out of scraped text, white-space sanitising, brand
    derivation, the reader-proxy URL rewrite, building a product record,
    title-prefix de-duplication and the brand-keyword template lookup. The
    two markdown parsers are in `ScraperMarkdown`. Network access and the HTML
    selectors are not part of this model. */
module WebScraper {
  import opened Wrappers
  import opened Text
  import Seqs
  import Js

  // ---------------------------------------------------------------------------
  // Scanning helpers

  /** Position of the first character satisfying `p`, or `|s|`. */
  function FirstWhere(s: string, p: char -> bool): (i: nat)
    ensures i <= |s|
    ensures forall k :: 0 <= k < i ==> !p(s[k])
    ensures i < |s| ==> p(s[i])
    decreases |s|
  {
    if |s| == 0 || p(s[0]) then 0 else 1 + FirstWhere(s[1..], p)
  }

  /** Length of the longest prefix of `s` whose characters all satisfy `p`. */
  function RunLength(s: string, p: char -> bool): (n: nat)
    ensures n <= |s|
    ensures forall k :: 0 <= k < n ==> p(s[k])
    ensures n < |s| ==> !p(s[n])
    decreases |s|
  {
    if |s| == 0 || !p(s[0]) then 0 else 1 + RunLength(s[1..], p)
  }

  /** The first `p`-character of `pre + rest` is the head of `rest` when `pre`
      has none. */
  lemma FirstWhereAfter(pre: string, rest: string, p: char -> bool)
    requires forall k :: 0 <= k < |pre| ==> !p(pre[k])
    requires |rest| > 0 && p(rest[0])
    ensures FirstWhere(pre + rest, p) == |pre|
  {
    var s := pre + rest;
    forall k | 0 <= k < |pre| ensures !p(s[k]) {
      assert s[k] == pre[k];
    }
    assert s[|pre|] == rest[0];
  }

  /** A run of `p`-characters followed by a character outside `p` (or by
      nothing) is exactly the leading run. */
  lemma RunLengthOf(w: string, post: string, p: char -> bool)
    requires forall k :: 0 <= k < |w| ==> p(w[k])
    requires |post| == 0 || !p(post[0])
    ensures RunLength(w + post, p) == |w|
  {
    var s := w + post;
    forall k | 0 <= k < |w| ensures p(s[k]) {
      assert s[k] == w[k];
    }
    assert |post| > 0 ==> s[|w|] == post[0];
  }

  /** In `pre + w + post`, with no `p`-character in `pre`, a non-empty run `w`
      of them, and `post` not continuing it, the scan finds `w` and leaves
      `post`. */
  lemma ScanAt(pre: string, w: string, post: string, p: char -> bool)
    requires forall k :: 0 <= k < |pre| ==> !p(pre[k])
    requires |w| > 0 && forall k :: 0 <= k < |w| ==> p(w[k])
    requires |post| == 0 || !p(post[0])
    ensures var s := pre + w + post;
      && FirstWhere(s, p) == |pre|
      && s[|pre|..] == w + post
      && RunLength(w + post, p) == |w|
      && (w + post)[..|w|] == w && (w + post)[|w|..] == post
  {
    var s := pre + w + post;
    assert s[|pre|..] == w + post;
    assert FirstWhere(s, p) == |pre| by {
      assert s == pre + (w + post);
      FirstWhereAfter(pre, w + post, p);
    }
    assert RunLength(w + post, p) == |w| by {
      RunLengthOf(w, post, p);
    }
    assert (w + post)[..|w|] == w;
    assert (w + post)[|w|..] == post;
  }

  // ---------------------------------------------------------------------------
  // Prices and ratings

  /** The characters of the `[\d,]+` class. */
  predicate IsPriceChar(c: char) {
    IsDigit(c) || c == ','
  }

  /** `extractPrice`: the first maximal run of digits and commas, with the
      commas removed, read as a number; 0 for empty text, for text without
      such a run, and for a run made of commas only (`parseFloat("")` is NaN). */
  function ExtractPrice(text: string): (r: nat)
    ensures (forall k :: 0 <= k < |text| ==> !IsDigit(text[k])) ==> r == 0
  {
    if |text| == 0 then 0
    else
      var i := FirstWhere(text, IsPriceChar);
      if i == |text| then 0
      else
        var t := text[i..];
        var run := t[..RunLength(t, IsPriceChar)];
        var digits := Seqs.Filter(run, IsDigit);
        assert AllDigits(digits);
        if |digits| == 0 then 0
        else
          assert digits[0] in run;
          DigitsValue(digits)
  }

  /** A number written in decimal, preceded by text without digits or commas
      and not followed by one, is read back exactly. */
  lemma ExtractPriceReadsNumber(pre: string, n: nat, post: string)
    requires forall k :: 0 <= k < |pre| ==> !IsPriceChar(pre[k])
    requires |post| == 0 || !IsPriceChar(post[0])
    ensures ExtractPrice(pre + NatToString(n) + post) == n
  {
    var d := NatToString(n);
    ScanAt(pre, d, post, IsPriceChar);
    Seqs.FilterAll(d, IsDigit);
    DigitsValueNatToString(n);
  }

  /** Commas inside the run are dropped: the run's digits, in order, are read
      as one number (the Indian grouping `1,29,999` reads as 129999). */
  lemma ExtractPriceRun(pre: string, run: string, post: string)
    requires forall k :: 0 <= k < |pre| ==> !IsPriceChar(pre[k])
    requires |run| > 0 && forall k :: 0 <= k < |run| ==> IsPriceChar(run[k])
    requires |post| == 0 || !IsPriceChar(post[0])
    ensures var digits := Seqs.Filter(run, IsDigit);
      ExtractPrice(pre + run + post) == if |digits| == 0 then 0 else DigitsValue(digits)
  {
    ScanAt(pre, run, post, IsPriceChar);
  }

  /** A comma that comes before every digit is a run of its own and reads as 0:
      the whole line yields no price, whatever digits follow later. This is the
      case of a line that begins `Price, product page`. */
  lemma ExtractPriceLoneComma(pre: string, post: string)
    requires forall k :: 0 <= k < |pre| ==> !IsPriceChar(pre[k])
    requires |post| == 0 || !IsPriceChar(post[0])
    ensures ExtractPrice(pre + "," + post) == 0
  {
    var text := pre + "," + post;
    assert text == pre + ("," + post);
    FirstWhereAfter(pre, "," + post, IsPriceChar);
    var t := text[|pre|..];
    assert t == "," + post;
    RunLengthOf(",", post, IsPriceChar);
    assert t[..1] == ",";
    Seqs.FilterStep(",", IsDigit);
    assert (",")[1..] == [];
  }

  /** `extractRating`: the first match of `\d+(\.\d+)?` read as a number, or 0
      when the text holds no digit. */
  function ExtractRating(text: string): (r: real)
    ensures r >= 0.0
    ensures (forall k :: 0 <= k < |text| ==> !IsDigit(text[k])) ==> r == 0.0
  {
    var i := FirstWhere(text, IsDigit);
    if i == |text| then 0.0
    else
      var t := text[i..];
      var whole := t[..RunLength(t, IsDigit)];
      var frac := Fraction(t[|whole|..]);
      DigitsValue(whole) as real + DigitsValue(frac) as real / Js.Pow10(|frac|)
  }

  /** The digits of an optional `\.\d+` at the start of `s`; empty when `s`
      does not begin with a point followed by a digit. */
  function Fraction(s: string): (f: string)
    ensures AllDigits(f)
    ensures |f| > 0 <==> |s| >= 2 && s[0] == '.' && IsDigit(s[1])
  {
    if |s| >= 2 && s[0] == '.' && IsDigit(s[1]) then
      var u := s[1..];
      u[..RunLength(u, IsDigit)]
    else ""
  }

  /** A point followed by digits, then something other than a digit, gives
      those digits as the fraction. */
  lemma FractionOf(frac: string, post: string)
    requires |frac| > 0 && AllDigits(frac)
    requires |post| == 0 || !IsDigit(post[0])
    ensures Fraction("." + frac + post) == frac
  {
    var s := "." + frac + post;
    assert s[1..] == frac + post;
    RunLengthOf(frac, post, IsDigit);
    assert (frac + post)[..|frac|] == frac;
  }

  /** A decimal `whole.frac` after text without digits is read as
      `whole + frac / 10^|frac|`. */
  lemma ExtractRatingReadsDecimal(pre: string, whole: string, frac: string, post: string)
    requires forall k :: 0 <= k < |pre| ==> !IsDigit(pre[k])
    requires |whole| > 0 && AllDigits(whole) && |frac| > 0 && AllDigits(frac)
    requires |post| == 0 || !IsDigit(post[0])
    ensures ExtractRating(pre + whole + ("." + frac + post))
         == DigitsValue(whole) as real + DigitsValue(frac) as real / Js.Pow10(|frac|)
  {
    ScanAt(pre, whole, "." + frac + post, IsDigit);
    FractionOf(frac, post);
  }

  /** An integer after text without digits, not followed by a point and a
      digit, is read as that integer. */
  lemma ExtractRatingReadsInteger(pre: string, whole: string, post: string)
    requires forall k :: 0 <= k < |pre| ==> !IsDigit(pre[k])
    requires |whole| > 0 && AllDigits(whole)
    requires |post| == 0 || !IsDigit(post[0])
    requires !(|post| >= 2 && post[0] == '.' && IsDigit(post[1]))
    ensures ExtractRating(pre + whole + post) == DigitsValue(whole) as real
  {
    ScanAt(pre, whole, post, IsDigit);
    assert Fraction(post) == "";
    assert DigitsValue("") as real / Js.Pow10(0) == 0.0;
  }

  // ---------------------------------------------------------------------------
  // White space, brand and URL

  /** Every white-space character is a plain space and no two spaces are
      adjacent. */
  predicate SingleSpaced(s: string) {
    && (forall i :: 0 <= i < |s| && IsSpace(s[i]) ==> s[i] == ' ')
    && (forall i :: 0 <= i < |s| - 1 && s[i] == ' ' ==> s[i + 1] != ' ')
  }

  /** `s.replace(/\s+/g, ' ')`: each maximal run of white space becomes one
      space. */
  function Collapse(s: string): (r: string)
    ensures |r| == 0 <==> |s| == 0
    ensures |r| > 0 ==> (IsSpace(r[0]) <==> IsSpace(s[0]))
    ensures SingleSpaced(r)
    decreases |s|
  {
    if |s| == 0 then ""
    else if IsSpace(s[0]) then " " + Collapse(TrimStart(s))
    else [s[0]] + Collapse(s[1..])
  }

  /** A slice of a single-spaced string is single-spaced. */
  lemma SingleSpacedSlice(s: string, i: nat, j: nat)
    requires i <= j <= |s| && SingleSpaced(s)
    ensures SingleSpaced(s[i..j])
  {
    var t := s[i..j];
    forall k | 0 <= k < |t| - 1 && t[k] == ' ' ensures t[k + 1] != ' ' {
      assert t[k] == s[i + k] && t[k + 1] == s[i + k + 1];
    }
  }

  /** `sanitizeText`: white-space runs collapsed to one space, then trimmed. */
  function SanitizeText(value: string): (r: string)
    ensures SingleSpaced(r)
    ensures |r| > 0 ==> !IsSpace(r[0]) && !IsSpace(r[|r| - 1])
  {
    var c := Collapse(value);
    TrimSlice(c);
    var k := |c| - |TrimStart(c)|;
    SingleSpacedSlice(c, k, k + |Trim(c)|);
    Trim(c)
  }

  /** A string that is already single-spaced is left alone by `Collapse`. */
  lemma {:induction false} CollapseFixed(s: string)
    requires SingleSpaced(s)
    ensures Collapse(s) == s
    decreases |s|
  {
    if |s| > 0 {
      var t := s[1..];
      SingleSpacedSlice(s, 1, |s|);
      CollapseFixed(t);
      if IsSpace(s[0]) {
        assert |t| > 0 ==> !IsSpace(t[0]);
        assert TrimStart(t) == t;
        assert TrimStart(s) == t;
      }
    }
  }

  /** A string with no white space at either end is its own `trim`. */
  lemma TrimFixed(s: string)
    requires |s| > 0 ==> !IsSpace(s[0]) && !IsSpace(s[|s| - 1])
    ensures Trim(s) == s
  {
    assert TrimStart(s) == s;
    assert TrimEnd(s) == s;
  }

  /** Sanitising twice is sanitising once. */
  lemma SanitizeIdempotent(s: string)
    ensures SanitizeText(SanitizeText(s)) == SanitizeText(s)
  {
    var r := SanitizeText(s);
    CollapseFixed(r);
    TrimFixed(r);
  }

  /** Sanitising only touches white space: the other characters, in order,
      are those of the input. */
  lemma SanitizeKeepsContent(s: string)
    ensures StripSpaces(SanitizeText(s)) == StripSpaces(s)
  {
    var c := Collapse(s);
    CollapseKeepsContent(s);
    TrimKeepsContent(c);
  }

  /** `trim` removes white space only. */
  lemma TrimKeepsContent(c: string)
    ensures StripSpaces(Trim(c)) == StripSpaces(c)
  {
    var r := Trim(c);
    var k := |c| - |TrimStart(c)|;
    var a, b := c[..k], c[k + |r|..];
    assert c == a + r + b && StripSpaces(a) == "" && StripSpaces(b) == "" by {
      TrimSlice(c);
      StripSpacesAllSpace(a);
      StripSpacesAllSpace(b);
    }
    StripSpacesAppend(a + r, b);
    StripSpacesAppend(a, r);
  }

  lemma {:induction false} CollapseKeepsContent(s: string)
    ensures StripSpaces(Collapse(s)) == StripSpaces(s)
    decreases |s|
  {
    if |s| > 0 {
      if IsSpace(s[0]) {
        CollapseKeepsContent(TrimStart(s));
        StripSpacesTrimStart(s);
        StripSpacesAppend(" ", Collapse(TrimStart(s)));
      } else {
        CollapseKeepsContent(s[1..]);
        StripSpacesAppend([s[0]], Collapse(s[1..]));
      }
    }
  }

  lemma {:induction false} StripSpacesAllSpace(s: string)
    requires forall i :: 0 <= i < |s| ==> IsSpace(s[i])
    ensures StripSpaces(s) == ""
    decreases |s|
  {
    if |s| > 0 {
      StripSpacesAllSpace(s[1..]);
    }
  }

  /** `deriveBrand`: the first space-separated word of the sanitised title, or
      "Unknown" when the sanitised title is empty. */
  function DeriveBrand(title: string): (r: string)
    ensures |r| > 0
    ensures |SanitizeText(title)| == 0 ==> r == "Unknown"
    ensures |SanitizeText(title)| > 0 ==>
      var s := SanitizeText(title);
      && |r| <= |s| && r == s[..|r|] && NoSpace(r)
      && (|r| == |s| || s[|r|] == ' ')
  {
    var s := SanitizeText(title);
    var first := SplitOn(s, ' ')[0];
    var i := IndexOf(s, ' ');
    assert first == s[..i] by {
      if i < |s| { SplitStep(s, ' '); }
    }
    assert NoSpace(s[..i]) by {
      forall k | 0 <= k < i ensures !IsSpace(s[..i][k]) {
        assert s[..i][k] == s[k];
      }
    }
    assert |s| > 0 ==> i > 0;
    if |first| > 0 then first else "Unknown"
  }

  /** Only the first word matters, and the title's white space does not. */
  lemma DeriveBrandOfSanitized(title: string)
    ensures DeriveBrand(SanitizeText(title)) == DeriveBrand(title)
  {
    SanitizeIdempotent(title);
  }

  /** The reader proxy's prefix. */
  const JinaPrefix: string := "https://r.jina.ai/http://"

  predicate StartsWith(s: string, p: string) {
    |p| <= |s| && s[..|p|] == p
  }

  /** `toJinaUrl`: one leading `http://` or `https://` removed, then the proxy
      prefix put in front. */
  function ToJinaUrl(url: string): (r: string)
    ensures |JinaPrefix| <= |r| && r[..|JinaPrefix|] == JinaPrefix
    ensures var rest := r[|JinaPrefix|..];
      url == rest || url == "http://" + rest || url == "https://" + rest
    ensures r[|JinaPrefix|..] == url <==> !StartsWith(url, "http://") && !StartsWith(url, "https://")
  {
    var stripped :=
      if StartsWith(url, "http://") then url[7..]
      else if StartsWith(url, "https://") then url[8..]
      else url;
    JinaPrefix + stripped
  }

  /** Either scheme is dropped, once, and a URL without one is kept whole. */
  lemma ToJinaUrlScheme(rest: string)
    ensures !StartsWith(rest, "http://") && !StartsWith(rest, "https://") ==> ToJinaUrl(rest) == JinaPrefix + rest
    ensures ToJinaUrl("http://" + rest) == JinaPrefix + rest
    ensures ToJinaUrl("https://" + rest) == JinaPrefix + rest
  {
    var a := "http://" + rest;
    var b := "https://" + rest;
    assert a[..7] == "http://" && a[7..] == rest;
    assert b[..8] == "https://" && b[8..] == rest;
    assert b[..7] != "http://" by {
      assert b[..7][4] == 's';
    }
  }

  // ---------------------------------------------------------------------------
  // Product records

  /** The fields a parser has gathered for one listing. A price, MRP or rating
      that was never found is 0, which JavaScript's `||` treats exactly as a
      missing value; an absent URL or image is the empty string. */
  datatype Entry = Entry(
    title: string, price: nat, mrp: nat, rating: real,
    image: string, source: string, url: string)

  /** The plain object `buildProduct` returns. */
  datatype ScrapedProduct = ScrapedProduct(
    title: string, description: string, rating: real, stock: nat,
    price: nat, mrp: nat, currency: string, category: string, brand: string,
    salesCount: nat, returnRate: real, complaintCount: nat,
    source: string, url: Option<string>, image: Option<string>)

  /** `value || null` for a string. */
  function OrNull(value: string): (r: Option<string>)
    ensures r.None? <==> |value| == 0
    ensures r.Some? ==> r.value == value
  {
    if |value| == 0 then None else Some(value)
  }

  /** `buildProduct`: the title sanitised and reused as description, the
      brand derived from it, zero stock and counters, the MRP falling back to
      the price and the rating to 0. */
  function BuildProduct(e: Entry): (r: ScrapedProduct)
    ensures r.title == SanitizeText(e.title) && r.description == r.title && SanitizeText(r.title) == r.title
    ensures r.url.None? <==> |e.url| == 0
    ensures r.url.Some? ==> r.url.value == e.url
    ensures r.image.None? <==> |e.image| == 0
    ensures r.image.Some? ==> r.image.value == e.image
    ensures r.brand == DeriveBrand(e.title)
    ensures r.price == e.price && (e.mrp > 0 ==> r.mrp == e.mrp) && (e.mrp == 0 ==> r.mrp == e.price)
    ensures r.rating == e.rating
    ensures r.stock == 0 && r.salesCount == 0 && r.returnRate == 0.0 && r.complaintCount == 0
    ensures r.currency == "INR" && r.category == "Electronics" && r.source == e.source
  {
    var title := SanitizeText(e.title);
    SanitizeIdempotent(e.title);
    ScrapedProduct(
      title, title, if e.rating != 0.0 then e.rating else 0.0, 0,
      e.price, if e.mrp > 0 then e.mrp else e.price, "INR", "Electronics",
      DeriveBrand(title), 0, 0.0, 0, e.source, OrNull(e.url), OrNull(e.image))
  }

  // ---------------------------------------------------------------------------
  // De-duplication

  /** The de-duplication key: the lower-cased title cut to 30 characters. */
  function TitleKey(p: ScrapedProduct): (k: string)
    ensures |k| <= 30 && |k| <= |p.title| && k == Lower(p.title)[..|k|]
    ensures |k| == if |p.title| <= 30 then |p.title| else 30
  {
    var t := Lower(p.title);
    if |t| <= 30 then t else t[..30]
  }

  /** The keys of the elements of `s`. */
  function KeysOf<T, K(==)>(s: seq<T>, key: T -> K): set<K>
    decreases |s|
  {
    if |s| == 0 then {} else KeysOf(s[..|s| - 1], key) + {key(s[|s| - 1])}
  }

  lemma KeysOfAppend<T, K>(s: seq<T>, x: T, key: T -> K)
    ensures KeysOf(s + [x], key) == KeysOf(s, key) + {key(x)}
  {
    assert (s + [x])[..|s|] == s;
  }

  /** A key belongs to `KeysOf(s, key)` exactly when some element of `s` has it. */
  lemma {:induction false} KeysOfMembers<T, K>(s: seq<T>, key: T -> K, k: K)
    ensures k in KeysOf(s, key) <==> exists i :: 0 <= i < |s| && key(s[i]) == k
    decreases |s|
  {
    if |s| > 0 {
      var front := s[..|s| - 1];
      KeysOfMembers(front, key, k);
      if k in KeysOf(front, key) {
        var i :| 0 <= i < |front| && key(front[i]) == k;
        assert s[i] == front[i];
      }
      if exists i :: 0 <= i < |s| && key(s[i]) == k {
        var i :| 0 <= i < |s| && key(s[i]) == k;
        if i < |front| {
          assert s[i] == front[i];
        }
      }
    }
  }

  ghost predicate KeysDistinct<T, K>(s: seq<T>, key: T -> K) {
    forall i, j :: 0 <= i < j < |s| ==> key(s[i]) != key(s[j])
  }

  /** An element whose key is new keeps the keys distinct. */
  lemma KeysDistinctAppend<T, K>(s: seq<T>, x: T, key: T -> K)
    requires KeysDistinct(s, key) && key(x) !in KeysOf(s, key)
    ensures KeysDistinct(s + [x], key)
  {
    var t := s + [x];
    forall i, j | 0 <= i < j < |t| ensures key(t[i]) != key(t[j]) {
      assert t[i] == s[i];
      if j == |s| {
        KeysOfMembers(s, key, key(s[i]));
      } else {
        assert t[j] == s[j];
      }
    }
  }

  /** Reference definition: the elements whose key no earlier element has, in
      order. */
  function FirstPerKey<T, K(==)>(s: seq<T>, key: T -> K): seq<T>
    decreases |s|
  {
    if |s| == 0 then []
    else
      var front := s[..|s| - 1];
      var x := s[|s| - 1];
      if key(x) in KeysOf(front, key) then FirstPerKey(front, key)
      else FirstPerKey(front, key) + [x]
  }

  /** The reference result keeps the input's order, has pairwise different
      keys, and loses no key. */
  lemma {:induction false} FirstPerKeyShape<T, K>(s: seq<T>, key: T -> K)
    ensures Seqs.IsSubsequence(FirstPerKey(s, key), s)
    ensures KeysDistinct(FirstPerKey(s, key), key)
    ensures KeysOf(FirstPerKey(s, key), key) == KeysOf(s, key)
    decreases |s|
  {
    if |s| > 0 {
      var front := s[..|s| - 1];
      var x := s[|s| - 1];
      var r := FirstPerKey(front, key);
      FirstPerKeyShape(front, key);
      assert s == front + [x];
      KeysOfAppend(front, x, key);
      Seqs.SubsequenceExtend(r, front, x);
      if key(x) !in KeysOf(front, key) {
        Seqs.SubsequenceAppendBoth(r, front, x);
        KeysOfAppend(r, x, key);
        KeysDistinctAppend(r, x, key);
      }
    }
  }

  /** One step of the reference definition. */
  lemma FirstPerKeyStep<T, K>(s: seq<T>, x: T, key: T -> K)
    ensures FirstPerKey(s + [x], key) ==
      if key(x) in KeysOf(s, key) then FirstPerKey(s, key) else FirstPerKey(s, key) + [x]
  {
    var t := s + [x];
    assert t[..|t| - 1] == s && t[|t| - 1] == x;
  }

  /** The number of results `deduplicateProducts` keeps. */
  const MaxResults: nat := 20

  /** The de-duplicating pass: a set of seen keys, an element kept when its
      key is new. */
  method KeepFirstPerKey<T, K(==)>(s: seq<T>, key: T -> K) returns (r: seq<T>)
    ensures r == FirstPerKey(s, key)
  {
    var seen: set<K> := {};
    r := [];
    var i := 0;
    while i < |s|
      invariant 0 <= i <= |s|
      invariant r == FirstPerKey(s[..i], key)
      invariant seen == KeysOf(s[..i], key)
    {
      var x := s[i];
      var k := key(x);
      ghost var prev, next := s[..i], s[..i + 1];
      assert next == prev + [x];
      assert FirstPerKey(next, key) == if k in seen then r else r + [x] by {
        FirstPerKeyStep(prev, x, key);
      }
      assert KeysOf(next, key) == seen + {k} by {
        KeysOfAppend(prev, x, key);
      }
      if k !in seen {
        seen := seen + {k};
        r := r + [x];
      }
      assert r == FirstPerKey(next, key) && seen == KeysOf(next, key);
      i := i + 1;
    }
    assert s[..i] == s;
  }

  /** `deduplicateProducts`: the first product per title key, then the first
      20 of those. */
  method DeduplicateProducts(products: seq<ScrapedProduct>) returns (r: seq<ScrapedProduct>)
    ensures |r| <= MaxResults && |r| <= |FirstPerKey(products, TitleKey)|
    ensures |r| == if |FirstPerKey(products, TitleKey)| <= MaxResults then |FirstPerKey(products, TitleKey)| else MaxResults
    ensures r == FirstPerKey(products, TitleKey)[..|r|]
    ensures |FirstPerKey(products, TitleKey)| <= MaxResults ==> r == FirstPerKey(products, TitleKey)
  {
    var deduped := KeepFirstPerKey(products, TitleKey);
    r := if |deduped| <= MaxResults then deduped else deduped[..MaxResults];
  }

  /** Any prefix of the reference result is an order-preserving selection of
      the input with pairwise different keys. */
  lemma DeduplicatedShape(products: seq<ScrapedProduct>, n: nat)
    requires n <= |FirstPerKey(products, TitleKey)|
    ensures Seqs.IsSubsequence(FirstPerKey(products, TitleKey)[..n], products)
    ensures KeysDistinct(FirstPerKey(products, TitleKey)[..n], TitleKey)
  {
    var all := FirstPerKey(products, TitleKey);
    var r := all[..n];
    FirstPerKeyShape(products, TitleKey);
    Seqs.SubsequencePrefix(all, n);
    Seqs.SubsequenceTrans(r, all, products);
    forall i, j | 0 <= i < j < |r| ensures TitleKey(r[i]) != TitleKey(r[j]) {
      assert r[i] == all[i] && r[j] == all[j];
    }
  }

  // ---------------------------------------------------------------------------
  // Brand-specific templates

  /** A product template of the mock generator. */
  datatype Template = Template(brand: string, model: string, basePrice: real, rating: real)

  /** One row of the keyword table: a query keyword, the brand it stands for and
      the template category to look in. */
  datatype BrandKeyword = BrandKeyword(keyword: string, brand: string, category: string)

  /** The keyword table, in the order `Object.entries` visits it. */
  const BrandKeywords: seq<BrandKeyword> := [
    BrandKeyword("iphone", "Apple", "phone"),
    BrandKeyword("ipad", "Apple", "tablet"),
    BrandKeyword("macbook", "Apple", "laptop"),
    BrandKeyword("galaxy", "Samsung", "phone"),
    BrandKeyword("samsung", "Samsung", "phone"),
    BrandKeyword("oneplus", "OnePlus", "phone"),
    BrandKeyword("xiaomi", "Xiaomi", "phone"),
    BrandKeyword("mi", "Xiaomi", "phone"),
    BrandKeyword("realme", "Realme", "phone"),
    BrandKeyword("vivo", "Vivo", "phone"),
    BrandKeyword("oppo", "Oppo", "phone"),
    BrandKeyword("dell", "Dell", "laptop"),
    BrandKeyword("hp", "HP", "laptop"),
    BrandKeyword("lenovo", "Lenovo", "laptop"),
    BrandKeyword("asus", "ASUS", "laptop"),
    BrandKeyword("acer", "Acer", "laptop"),
    BrandKeyword("msi", "MSI", "laptop"),
    BrandKeyword("thinkpad", "Lenovo", "laptop")
  ]

  /** `template.brand === brand`. */
  function ByBrand(brand: string): Template -> bool {
    (t: Template) => t.brand == brand
  }

  /** `productTemplates[category] || []`. */
  function CategoryTemplates(templates: map<string, seq<Template>>, category: string): seq<Template> {
    if category in templates then templates[category] else []
  }

  /** What row `k` of `table` offers for `query`: the templates of its
      category with its brand, when its keyword occurs in the query. */
  function Offered(table: seq<BrandKeyword>, query: string, templates: map<string, seq<Template>>, k: nat): seq<Template>
    requires k < |table|
  {
    var row := table[k];
    if Contains(query, row.keyword) then
      Seqs.Filter(CategoryTemplates(templates, row.category), ByBrand(row.brand))
    else []
  }

  /** What every row of `table` offers for `query`, in table order. */
  function Offers(table: seq<BrandKeyword>, query: string, templates: map<string, seq<Template>>)
    : (r: seq<seq<Template>>)
    ensures |r| == |table|
    ensures forall j :: 0 <= j < |table| ==> r[j] == Offered(table, query, templates, j)
  {
    seq(|table|, j requires 0 <= j < |table| => Offered(table, query, templates, j))
  }

  /** The scan from row `k` on: the first non-empty offer decides, and nothing
      is returned when every offer is empty. */
  function FirstNonEmpty<T>(offers: seq<seq<T>>, k: nat): (r: seq<T>)
    requires k <= |offers|
    ensures r == [] <==> forall j :: k <= j < |offers| ==> offers[j] == []
    ensures r != [] ==> exists j :: (k <= j < |offers| && r == offers[j]
      && forall i :: k <= i < j ==> offers[i] == [])
    decreases |offers| - k
  {
    if k == |offers| then []
    else if |offers[k]| > 0 then offers[k]
    else
      var r := FirstNonEmpty(offers, k + 1);
      assert forall j :: k <= j < |offers| ==> (offers[j] == [] <==> j == k || offers[j] == []);
      r
  }

  /** `findBrandSpecificProducts(query, productTemplates)` over the fixed
      keyword table: the templates offered by the first row whose keyword
      occurs in the query and whose category holds that brand. */
  function FindBrandSpecificProducts(query: string, templates: map<string, seq<Template>>): (r: seq<Template>)
    ensures r == [] <==> forall j :: 0 <= j < |BrandKeywords| ==> Offered(BrandKeywords, query, templates, j) == []
    ensures r != [] ==> exists j :: (0 <= j < |BrandKeywords| && r == Offered(BrandKeywords, query, templates, j)
      && forall i :: 0 <= i < j ==> Offered(BrandKeywords, query, templates, i) == [])
  {
    FirstNonEmpty(Offers(BrandKeywords, query, templates), 0)
  }

  /** Every template returned has the brand of a keyword found in the query
      and comes from that keyword's category. */
  lemma BrandSpecificSound(query: string, templates: map<string, seq<Template>>, t: Template)
    requires t in FindBrandSpecificProducts(query, templates)
    ensures exists j :: (0 <= j < |BrandKeywords| &&
      Contains(query, BrandKeywords[j].keyword) && t.brand == BrandKeywords[j].brand &&
      t in CategoryTemplates(templates, BrandKeywords[j].category))
  {
    var r := FindBrandSpecificProducts(query, templates);
    var j :| 0 <= j < |BrandKeywords| && r == Offered(BrandKeywords, query, templates, j);
    assert t in Offered(BrandKeywords, query, templates, j);
  }

  /** `c` occurs in `pattern` but not in `text`, so `text` cannot contain
      `pattern`. */
  lemma MissingChar(text: string, pattern: string, c: char)
    requires c in pattern && c !in text
    ensures !Contains(text, pattern)
  {
    var k :| 0 <= k < |pattern| && pattern[k] == c;
    forall i | 0 <= i <= |text| ensures !MatchesAt(text, pattern, i) {
      if i + |pattern| <= |text| {
        assert text[i..i + |pattern|][k] == text[i + k] != c;
      }
    }
  }

  /** The scan returns the first non-empty offer. */
  lemma {:induction false} FirstNonEmptyAt<T>(offers: seq<seq<T>>, k: nat, j: nat)
    requires k <= j < |offers| && offers[j] != []
    requires forall i :: k <= i < j ==> offers[i] == []
    ensures FirstNonEmpty(offers, k) == offers[j]
    decreases j - k
  {
    if k < j {
      FirstNonEmptyAt(offers, k + 1, j);
    }
  }

  lemma RowSeven()
    ensures BrandKeywords[7] == BrandKeyword("mi", "Xiaomi", "phone")
  {
  }

  lemma RowsEarlyA()
    ensures BrandKeywords[0].keyword == "iphone" && BrandKeywords[1].keyword == "ipad"
    ensures BrandKeywords[2].keyword == "macbook" && BrandKeywords[3].keyword == "galaxy"
  {
  }

  lemma RowsEarlyB()
    ensures BrandKeywords[4].keyword == "samsung" && BrandKeywords[5].keyword == "oneplus"
    ensures BrandKeywords[6].keyword == "xiaomi"
  {
  }

  /** Keywords are matched as substrings, in table order: a query that
      contains "mi" (as "premium" does) and none of the seven keywords before it
      gets the Xiaomi phones, whatever else it asks for. */
  lemma MiQueryGivesXiaomiPhones(q: string, templates: map<string, seq<Template>>)
    requires Contains(q, "mi")
    requires forall j :: 0 <= j < 7 ==> !Contains(q, BrandKeywords[j].keyword)
    requires Seqs.Filter(CategoryTemplates(templates, "phone"), ByBrand("Xiaomi")) != []
    ensures FindBrandSpecificProducts(q, templates)
         == Seqs.Filter(CategoryTemplates(templates, "phone"), ByBrand("Xiaomi"))
  {
    var offers := Offers(BrandKeywords, q, templates);
    assert offers[7] == Seqs.Filter(CategoryTemplates(templates, "phone"), ByBrand("Xiaomi")) by {
      RowSeven();
    }
    FirstNonEmptyAt(offers, 0, 7);
  }

  /** A query without the letters `a`, `h` and `o` contains none of the
      seven keywords before "mi". */
  lemma NoEarlyKeyword(q: string)
    requires 'a' !in q && 'h' !in q && 'o' !in q
    ensures forall j :: 0 <= j < 7 ==> !Contains(q, BrandKeywords[j].keyword)
  {
    NoKeywordA(q);
    NoKeywordB(q);
  }

  lemma NoKeywordA(q: string)
    requires 'a' !in q && 'h' !in q
    ensures forall j :: 0 <= j < 4 ==> !Contains(q, BrandKeywords[j].keyword)
  {
    RowsEarlyA();
    assert "iphone"[2] == 'h' && "ipad"[2] == 'a' && "macbook"[1] == 'a' && "galaxy"[1] == 'a';
    MissingChar(q, "iphone", 'h');
    MissingChar(q, "ipad", 'a');
    MissingChar(q, "macbook", 'a');
    MissingChar(q, "galaxy", 'a');
  }

  lemma NoKeywordB(q: string)
    requires 'a' !in q && 'o' !in q
    ensures forall j :: 4 <= j < 7 ==> !Contains(q, BrandKeywords[j].keyword)
  {
    RowsEarlyB();
    assert "samsung"[1] == 'a' && "oneplus"[0] == 'o' && "xiaomi"[2] == 'a';
    MissingChar(q, "samsung", 'a');
    MissingChar(q, "oneplus", 'o');
    MissingChar(q, "xiaomi", 'a');
  }

  /** The query "premium" meets the conditions above: it contains "mi" inside
      the word and none of the earlier keywords. */
  lemma PremiumMatchesMi()
    ensures Contains("premium", "mi")
    ensures forall j :: 0 <= j < 7 ==> !Contains("premium", BrandKeywords[j].keyword)
  {
    var q := "premium";
    assert MatchesAt(q, "mi", 3);
    PremiumLacks(q);
    NoEarlyKeyword(q);
  }

  lemma PremiumLacks(q: string)
    requires q == "premium"
    ensures 'a' !in q && 'h' !in q && 'o' !in q
  {
  }

}
