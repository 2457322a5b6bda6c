/** The two markdown parsers of the scraper (services/WebScraper.js,
    `parseAmazonMarkdown` and `parseFlipkartMarkdown`): the page is split into
    lines, each trimmed line either opens a new listing (a product link), sets
    the price or the rating of the listing being collected, or is ignored; a
    listing is emitted through `buildProduct` when the next one opens or the
    page ends, provided it has a title and a price. What the site's regular
    expressions find on a line is supplied by a `matcher` parameter. */
module ScraperMarkdown {
  import opened Wrappers
  import opened Text
  import Seqs
  import opened WebScraper

  /** A markdown link `[text](url)`. */
  datatype Link = Link(text: string, url: string)

  /** The regular-expression matches on one trimmed line: the image URL, the
      caption of an `![Image N: caption]` image (Amazon only), the product link,
      and the `M.R.P: ₹…` fragment (Amazon only). */
  datatype LineMatch = LineMatch(
    image: Option<string>, imageTitle: Option<string>, link: Option<Link>, mrp: Option<string>)

  datatype Site = Amazon | Flipkart

  /** The `source` recorded for each site. */
  function SourceName(site: Site): string {
    match site
    case Amazon => "Amazon India"
    case Flipkart => "Flipkart"
  }

  /** Substring of the lower-cased line that marks an Amazon price line. */
  const AmazonPriceMarker: string := "price, product page["
  /** Substring that marks an Amazon rating line (case-sensitive). */
  const AmazonRatingMarker: string := "out of 5 stars"
  /** The rupee sign that marks a Flipkart price line. */
  const FlipkartPriceMarker: string := "\U{20B9}"
  /** Substring of the lower-cased line that marks a Flipkart rating line. */
  const FlipkartRatingMarker: string := "out of 5"

  /** The loop's variables: the listing being collected (`current`) and the
      products emitted so far. */
  datatype ParseState = ParseState(current: Option<Entry>, products: seq<ScrapedProduct>)

  const Start: ParseState := ParseState(None, [])

  /** The guard of `flush`: a truthy title and a truthy price. */
  predicate Complete(e: Entry) {
    |e.title| > 0 && e.price > 0
  }

  /** `flush`: emit the current listing when it is complete, then forget it. */
  function Flush(st: ParseState): ParseState {
    var done :=
      if st.current.Some? && Complete(st.current.value) then st.products + [BuildProduct(st.current.value)]
      else st.products;
    ParseState(None, done)
  }

  /** Flush, then start a listing with the given title and the line's link and
      image; price, MRP and rating are still missing. */
  function Open(site: Site, st: ParseState, title: string, m: LineMatch): ParseState
    requires m.link.Some?
  {
    var e := Entry(title, 0, 0, 0.0, m.image.GetOr(""), SourceName(site), m.link.value.url);
    ParseState(Some(e), Flush(st).products)
  }

  /** The price branch of the loop. Amazon takes the price from a line whose
      lower-cased text holds the price marker and the MRP from the `M.R.P`
      fragment, falling back to the price; Flipkart takes it from a line holding
      the rupee sign and sets the MRP to the price. A zero price changes
      nothing. */
  function PriceLine(site: Site, st: ParseState, line: string, m: LineMatch): ParseState {
    if st.current.None? then st
    else
      var e := st.current.value;
      match site
      case Amazon =>
        if !Contains(Lower(line), AmazonPriceMarker) then st
        else
          var price := ExtractPrice(line);
          var mrp := if m.mrp.Some? then ExtractPrice(m.mrp.value) else price;
          if price == 0 then st
          else ParseState(Some(e.(price := price, mrp := if mrp > 0 then mrp else price)), st.products)
      case Flipkart =>
        if !Contains(line, FlipkartPriceMarker) then st
        else
          var price := ExtractPrice(line);
          if price == 0 then st
          else ParseState(Some(e.(price := price, mrp := price)), st.products)
  }

  /** Whether a line is a rating line: Amazon matches the marker exactly,
      Flipkart on the lower-cased line. */
  predicate RatingMarked(site: Site, line: string) {
    match site
    case Amazon => Contains(line, AmazonRatingMarker)
    case Flipkart => Contains(Lower(line), FlipkartRatingMarker)
  }

  /** The rating branch of the loop. */
  function RatingLine(site: Site, st: ParseState, line: string): ParseState {
    if st.current.Some? && RatingMarked(site, line) then
      ParseState(Some(st.current.value.(rating := ExtractRating(line))), st.products)
    else st
  }

  /** One iteration on a non-empty trimmed line. An Amazon line with both an
      image caption and a product link opens a listing titled by the caption;
      otherwise a product link whose sanitised text is longer than three
      characters opens one; any other line may set the price, then the
      rating. */
  function Step(site: Site, st: ParseState, line: string, m: LineMatch): ParseState {
    if site.Amazon? && m.imageTitle.Some? && m.link.Some? then
      Open(site, st, SanitizeText(m.imageTitle.value), m)
    else if m.link.Some? && |SanitizeText(m.link.value.text)| > 3 then
      Open(site, st, SanitizeText(m.link.value.text), m)
    else
      RatingLine(site, PriceLine(site, st, line, m), line)
  }

  /** The iteration on one raw line: trimmed, and skipped when empty. */
  function Feed(site: Site, st: ParseState, raw: string, matcher: string -> LineMatch): ParseState {
    var line := Trim(raw);
    if |line| == 0 then st else Step(site, st, line, matcher(line))
  }

  /** The loop over the lines. */
  function ParseLines(site: Site, lines: seq<string>, matcher: string -> LineMatch, st: ParseState): ParseState
    decreases |lines|
  {
    if |lines| == 0 then st
    else ParseLines(site, lines[1..], matcher, Feed(site, st, lines[0], matcher))
  }

  /** A line that can open a listing: non-empty once trimmed, with a product
      link on it. */
  function LinkLine(matcher: string -> LineMatch): string -> bool {
    (l: string) => |Trim(l)| > 0 && matcher(Trim(l)).link.Some?
  }

  /** What every emitted product satisfies: a non-empty sanitised title, a
      positive price and MRP, the site's source, and for Flipkart an MRP equal
      to the price. */
  predicate Emitted(site: Site, p: ScrapedProduct) {
    |p.title| > 0 && SanitizeText(p.title) == p.title && p.price > 0 && p.mrp > 0
    && p.source == SourceName(site) && (site.Flipkart? ==> p.mrp == p.price)
  }

  /** What the listing being collected satisfies between iterations. */
  predicate EntryOk(site: Site, e: Entry) {
    SanitizeText(e.title) == e.title && e.source == SourceName(site)
    && (e.price > 0 ==> e.mrp > 0) && (site.Flipkart? ==> e.mrp == e.price)
  }

  predicate StateOk(site: Site, st: ParseState) {
    (st.current.Some? ==> EntryOk(site, st.current.value))
    && forall i :: 0 <= i < |st.products| ==> Emitted(site, st.products[i])
  }

  /** The products emitted plus the one being collected. */
  function Load(st: ParseState): nat {
    |st.products| + (if st.current.Some? then 1 else 0)
  }

  /** `parseAmazonMarkdown` / `parseFlipkartMarkdown`: an empty page gives no
      products; otherwise the lines are folded and the last listing flushed.
      Every product satisfies `Emitted`, and there are no more of them than
      lines carrying a product link. */
  function ParseMarkdown(site: Site, markdown: string, matcher: string -> LineMatch): (r: seq<ScrapedProduct>)
    ensures |markdown| == 0 ==> r == []
    ensures forall i :: 0 <= i < |r| ==> Emitted(site, r[i])
    ensures |r| <= Seqs.CountWhere(SplitOn(markdown, '\n'), LinkLine(matcher))
  {
    if |markdown| == 0 then []
    else
      var lines := SplitOn(markdown, '\n');
      ParseLinesOk(site, lines, matcher, Start);
      FlushOk(site, ParseLines(site, lines, matcher, Start));
      Flush(ParseLines(site, lines, matcher, Start)).products
  }

  // ---------------------------------------------------------------------------
  // The loop invariant

  /** A complete listing that keeps the invariant builds an emitted product. */
  lemma BuildEmitted(site: Site, e: Entry)
    requires EntryOk(site, e) && Complete(e)
    ensures Emitted(site, BuildProduct(e))
  {
    var p := BuildProduct(e);
    assert p.title == SanitizeText(e.title) == e.title;
  }

  /** `flush` keeps the invariant and does not increase the load. */
  lemma FlushOk(site: Site, st: ParseState)
    requires StateOk(site, st)
    ensures StateOk(site, Flush(st)) && Load(Flush(st)) <= Load(st)
  {
    if st.current.Some? && Complete(st.current.value) {
      BuildEmitted(site, st.current.value);
    }
  }

  /** Opening a listing keeps the invariant and adds at most one to the load. */
  lemma OpenOk(site: Site, st: ParseState, title: string, m: LineMatch)
    requires StateOk(site, st) && m.link.Some? && SanitizeText(title) == title
    ensures StateOk(site, Open(site, st, title, m)) && Load(Open(site, st, title, m)) <= Load(st) + 1
  {
    FlushOk(site, st);
  }

  /** The price branch keeps the invariant and the load. */
  lemma PriceLineOk(site: Site, st: ParseState, line: string, m: LineMatch)
    requires StateOk(site, st)
    ensures StateOk(site, PriceLine(site, st, line, m)) && Load(PriceLine(site, st, line, m)) == Load(st)
  {
    var r := PriceLine(site, st, line, m);
    assert r.products == st.products && r.current.Some? == st.current.Some?;
    if r.current.Some? {
      assert r.current.value.title == st.current.value.title && r.current.value.source == st.current.value.source;
    }
  }

  /** The rating branch keeps the invariant and the load. */
  lemma RatingLineOk(site: Site, st: ParseState, line: string)
    requires StateOk(site, st)
    ensures StateOk(site, RatingLine(site, st, line)) && Load(RatingLine(site, st, line)) == Load(st)
  {
  }

  /** One iteration keeps the invariant; only a line with a product link can
      add to the load. */
  lemma StepOk(site: Site, st: ParseState, line: string, m: LineMatch)
    requires StateOk(site, st)
    ensures StateOk(site, Step(site, st, line, m))
    ensures Load(Step(site, st, line, m)) <= Load(st) + (if m.link.Some? then 1 else 0)
  {
    if site.Amazon? && m.imageTitle.Some? && m.link.Some? {
      SanitizeIdempotent(m.imageTitle.value);
      OpenOk(site, st, SanitizeText(m.imageTitle.value), m);
    } else if m.link.Some? && |SanitizeText(m.link.value.text)| > 3 {
      SanitizeIdempotent(m.link.value.text);
      OpenOk(site, st, SanitizeText(m.link.value.text), m);
    } else {
      PriceLineOk(site, st, line, m);
      RatingLineOk(site, PriceLine(site, st, line, m), line);
    }
  }

  /** The loop keeps the invariant, and its load grows by at most the number
      of link lines. */
  lemma {:induction false} ParseLinesOk(site: Site, lines: seq<string>, matcher: string -> LineMatch, st: ParseState)
    requires StateOk(site, st)
    ensures StateOk(site, ParseLines(site, lines, matcher, st))
    ensures Load(ParseLines(site, lines, matcher, st)) <= Load(st) + Seqs.CountWhere(lines, LinkLine(matcher))
    decreases |lines|
  {
    if |lines| > 0 {
      var line := Trim(lines[0]);
      if |line| > 0 {
        StepOk(site, st, line, matcher(line));
      }
      ParseLinesOk(site, lines[1..], matcher, Feed(site, st, lines[0], matcher));
    }
  }

  // ---------------------------------------------------------------------------
  // Pages of one and two lines

  /** Splitting two lines joined by a line break gives them back. */
  lemma SplitTwoLines(a: string, b: string)
    requires '\n' !in a && '\n' !in b
    ensures SplitOn(a + "\n" + b, '\n') == [a, b]
  {
    var s := a + "\n" + b;
    forall k | 0 <= k < |a| ensures s[k] != '\n' {
      assert s[k] == a[k];
    }
    assert s[|a|] == '\n';
    assert IndexOf(s, '\n') == |a|;
    assert s[..|a|] == a && s[|a| + 1..] == b;
    assert IndexOf(b, '\n') == |b|;
  }

  /** A page of one line is that line fed to the loop, then flushed. */
  lemma ParseOneLine(site: Site, l: string, matcher: string -> LineMatch)
    requires '\n' !in l && |l| > 0
    ensures ParseMarkdown(site, l, matcher) == Flush(Feed(site, Start, l, matcher)).products
  {
    assert IndexOf(l, '\n') == |l|;
    assert SplitOn(l, '\n') == [l];
    assert [l][1..] == [];
    assert ParseLines(site, [l], matcher, Start) == ParseLines(site, [], matcher, Feed(site, Start, l, matcher));
  }

  /** A page of two lines is those lines fed in order, then flushed. */
  lemma ParseTwoLines(site: Site, l1: string, l2: string, matcher: string -> LineMatch)
    requires '\n' !in l1 && '\n' !in l2
    ensures ParseMarkdown(site, l1 + "\n" + l2, matcher) ==
      Flush(Feed(site, Feed(site, Start, l1, matcher), l2, matcher)).products
  {
    SplitTwoLines(l1, l2);
    var lines := [l1, l2];
    assert lines[1..] == [l2] && [l2][1..] == [];
    var st1 := Feed(site, Start, l1, matcher);
    assert ParseLines(site, lines, matcher, Start) == ParseLines(site, [l2], matcher, st1);
    assert ParseLines(site, [l2], matcher, st1) == ParseLines(site, [], matcher, Feed(site, st1, l2, matcher));
  }

  /** The first listing opened has no price yet, and nothing is emitted. */
  lemma StepFromStart(site: Site, line: string, m: LineMatch)
    ensures Step(site, Start, line, m).products == []
    ensures Step(site, Start, line, m).current.Some? ==> Step(site, Start, line, m).current.value.price == 0
  {
    if !(site.Amazon? && m.imageTitle.Some? && m.link.Some?) && !(m.link.Some? && |SanitizeText(m.link.value.text)| > 3) {
      assert PriceLine(site, Start, line, m) == Start;
    }
  }

  /** A page of one line yields nothing: the line may open a listing, but no
      later line gives it a price. */
  lemma OneLineNoProduct(site: Site, line: string, matcher: string -> LineMatch)
    requires '\n' !in line
    ensures ParseMarkdown(site, line, matcher) == []
  {
    if |line| > 0 {
      ParseOneLine(site, line, matcher);
      var t := Trim(line);
      if |t| > 0 {
        StepFromStart(site, t, matcher(t));
      }
    }
  }

  /** A Flipkart listing: a link line followed by a price line yields one
      product titled by the sanitised link text, priced from the price line,
      with the MRP equal to the price. */
  lemma FlipkartListing(l1: string, l2: string, matcher: string -> LineMatch, text: string, url: string)
    requires '\n' !in l1 && '\n' !in l2
    requires |Trim(l1)| > 0 && matcher(Trim(l1)).link == Some(Link(text, url)) && |SanitizeText(text)| > 3
    requires |Trim(l2)| > 0 && matcher(Trim(l2)).link.None?
    requires Contains(Trim(l2), FlipkartPriceMarker) && ExtractPrice(Trim(l2)) > 0
    requires !Contains(Lower(Trim(l2)), FlipkartRatingMarker)
    ensures ParseMarkdown(Flipkart, l1 + "\n" + l2, matcher) ==
      [BuildProduct(Entry(SanitizeText(text), ExtractPrice(Trim(l2)), ExtractPrice(Trim(l2)), 0.0,
                          matcher(Trim(l1)).image.GetOr(""), "Flipkart", url))]
  {
    ParseTwoLines(Flipkart, l1, l2, matcher);
    var price := ExtractPrice(Trim(l2));
    var e := Entry(SanitizeText(text), 0, 0, 0.0, matcher(Trim(l1)).image.GetOr(""), "Flipkart", url);
    var st1 := Feed(Flipkart, Start, l1, matcher);
    assert st1 == ParseState(Some(e), []);
    var st2 := Feed(Flipkart, st1, l2, matcher);
    assert st2 == ParseState(Some(e.(price := price, mrp := price)), []) by {
      assert PriceLine(Flipkart, st1, Trim(l2), matcher(Trim(l2))) == st2;
    }
  }

  /** An Amazon listing: a line with an image caption and a product link,
      followed by a price line with an `M.R.P` fragment, yields one product
      titled by the caption (not the link text), priced from the price line,
      with the MRP read from the fragment. */
  lemma AmazonListing(l1: string, l2: string, matcher: string -> LineMatch, caption: string, link: Link, mrpText: string)
    requires '\n' !in l1 && '\n' !in l2
    requires |Trim(l1)| > 0 && matcher(Trim(l1)).imageTitle == Some(caption) && matcher(Trim(l1)).link == Some(link)
    requires |Trim(l2)| > 0 && matcher(Trim(l2)).link.None? && matcher(Trim(l2)).mrp == Some(mrpText)
    requires Contains(Lower(Trim(l2)), AmazonPriceMarker) && ExtractPrice(Trim(l2)) > 0 && ExtractPrice(mrpText) > 0
    requires !Contains(Trim(l2), AmazonRatingMarker)
    requires |SanitizeText(caption)| > 0
    ensures ParseMarkdown(Amazon, l1 + "\n" + l2, matcher) ==
      [BuildProduct(Entry(SanitizeText(caption), ExtractPrice(Trim(l2)), ExtractPrice(mrpText), 0.0,
                          matcher(Trim(l1)).image.GetOr(""), "Amazon India", link.url))]
  {
    ParseTwoLines(Amazon, l1, l2, matcher);
    var price := ExtractPrice(Trim(l2));
    var e := Entry(SanitizeText(caption), 0, 0, 0.0, matcher(Trim(l1)).image.GetOr(""), "Amazon India", link.url);
    var st1 := Feed(Amazon, Start, l1, matcher);
    assert st1 == ParseState(Some(e), []);
    var st2 := Feed(Amazon, st1, l2, matcher);
    assert st2 == ParseState(Some(e.(price := price, mrp := ExtractPrice(mrpText))), []) by {
      assert PriceLine(Amazon, st1, Trim(l2), matcher(Trim(l2))) == st2;
    }
  }
}
