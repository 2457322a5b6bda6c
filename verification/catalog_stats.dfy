/** The catalog statistics table (data/CatalogStats.js): six categories with
    their brand lists and estimated product counts, the total of the counts,
    the per-category distribution with a one-decimal percentage, and the
    sorted union of all brands. */
module CatalogStats {
  import opened Wrappers
  import opened Text
  import Seqs

  /** One entry of the `categories` object: its key, its brand list and its
      estimated product count. */
  datatype Category = Category(name: string, brands: seq<string>, estimatedCount: nat)

  /** The table, in the order `Object.entries` and `Object.values` visit it. */
  const Catalog: seq<Category> := [
    Category("Mobile Phones", ["Apple", "Samsung", "Xiaomi"], 120),
    Category("Laptops", ["Apple", "Dell", "Lenovo", "HP", "ASUS"], 33),
    Category("Headphones", ["Sony", "Apple", "JBL", "Bose", "Sennheiser", "Boat"], 27),
    Category("Phone Accessories", ["Apple", "Spigen", "OtterBox", "ANKER", "Belkin", "IQ Shield", "MI"], 60),
    Category("Tablets", ["Apple", "Samsung", "Lenovo"], 18),
    Category("Smart Watches", ["Apple", "Samsung", "Garmin", "Fitbit"], 20)
  ]

  // ---------------------------------------------------------------------------
  // getTotalEstimatedProducts

  /** The `reduce` over the categories: the sum of their estimated counts. */
  function TotalEstimated(cats: seq<Category>): (n: nat)
    ensures forall i :: 0 <= i < |cats| ==> cats[i].estimatedCount <= n
    ensures |cats| > 0 && cats[0].estimatedCount > 0 ==> n > 0
    decreases |cats|
  {
    if |cats| == 0 then 0 else cats[0].estimatedCount + TotalEstimated(cats[1..])
  }

  /** The total is additive over a split of the table. */
  lemma {:induction false} TotalEstimatedAppend(a: seq<Category>, b: seq<Category>)
    ensures TotalEstimated(a + b) == TotalEstimated(a) + TotalEstimated(b)
    decreases |a|
  {
    if |a| > 0 {
      assert (a + b)[0] == a[0] && (a + b)[1..] == a[1..] + b;
      TotalEstimatedAppend(a[1..], b);
    } else {
      assert a + b == b;
    }
  }

  /** The counts of the table, in order. */
  lemma CatalogCounts()
    ensures |Catalog| == 6
    ensures Catalog[0].estimatedCount == 120 && Catalog[1].estimatedCount == 33
    ensures Catalog[2].estimatedCount == 27 && Catalog[3].estimatedCount == 60
    ensures Catalog[4].estimatedCount == 18 && Catalog[5].estimatedCount == 20
  {
  }

  /** A table of six categories totals the sum of its six counts. */
  lemma {:induction false} TotalOfSix(cats: seq<Category>)
    requires |cats| == 6
    ensures TotalEstimated(cats) ==
      cats[0].estimatedCount + cats[1].estimatedCount + cats[2].estimatedCount
      + cats[3].estimatedCount + cats[4].estimatedCount + cats[5].estimatedCount
  {
    assert TotalEstimated(cats[6..]) == 0;
    assert cats[1..][1..] == cats[2..] && cats[2..][1..] == cats[3..] && cats[3..][1..] == cats[4..];
    assert cats[4..][1..] == cats[5..] && cats[5..][1..] == cats[6..];
    assert TotalEstimated(cats[5..]) == cats[5].estimatedCount;
    assert TotalEstimated(cats[4..]) == cats[4].estimatedCount + TotalEstimated(cats[5..]);
    assert TotalEstimated(cats[3..]) == cats[3].estimatedCount + TotalEstimated(cats[4..]);
    assert TotalEstimated(cats[2..]) == cats[2].estimatedCount + TotalEstimated(cats[3..]);
    assert TotalEstimated(cats[1..]) == cats[1].estimatedCount + TotalEstimated(cats[2..]);
  }

  /** `getTotalEstimatedProducts()` on the table is 278. */
  lemma CatalogTotal()
    ensures TotalEstimated(Catalog) == 278
  {
    CatalogCounts();
    TotalOfSix(Catalog);
  }

  // ---------------------------------------------------------------------------
  // getCategoryDistribution

  /** The factor `100 / total` that turns a count into a percentage; zero
      stands in for an empty total. */
  function Ratio(total: nat): (k: real)
    ensures total > 0 ==> k > 0.0 && k * total as real == 100.0
  {
    if total == 0 then 0.0 else 100.0 / total as real
  }

  /** `(count / total) * 100` before formatting, written as
      `count * (100 / total)`, which is the same number; `None` stands for the
      `NaN` an empty total gives. */
  function Percentage(count: nat, total: nat): (p: Option<real>)
    ensures p.None? <==> total == 0
    ensures p.Some? ==> p.value >= 0.0 && p.value * total as real == count as real * 100.0
  {
    if total == 0 then None else Some(count as real * Ratio(total))
  }

  /** `x * 10` rounded to the nearest integer, ties upwards. */
  function Tenths(x: real): (t: nat)
    requires x >= 0.0
    ensures t as real <= x * 10.0 + 0.5 < t as real + 1.0
  {
    (x * 10.0 + 0.5).Floor
  }

  /** `x.toFixed(1)` for a non-negative `x`: the integer part, a point and one
      decimal. */
  function ToFixed1(x: real): (r: string)
    requires x >= 0.0
    ensures |r| >= 3 && r[|r| - 2] == '.' && AllDigits(r[..|r| - 2]) && IsDigit(r[|r| - 1])
  {
    var t := Tenths(x);
    NatToString(t / 10) + "." + [DigitChar(t % 10)]
  }

  /** Reading `ToFixed1(x)` back gives a number of tenths within half a tenth
      of `x`. */
  lemma ToFixed1ReadsBack(x: real)
    requires x >= 0.0
    ensures var r := ToFixed1(x);
      var t := DigitsValue(r[..|r| - 2]) * 10 + DigitValue(r[|r| - 1]);
      -0.05 < t as real / 10.0 - x <= 0.05
  {
    var t := Tenths(x);
    var r := ToFixed1(x);
    assert r[..|r| - 2] == NatToString(t / 10);
    DigitsValueNatToString(t / 10);
    assert DigitValue(r[|r| - 1]) == t % 10;
    assert DigitsValue(r[..|r| - 2]) * 10 + DigitValue(r[|r| - 1]) == t;
  }

  /** The percentage text of one category: the formatted value and a percent
      sign, or `NaN%`. */
  function PercentLabel(p: Option<real>): (r: string)
    requires p.Some? ==> p.value >= 0.0
    ensures |r| >= 4 && r[|r| - 1] == '%'
    ensures p.Some? ==> r == ToFixed1(p.value) + "%"
  {
    match p
    case None => "NaN%"
    case Some(v) => ToFixed1(v) + "%"
  }

  /** One entry of the distribution object. */
  datatype Share = Share(category: string, count: nat, percentage: string)

  /** The loop of `getCategoryDistribution` against a given total. */
  function SharesOf(cats: seq<Category>, total: nat): (r: seq<Share>)
    ensures |r| == |cats|
    ensures forall i :: 0 <= i < |r| ==>
      r[i].category == cats[i].name && r[i].count == cats[i].estimatedCount
      && r[i].percentage == PercentLabel(Percentage(cats[i].estimatedCount, total))
    decreases |cats|
  {
    if |cats| == 0 then []
    else
      var c := cats[0];
      [Share(c.name, c.estimatedCount, PercentLabel(Percentage(c.estimatedCount, total)))] + SharesOf(cats[1..], total)
  }

  /** `getCategoryDistribution()`: one entry per category, in table order,
      with its count and its share of the total. */
  function CategoryDistribution(cats: seq<Category>): (r: seq<Share>)
    ensures |r| == |cats|
    ensures forall i :: 0 <= i < |r| ==>
      r[i].category == cats[i].name && r[i].count == cats[i].estimatedCount
      && r[i].percentage == PercentLabel(Percentage(cats[i].estimatedCount, TotalEstimated(cats)))
  {
    SharesOf(cats, TotalEstimated(cats))
  }

  /** The unformatted percentage of a category against a total. */
  function ShareOf(total: nat): Category -> real {
    (c: Category) => c.estimatedCount as real * Ratio(total)
  }

  /** `ShareOf` is the value `Percentage` formats. */
  lemma ShareOfIsPercentage(c: Category, total: nat)
    requires total > 0
    ensures ShareOf(total)(c) == Percentage(c.estimatedCount, total).value
  {
  }

  /** Against any total the unformatted percentages sum to the categories'
      part of it times `100 / total`. */
  lemma {:induction false} SharesSum(cats: seq<Category>, total: nat)
    ensures Seqs.SumOf(cats, ShareOf(total)) == TotalEstimated(cats) as real * Ratio(total)
    decreases |cats|
  {
    if |cats| > 0 {
      SharesSum(cats[1..], total);
    }
  }

  /** The unformatted percentages of the distribution sum to 100 whenever
      the total is not zero. */
  lemma PercentagesSumTo100(cats: seq<Category>)
    requires TotalEstimated(cats) > 0
    ensures Seqs.SumOf(cats, ShareOf(TotalEstimated(cats))) == 100.0
  {
    SharesSum(cats, TotalEstimated(cats));
  }

  // ---------------------------------------------------------------------------
  // getAllBrands

  /** Strictly increasing in code-unit order, hence free of duplicates. */
  predicate StrictlySorted(s: seq<string>) {
    forall i, j :: 0 <= i < j < |s| ==> StrLess(s[i], s[j])
  }

  /** Adding one brand to a strictly sorted list: the set `add` followed by the
      final `sort`, done in one step. */
  function InsertBrand(b: string, s: seq<string>): (r: seq<string>)
    requires StrictlySorted(s)
    ensures StrictlySorted(r)
    ensures forall x :: x in r <==> x in s || x == b
    decreases |s|
  {
    if |s| == 0 then [b]
    else if b == s[0] then s
    else if StrLess(b, s[0]) then
      assert forall j :: 0 <= j < |s| ==> StrLess(b, s[j]) by {
        forall j | 0 <= j < |s| ensures StrLess(b, s[j]) {
          if j > 0 { StrLessTransitive(b, s[0], s[j]); }
        }
      }
      [b] + s
    else
      StrLessTotal(b, s[0]);
      var tail := InsertBrand(b, s[1..]);
      assert forall x :: x in tail ==> StrLess(s[0], x) by {
        forall x | x in tail ensures StrLess(s[0], x) {
          if x != b {
            var j :| 0 <= j < |s[1..]| && s[1..][j] == x;
            assert s[j + 1] == x;
          }
        }
      }
      [s[0]] + tail
  }

  /** Adds every brand of a list, in order. */
  function InsertAll(bs: seq<string>, s: seq<string>): (r: seq<string>)
    requires StrictlySorted(s)
    ensures StrictlySorted(r)
    ensures forall x :: x in r <==> x in s || x in bs
    decreases |bs|
  {
    if |bs| == 0 then s else InsertAll(bs[1..], InsertBrand(bs[0], s))
  }

  /** Every brand listed under some category. */
  ghost predicate ListedBrand(cats: seq<Category>, x: string) {
    exists i :: 0 <= i < |cats| && x in cats[i].brands
  }

  /** The brand union of the categories, inserted into `acc` from the first
      category to the last. */
  function BrandsFrom(cats: seq<Category>, acc: seq<string>): (r: seq<string>)
    requires StrictlySorted(acc)
    ensures StrictlySorted(r)
    ensures forall x :: x in r <==> x in acc || ListedBrand(cats, x)
    decreases |cats|
  {
    if |cats| == 0 then acc
    else
      var r := BrandsFrom(cats[1..], InsertAll(cats[0].brands, acc));
      assert forall x :: ListedBrand(cats, x) <==> x in cats[0].brands || ListedBrand(cats[1..], x) by {
        forall x ensures ListedBrand(cats, x) <==> x in cats[0].brands || ListedBrand(cats[1..], x) {
          if ListedBrand(cats[1..], x) {
            var i :| 0 <= i < |cats[1..]| && x in cats[1..][i].brands;
            assert x in cats[i + 1].brands;
          }
          if ListedBrand(cats, x) && x !in cats[0].brands {
            var i :| 0 <= i < |cats| && x in cats[i].brands;
            assert x in cats[1..][i - 1].brands;
          }
        }
      }
      r
  }

  /** `getAllBrands()`: every brand of every category once, in code-unit
      order. */
  function AllBrands(cats: seq<Category>): (r: seq<string>)
    ensures StrictlySorted(r)
    ensures forall x :: x in r <==> ListedBrand(cats, x)
  {
    BrandsFrom(cats, [])
  }

  /** A strictly sorted list has no repeated element. */
  lemma StrictlySortedDistinct(s: seq<string>)
    requires StrictlySorted(s)
    ensures forall i, j :: 0 <= i < j < |s| ==> s[i] != s[j]
  {
    forall i, j | 0 <= i < j < |s| ensures s[i] != s[j] {
      StrLessIrreflexive(s[i]);
    }
  }

  /** Upper-case letters order before lower-case ones, so in the brand list
      `ASUS` comes before `Apple`. */
  lemma UpperCaseFirst()
    ensures StrLess("ASUS", "Apple")
  {
  }
}
