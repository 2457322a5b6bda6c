/** Levenshtein edit distance: the recursive definition on prefixes and the
    dynamic-programming computation `levenshteinDistance` performs
    (utils/searchUtils.js). */
module EditDistance {

  function Min3(x: nat, y: nat, z: nat): (m: nat)
    ensures m <= x && m <= y && m <= z
    ensures m == x || m == y || m == z
  {
    if x <= y && x <= z then x else if y <= z then y else z
  }

  /** Minimum number of single-character insertions, deletions and
      substitutions turning `a[..i]` into `b[..j]`. */
  function Dist(a: string, b: string, i: nat, j: nat): nat
    requires i <= |a| && j <= |b|
    decreases i + j
  {
    if i == 0 then j
    else if j == 0 then i
    else Min3(Dist(a, b, i - 1, j) + 1,
              Dist(a, b, i, j - 1) + 1,
              Dist(a, b, i - 1, j - 1) + (if a[i - 1] == b[j - 1] then 0 else 1))
  }

  /** The distance between two whole strings. */
  function Distance(a: string, b: string): nat {
    Dist(a, b, |a|, |b|)
  }

  /** The matrix fill of `levenshteinDistance`, one row of the matrix at a
      time: row `j` holds the distances from every prefix of `s1` to `s2[..j]`. */
  method Levenshtein(s1: string, s2: string) returns (d: nat)
    ensures d == Distance(s1, s2)
    ensures |s2| == 0 ==> d == |s1|
    ensures |s1| == 0 ==> d == |s2|
  {
    var prev: seq<nat> := seq(|s1| + 1, i requires 0 <= i <= |s1| => i);
    var j := 1;
    while j <= |s2|
      invariant 1 <= j <= |s2| + 1
      invariant |prev| == |s1| + 1
      invariant forall i :: 0 <= i <= |s1| ==> prev[i] == Dist(s1, s2, i, j - 1)
    {
      prev := NextRow(s1, s2, j, prev);
      j := j + 1;
    }
    d := prev[|s1|];
  }

  /** Fills row `j` of the matrix from row `j - 1`. */
  method NextRow(s1: string, s2: string, j: nat, prev: seq<nat>) returns (cur: seq<nat>)
    requires 1 <= j <= |s2|
    requires |prev| == |s1| + 1
    requires forall i :: 0 <= i <= |s1| ==> prev[i] == Dist(s1, s2, i, j - 1)
    ensures |cur| == |s1| + 1
    ensures forall i :: 0 <= i <= |s1| ==> cur[i] == Dist(s1, s2, i, j)
  {
    cur := [j];
    var i := 1;
    while i <= |s1|
      invariant 1 <= i <= |s1| + 1
      invariant |cur| == i
      invariant RowPrefix(s1, s2, j, cur)
    {
      var indicator := if s1[i - 1] == s2[j - 1] then 0 else 1;
      var next := Min3(cur[i - 1] + 1, prev[i] + 1, prev[i - 1] + indicator);
      DistStep(s1, s2, i, j);
      cur := RowExtend(s1, s2, j, cur, next);
      i := i + 1;
    }
  }

  /** `row` holds the distances from the first `|row|` prefixes of `a` to
      `b[..j]`. */
  ghost predicate RowPrefix(a: string, b: string, j: nat, row: seq<nat>)
    requires j <= |b|
  {
    |row| <= |a| + 1 && forall k :: 0 <= k < |row| ==> row[k] == Dist(a, b, k, j)
  }

  /** Appending the next distance keeps a matrix row correct. */
  function RowExtend(a: string, b: string, j: nat, row: seq<nat>, next: nat): (r: seq<nat>)
    requires j <= |b| && RowPrefix(a, b, j, row) && |row| <= |a|
    requires next == Dist(a, b, |row|, j)
    ensures RowPrefix(a, b, j, r) && |r| == |row| + 1
  {
    row + [next]
  }

  /** One cell of the matrix from its three neighbours. */
  lemma DistStep(a: string, b: string, i: nat, j: nat)
    requires 0 < i <= |a| && 0 < j <= |b|
    ensures Dist(a, b, i, j)
            == Min3(Dist(a, b, i - 1, j) + 1, Dist(a, b, i, j - 1) + 1,
                    Dist(a, b, i - 1, j - 1) + (if a[i - 1] == b[j - 1] then 0 else 1))
  {
  }

  lemma {:induction false} DistSelf(a: string, i: nat)
    requires i <= |a|
    ensures Dist(a, a, i, i) == 0
    decreases i
  {
    if i > 0 {
      DistSelf(a, i - 1);
    }
  }

  /** The distance is at least the difference of the lengths. */
  lemma {:induction false} DistLowerBound(a: string, b: string, i: nat, j: nat)
    requires i <= |a| && j <= |b|
    ensures Dist(a, b, i, j) >= i - j && Dist(a, b, i, j) >= j - i
    decreases i + j
  {
    if i > 0 && j > 0 {
      DistLowerBound(a, b, i - 1, j);
      DistLowerBound(a, b, i, j - 1);
      DistLowerBound(a, b, i - 1, j - 1);
    }
  }

  /** The distance is at most the longer length. */
  lemma {:induction false} DistUpperBound(a: string, b: string, i: nat, j: nat)
    requires i <= |a| && j <= |b|
    ensures Dist(a, b, i, j) <= if i >= j then i else j
    decreases i + j
  {
    if i > 0 && j > 0 {
      DistUpperBound(a, b, i - 1, j - 1);
    }
  }

  /** The distance is zero exactly for equal prefixes. */
  lemma {:induction false} DistZeroIff(a: string, b: string, i: nat, j: nat)
    requires i <= |a| && j <= |b|
    ensures Dist(a, b, i, j) == 0 <==> i == j && a[..i] == b[..j]
    decreases i + j
  {
    if i > 0 && j > 0 {
      DistZeroIff(a, b, i - 1, j - 1);
      assert a[..i] == a[..i - 1] + [a[i - 1]];
      assert b[..j] == b[..j - 1] + [b[j - 1]];
      if i == j && a[..i] == b[..j] {
        assert a[..i - 1] == b[..j - 1];
        assert a[i - 1] == b[j - 1];
      }
      if Dist(a, b, i, j) == 0 {
        assert a[..i - 1] == b[..j - 1] && a[i - 1] == b[j - 1];
      }
    }
  }

  /** Edit distance does not depend on which string is the source. */
  lemma {:induction false} DistSymmetric(a: string, b: string, i: nat, j: nat)
    requires i <= |a| && j <= |b|
    ensures Dist(a, b, i, j) == Dist(b, a, j, i)
    decreases i + j
  {
    if i > 0 && j > 0 {
      DistSymmetric(a, b, i - 1, j);
      DistSymmetric(a, b, i, j - 1);
      DistSymmetric(a, b, i - 1, j - 1);
      DistSymmetricStep(a, b, i, j);
    }
  }

  /** One cell of the symmetry proof, from its three neighbours. */
  lemma DistSymmetricStep(a: string, b: string, i: nat, j: nat)
    requires 0 < i <= |a| && 0 < j <= |b|
    requires Dist(a, b, i - 1, j) == Dist(b, a, j, i - 1)
    requires Dist(a, b, i, j - 1) == Dist(b, a, j - 1, i)
    requires Dist(a, b, i - 1, j - 1) == Dist(b, a, j - 1, i - 1)
    ensures Dist(a, b, i, j) == Dist(b, a, j, i)
  {
    var x := Dist(a, b, i - 1, j) + 1;
    var y := Dist(a, b, i, j - 1) + 1;
    var z := Dist(a, b, i - 1, j - 1) + (if a[i - 1] == b[j - 1] then 0 else 1);
    DistStep(a, b, i, j);
    DistStep(b, a, j, i);
    Min3Swap(x, y, z);
  }

  lemma Min3Swap(x: nat, y: nat, z: nat)
    ensures Min3(x, y, z) == Min3(y, x, z)
  {
  }

  /** Whole-string summary: `d(s, s) = 0`, `d("", t) = |t|`, `d(s, "") = |s|`,
      and `||s| - |t|| <= d(s, t) <= max(|s|, |t|)`, with `d = 0` only for
      equal strings. */
  lemma DistanceProperties(s: string, t: string)
    ensures Distance(s, s) == 0
    ensures Distance("", t) == |t| && Distance(s, "") == |s|
    ensures |s| - |t| <= Distance(s, t) && |t| - |s| <= Distance(s, t)
    ensures Distance(s, t) <= if |s| >= |t| then |s| else |t|
    ensures Distance(s, t) == 0 <==> s == t
    ensures Distance(s, t) == Distance(t, s)
  {
    DistSelf(s, |s|);
    DistLowerBound(s, t, |s|, |t|);
    DistUpperBound(s, t, |s|, |t|);
    DistZeroIff(s, t, |s|, |t|);
    assert s[..|s|] == s && t[..|t|] == t;
    DistSymmetric(s, t, |s|, |t|);
  }

  /** "iphone" and "ifone" are two edits apart (substitute p by f, drop h). */
  lemma IphoneIfone()
    ensures Distance("iphone", "ifone") == 2
  {
    IphoneIfoneMatrix("iphone", "ifone");
  }

  /** The matrix for the two words, two columns (prefixes of `b`) at a time;
      the strings are parameters so that each step unfolds `Dist` once. */
  lemma IphoneIfoneMatrix(a: string, b: string)
    requires a == "iphone" && b == "ifone"
    ensures Dist(a, b, 6, 5) == 2
  {
    IphoneIfoneColumns12(a, b);
    IphoneIfoneColumns34(a, b);
    IphoneIfoneColumn5(a, b);
  }

  lemma IphoneIfoneColumns12(a: string, b: string)
    requires a == "iphone" && b == "ifone"
    ensures Dist(a, b, 0, 2) == 2 && Dist(a, b, 1, 2) == 1 && Dist(a, b, 2, 2) == 1
    ensures Dist(a, b, 3, 2) == 2 && Dist(a, b, 4, 2) == 3 && Dist(a, b, 5, 2) == 4
    ensures Dist(a, b, 6, 2) == 5
  {
    assert a[0] == 'i' && a[1] == 'p' && a[2] == 'h' && a[3] == 'o' && a[4] == 'n' && a[5] == 'e';
    assert b[0] == 'i' && b[1] == 'f';
    assert Dist(a, b, 1, 1) == 0;
    assert Dist(a, b, 2, 1) == 1;
    assert Dist(a, b, 3, 1) == 2;
    assert Dist(a, b, 4, 1) == 3;
    assert Dist(a, b, 5, 1) == 4;
    assert Dist(a, b, 6, 1) == 5;
    assert Dist(a, b, 1, 2) == 1;
    assert Dist(a, b, 2, 2) == 1;
    assert Dist(a, b, 3, 2) == 2;
    assert Dist(a, b, 4, 2) == 3;
    assert Dist(a, b, 5, 2) == 4;
    assert Dist(a, b, 6, 2) == 5;
  }

  lemma IphoneIfoneColumns34(a: string, b: string)
    requires a == "iphone" && b == "ifone"
    requires Dist(a, b, 0, 2) == 2 && Dist(a, b, 1, 2) == 1 && Dist(a, b, 2, 2) == 1
    requires Dist(a, b, 3, 2) == 2 && Dist(a, b, 4, 2) == 3 && Dist(a, b, 5, 2) == 4
    requires Dist(a, b, 6, 2) == 5
    ensures Dist(a, b, 0, 4) == 4 && Dist(a, b, 1, 4) == 3 && Dist(a, b, 2, 4) == 3
    ensures Dist(a, b, 3, 4) == 3 && Dist(a, b, 4, 4) == 3 && Dist(a, b, 5, 4) == 2
    ensures Dist(a, b, 6, 4) == 3
  {
    assert a[0] == 'i' && a[1] == 'p' && a[2] == 'h' && a[3] == 'o' && a[4] == 'n' && a[5] == 'e';
    assert b[2] == 'o' && b[3] == 'n';
    assert Dist(a, b, 1, 3) == 2;
    assert Dist(a, b, 2, 3) == 2;
    assert Dist(a, b, 3, 3) == 2;
    assert Dist(a, b, 4, 3) == 2;
    assert Dist(a, b, 5, 3) == 3;
    assert Dist(a, b, 6, 3) == 4;
    assert Dist(a, b, 1, 4) == 3;
    assert Dist(a, b, 2, 4) == 3;
    assert Dist(a, b, 3, 4) == 3;
    assert Dist(a, b, 4, 4) == 3;
    assert Dist(a, b, 5, 4) == 2;
    assert Dist(a, b, 6, 4) == 3;
  }

  lemma IphoneIfoneColumn5(a: string, b: string)
    requires a == "iphone" && b == "ifone"
    requires Dist(a, b, 0, 4) == 4 && Dist(a, b, 1, 4) == 3 && Dist(a, b, 2, 4) == 3
    requires Dist(a, b, 3, 4) == 3 && Dist(a, b, 4, 4) == 3 && Dist(a, b, 5, 4) == 2
    requires Dist(a, b, 6, 4) == 3
    ensures Dist(a, b, 6, 5) == 2
  {
    assert a[0] == 'i' && a[1] == 'p' && a[2] == 'h' && a[3] == 'o' && a[4] == 'n' && a[5] == 'e';
    assert b[4] == 'e';
    assert Dist(a, b, 1, 5) == 4;
    assert Dist(a, b, 2, 5) == 4;
    assert Dist(a, b, 3, 5) == 4;
    assert Dist(a, b, 4, 5) == 4;
    assert Dist(a, b, 5, 5) == 3;
    assert Dist(a, b, 6, 5) == 2;
  }
}
