/** Generic sequence vocabulary: order-preserving subsequences, filtering,
    counting, summing and the stable descending sort that JavaScript's
    `Array.prototype.sort` performs with a `(a, b) => b.key - a.key` comparator. */
module Seqs {

  /** `a` can be obtained from `b` by deleting elements, keeping the order. */
  ghost predicate IsSubsequence<T>(a: seq<T>, b: seq<T>)
    decreases |b|
  {
    if |a| == 0 then true
    else if |b| == 0 then false
    else (a[0] == b[0] && IsSubsequence(a[1..], b[1..])) || IsSubsequence(a, b[1..])
  }

  lemma {:induction false} SubsequenceRefl<T>(a: seq<T>)
    ensures IsSubsequence(a, a)
    decreases |a|
  {
    if |a| > 0 {
      SubsequenceRefl(a[1..]);
    }
  }

  lemma {:induction false} SubsequenceMembers<T>(a: seq<T>, b: seq<T>)
    requires IsSubsequence(a, b)
    ensures forall x :: x in a ==> x in b
    ensures |a| <= |b|
    decreases |b|
  {
    if |a| > 0 {
      if a[0] == b[0] && IsSubsequence(a[1..], b[1..]) {
        SubsequenceMembers(a[1..], b[1..]);
        assert forall x :: x in a ==> x == a[0] || x in a[1..];
      } else {
        SubsequenceMembers(a, b[1..]);
      }
    }
  }

  /** Appending an element to the larger sequence keeps a subsequence. */
  lemma {:induction false} SubsequenceExtend<T>(a: seq<T>, b: seq<T>, x: T)
    requires IsSubsequence(a, b)
    ensures IsSubsequence(a, b + [x])
    decreases |b|
  {
    if |a| > 0 {
      assert (b + [x])[1..] == b[1..] + [x];
      if a[0] == b[0] && IsSubsequence(a[1..], b[1..]) {
        SubsequenceExtend(a[1..], b[1..], x);
      } else {
        SubsequenceExtend(a, b[1..], x);
      }
    }
  }

  /** Appending the same element to both sides keeps a subsequence. */
  lemma {:induction false} SubsequenceAppendBoth<T>(a: seq<T>, b: seq<T>, x: T)
    requires IsSubsequence(a, b)
    ensures IsSubsequence(a + [x], b + [x])
    decreases |b|
  {
    if |a| == 0 {
      if |b| == 0 {
        assert IsSubsequence(a + [x], b + [x]) by {
          assert (a + [x])[1..] == [];
        }
      } else {
        SubsequenceAppendBoth(a, b[1..], x);
        assert (b + [x])[1..] == b[1..] + [x];
      }
    } else {
      assert (a + [x])[1..] == a[1..] + [x];
      assert (b + [x])[1..] == b[1..] + [x];
      if a[0] == b[0] && IsSubsequence(a[1..], b[1..]) {
        SubsequenceAppendBoth(a[1..], b[1..], x);
      } else {
        SubsequenceAppendBoth(a, b[1..], x);
      }
    }
  }

  /** Every prefix is a subsequence. */
  lemma {:induction false} SubsequencePrefix<T>(s: seq<T>, k: nat)
    requires k <= |s|
    ensures IsSubsequence(s[..k], s)
    decreases |s|
  {
    if k > 0 {
      assert s[..k][1..] == s[1..][..k - 1];
      SubsequencePrefix(s[1..], k - 1);
    }
  }

  lemma {:induction false} SubsequenceTrans<T>(a: seq<T>, b: seq<T>, c: seq<T>)
    requires IsSubsequence(a, b) && IsSubsequence(b, c)
    ensures IsSubsequence(a, c)
    decreases |c|
  {
    if |a| > 0 {
      SubsequenceMembers(b, c);
      if a[0] == b[0] && IsSubsequence(a[1..], b[1..]) {
        if b[0] == c[0] && IsSubsequence(b[1..], c[1..]) {
          SubsequenceTrans(a[1..], b[1..], c[1..]);
        } else {
          SubsequenceTrans(a, b, c[1..]);
        }
      } else {
        if b[0] == c[0] && IsSubsequence(b[1..], c[1..]) {
          SubsequenceTrans(a, b[1..], c[1..]);
        } else {
          SubsequenceTrans(a, b, c[1..]);
        }
      }
    }
  }

  /** JavaScript `Array.prototype.filter`. */
  function Filter<T>(s: seq<T>, keep: T -> bool): (r: seq<T>)
    ensures |r| <= |s|
    ensures forall i :: 0 <= i < |r| ==> keep(r[i]) && r[i] in s
    ensures forall i :: 0 <= i < |s| && keep(s[i]) ==> s[i] in r
    ensures IsSubsequence(r, s)
    decreases |s|
  {
    if |s| == 0 then []
    else if keep(s[0]) then [s[0]] + Filter(s[1..], keep)
    else Filter(s[1..], keep)
  }

  /** One step of `Filter`: the head is kept or dropped, the tail is filtered. */
  lemma FilterStep<T>(s: seq<T>, keep: T -> bool)
    requires |s| > 0
    ensures Filter(s, keep) == (if keep(s[0]) then [s[0]] else []) + Filter(s[1..], keep)
  {
  }

  /** Applying two filters one after the other is filtering by their conjunction. */
  lemma {:induction false} FilterFilter<T>(s: seq<T>, p: T -> bool, q: T -> bool)
    ensures Filter(Filter(s, p), q) == Filter(s, x => p(x) && q(x))
    decreases |s|
  {
    if |s| > 0 {
      FilterFilter(s[1..], p, q);
    }
  }

  /** Filtering by a predicate that holds everywhere on `s` returns `s`. */
  lemma {:induction false} FilterAll<T>(s: seq<T>, p: T -> bool)
    requires forall i :: 0 <= i < |s| ==> p(s[i])
    ensures Filter(s, p) == s
    decreases |s|
  {
    if |s| > 0 {
      FilterAll(s[1..], p);
    }
  }

  /** Filtering by two predicates that agree on `s` gives the same result. */
  lemma {:induction false} FilterCongruent<T>(s: seq<T>, p: T -> bool, q: T -> bool)
    requires forall i :: 0 <= i < |s| ==> p(s[i]) == q(s[i])
    ensures Filter(s, p) == Filter(s, q)
    decreases |s|
  {
    if |s| > 0 {
      FilterCongruent(s[1..], p, q);
    }
  }

  /** Permutations of each other have the same length. */
  lemma MultisetLength<T>(a: seq<T>, b: seq<T>)
    requires multiset(a) == multiset(b)
    ensures |a| == |b|
  {
    assert |multiset(a)| == |a|;
    assert |multiset(b)| == |b|;
  }

  /** Three pieces that regroup two parts of `s` form a permutation of `s`. */
  lemma ConcatPermutes<T>(a: seq<T>, b: seq<T>, c: seq<T>, x: seq<T>, y: seq<T>, s: seq<T>)
    requires multiset(a) == multiset(x) && multiset(b) + multiset(c) == multiset(y)
    requires multiset(x) + multiset(y) == multiset(s)
    ensures multiset(a + b + c) == multiset(s)
    ensures |a + b + c| == |s|
  {
    assert multiset(a + b + c) == multiset(a) + multiset(b) + multiset(c);
    MultisetLength(a + b + c, s);
  }

  /** Filtering by a predicate and by its negation splits `s` into two parts
      that together hold every element. */
  lemma {:induction false} FilterSplit<T>(s: seq<T>, p: T -> bool, q: T -> bool)
    requires forall i :: 0 <= i < |s| ==> q(s[i]) == !p(s[i])
    ensures multiset(Filter(s, p)) + multiset(Filter(s, q)) == multiset(s)
    decreases |s|
  {
    if |s| > 0 {
      var t := s[1..];
      forall i | 0 <= i < |t| ensures q(t[i]) == !p(t[i]) {
        assert t[i] == s[i + 1];
      }
      FilterSplit(t, p, q);
      FilterSplitStep(s, p, q);
    }
  }

  lemma FilterSplitStep<T>(s: seq<T>, p: T -> bool, q: T -> bool)
    requires |s| > 0 && q(s[0]) == !p(s[0])
    requires multiset(Filter(s[1..], p)) + multiset(Filter(s[1..], q)) == multiset(s[1..])
    ensures multiset(Filter(s, p)) + multiset(Filter(s, q)) == multiset(s)
  {
    var t := s[1..];
    assert s == [s[0]] + t;
    FilterStep(s, p);
    FilterStep(s, q);
    MultisetCons(s[0], Filter(t, p), Filter(t, q), t);
  }

  /** Putting one more element in front of either part of a split. */
  lemma MultisetCons<T>(x: T, a: seq<T>, b: seq<T>, t: seq<T>)
    requires multiset(a) + multiset(b) == multiset(t)
    ensures multiset([x] + a) + multiset(b) == multiset([x] + t)
    ensures multiset(a) + multiset([x] + b) == multiset([x] + t)
  {
    assert multiset([x] + a) == multiset{x} + multiset(a);
    assert multiset([x] + b) == multiset{x} + multiset(b);
    assert multiset([x] + t) == multiset{x} + multiset(t);
  }

  /** Number of elements of `s` that satisfy `p`. */
  function CountWhere<T>(s: seq<T>, p: T -> bool): (n: nat)
    ensures n <= |s|
    decreases |s|
  {
    if |s| == 0 then 0
    else (if p(s[0]) then 1 else 0) + CountWhere(s[1..], p)
  }

  lemma {:induction false} CountWhereIsFilterLength<T>(s: seq<T>, p: T -> bool)
    ensures CountWhere(s, p) == |Filter(s, p)|
    decreases |s|
  {
    if |s| > 0 {
      CountWhereIsFilterLength(s[1..], p);
    }
  }

  lemma {:induction false} CountWhereAppend<T>(s: seq<T>, x: T, p: T -> bool)
    ensures CountWhere(s + [x], p) == CountWhere(s, p) + (if p(x) then 1 else 0)
    decreases |s|
  {
    if |s| > 0 {
      assert (s + [x])[1..] == s[1..] + [x];
      CountWhereAppend(s[1..], x, p);
    }
  }

  /** A subsequence made of elements that satisfy `p` is no longer than the
      number of such elements. */
  lemma {:induction false} SubsequenceCount<T>(r: seq<T>, s: seq<T>, p: T -> bool)
    requires IsSubsequence(r, s)
    requires forall i :: 0 <= i < |r| ==> p(r[i])
    ensures |r| <= CountWhere(s, p)
    decreases |s|
  {
    if |r| > 0 {
      if r[0] == s[0] && IsSubsequence(r[1..], s[1..]) {
        SubsequenceCount(r[1..], s[1..], p);
      } else {
        SubsequenceCount(r, s[1..], p);
      }
    }
  }

  /** `Filter(s, p)` is the only subsequence of `s` made of elements that
      satisfy `p` and as long as their count. */
  lemma {:induction false} FilterUnique<T>(r: seq<T>, s: seq<T>, p: T -> bool)
    requires IsSubsequence(r, s)
    requires forall i :: 0 <= i < |r| ==> p(r[i])
    requires |r| == CountWhere(s, p)
    ensures r == Filter(s, p)
    decreases |s|
  {
    CountWhereIsFilterLength(s, p);
    if |r| > 0 {
      if r[0] == s[0] && IsSubsequence(r[1..], s[1..]) {
        FilterUnique(r[1..], s[1..], p);
        assert r == [r[0]] + r[1..];
      } else {
        SubsequenceCount(r, s[1..], p);
        FilterUnique(r, s[1..], p);
      }
    }
  }

  /** All elements satisfy `p` exactly when the count reaches the length. */
  lemma {:induction false} CountWhereAll<T>(s: seq<T>, p: T -> bool)
    ensures CountWhere(s, p) == |s| <==> forall i :: 0 <= i < |s| ==> p(s[i])
    decreases |s|
  {
    if |s| > 0 {
      CountWhereAll(s[1..], p);
      if forall i :: 0 <= i < |s[1..]| ==> p(s[1..][i]) {
        if p(s[0]) {
          forall i | 0 <= i < |s| ensures p(s[i]) {
            if i > 0 { assert s[i] == s[1..][i - 1]; }
          }
        }
      }
      if forall i :: 0 <= i < |s| ==> p(s[i]) {
        forall i | 0 <= i < |s[1..]| ensures p(s[1..][i]) {
          assert s[1..][i] == s[i + 1];
        }
      }
    }
  }

  /** No element satisfies `p` exactly when the count is zero. */
  lemma {:induction false} CountWhereNone<T>(s: seq<T>, p: T -> bool)
    ensures CountWhere(s, p) == 0 <==> forall i :: 0 <= i < |s| ==> !p(s[i])
    decreases |s|
  {
    if |s| > 0 {
      CountWhereNone(s[1..], p);
      if CountWhere(s, p) == 0 {
        forall i | 0 <= i < |s| ensures !p(s[i]) {
          if i > 0 { assert s[i] == s[1..][i - 1]; }
        }
      }
      if forall i :: 0 <= i < |s| ==> !p(s[i]) {
        forall i | 0 <= i < |s[1..]| ensures !p(s[1..][i]) {
          assert s[1..][i] == s[i + 1];
        }
      }
    }
  }

  /** Sum of `f` over the elements of `s`. */
  function SumOf<T>(s: seq<T>, f: T -> real): real
    decreases |s|
  {
    if |s| == 0 then 0.0 else f(s[0]) + SumOf(s[1..], f)
  }

  lemma {:induction false} SumOfNonNegative<T>(s: seq<T>, f: T -> real)
    requires forall i :: 0 <= i < |s| ==> f(s[i]) >= 0.0
    ensures SumOf(s, f) >= 0.0
    decreases |s|
  {
    if |s| > 0 {
      SumOfNonNegative(s[1..], f);
    }
  }

  lemma {:induction false} SumOfBounded<T>(s: seq<T>, f: T -> real, lo: real, hi: real)
    requires forall i :: 0 <= i < |s| ==> lo <= f(s[i]) <= hi
    ensures lo * |s| as real <= SumOf(s, f) <= hi * |s| as real
    decreases |s|
  {
    if |s| > 0 {
      SumOfBounded(s[1..], f, lo, hi);
    }
  }

  lemma {:induction false} SumOfAppend<T>(a: seq<T>, b: seq<T>, f: T -> real)
    ensures SumOf(a + b, f) == SumOf(a, f) + SumOf(b, f)
    decreases |a|
  {
    if |a| > 0 {
      assert (a + b)[0] == a[0] && (a + b)[1..] == a[1..] + b;
      SumOfAppend(a[1..], b, f);
    } else {
      assert a + b == b;
    }
  }

  lemma {:induction false} SumOfAtLeast<T>(s: seq<T>, f: T -> real, lo: real)
    requires forall i :: 0 <= i < |s| ==> lo <= f(s[i])
    ensures lo * |s| as real <= SumOf(s, f)
    decreases |s|
  {
    if |s| > 0 {
      SumOfAtLeast(s[1..], f, lo);
    }
  }

  /** Summing a function that vanishes on every element gives zero. */
  lemma {:induction false} SumOfZero<T>(s: seq<T>, f: T -> real)
    requires forall i :: 0 <= i < |s| ==> f(s[i]) == 0.0
    ensures SumOf(s, f) == 0.0
    decreases |s|
  {
    if |s| > 0 {
      SumOfZero(s[1..], f);
    }
  }

  /** Key order used by a descending sort. */
  ghost predicate SortedDesc<T>(s: seq<T>, key: T -> real) {
    forall i, j :: 0 <= i < j < |s| ==> key(s[i]) >= key(s[j])
  }

  /** Inserts `x` in front of the first element whose key is not larger. */
  function InsertDesc<T>(x: T, s: seq<T>, key: T -> real): (r: seq<T>)
    ensures multiset(r) == multiset(s) + multiset{x}
    decreases |s|
  {
    if |s| == 0 then [x]
    else if key(s[0]) <= key(x) then [x] + s
    else
      assert s == [s[0]] + s[1..];
      [s[0]] + InsertDesc(x, s[1..], key)
  }

  /** Inserting into a sequence sorted by descending key keeps it sorted. */
  lemma {:induction false} InsertDescSorted<T>(x: T, s: seq<T>, key: T -> real)
    requires SortedDesc(s, key)
    ensures SortedDesc(InsertDesc(x, s, key), key)
    decreases |s|
  {
    if |s| > 0 && key(s[0]) > key(x) {
      var rest := InsertDesc(x, s[1..], key);
      InsertDescSorted(x, s[1..], key);
      forall k | 0 <= k < |rest| ensures key(s[0]) >= key(rest[k]) {
        assert rest[k] in multiset(rest);
        assert rest[k] == x || rest[k] in multiset(s[1..]);
      }
      SortedCons(s[0], rest, key);
    }
  }

  lemma SortedCons<T>(x: T, s: seq<T>, key: T -> real)
    requires SortedDesc(s, key)
    requires forall k :: 0 <= k < |s| ==> key(x) >= key(s[k])
    ensures SortedDesc([x] + s, key)
  {
    var r := [x] + s;
    forall i, j | 0 <= i < j < |r| ensures key(r[i]) >= key(r[j]) {
      assert r[j] == s[j - 1];
      if i > 0 {
        assert r[i] == s[i - 1];
      }
    }
  }

  /** Stable descending sort by `key`: the sort a comparator `b.key - a.key`
      yields under JavaScript's stable `Array.prototype.sort`. */
  function SortDesc<T>(s: seq<T>, key: T -> real): (r: seq<T>)
    ensures multiset(r) == multiset(s)
    ensures |r| == |s|
    ensures SortedDesc(r, key)
    decreases |s|
  {
    if |s| == 0 then []
    else
      assert s == [s[0]] + s[1..];
      InsertDescSorted(s[0], SortDesc(s[1..], key), key);
      InsertDesc(s[0], SortDesc(s[1..], key), key)
  }

  /** Equal keys keep their indices in increasing order. */
  ghost predicate StableByIndex(r: seq<nat>, key: nat -> real) {
    forall i, j :: 0 <= i < j < |r| && key(r[i]) == key(r[j]) ==> r[i] < r[j]
  }

  /** Inserting an index below every other keeps equal keys in index order:
      it lands after every larger key and before every equal one. */
  lemma {:induction false} InsertDescStable(x: nat, t: seq<nat>, key: nat -> real)
    requires StableByIndex(t, key)
    requires forall k :: 0 <= k < |t| ==> x < t[k]
    ensures StableByIndex(InsertDesc(x, t, key), key)
    decreases |t|
  {
    if |t| == 0 {
      assert InsertDesc(x, t, key) == [x] + t;
      ConsStable(x, t, key);
    } else if key(t[0]) <= key(x) {
      ConsStable(x, t, key);
    } else {
      assert StableByIndex(t[1..], key) by {
        forall i, j | 0 <= i < j < |t[1..]| && key(t[1..][i]) == key(t[1..][j]) ensures t[1..][i] < t[1..][j] {
          assert t[1..][i] == t[i + 1] && t[1..][j] == t[j + 1];
        }
      }
      InsertDescStable(x, t[1..], key);
      HeadBeforeEqualKeys(x, t, key);
      ConsStable(t[0], InsertDesc(x, t[1..], key), key);
    }
  }

  /** Putting an index in front keeps equal keys in index order when it is
      below every later index with its key. */
  lemma ConsStable(h: nat, rest: seq<nat>, key: nat -> real)
    requires StableByIndex(rest, key)
    requires forall k :: 0 <= k < |rest| && key(rest[k]) == key(h) ==> h < rest[k]
    ensures StableByIndex([h] + rest, key)
  {
    var r := [h] + rest;
    forall i, j | 0 <= i < j < |r| && key(r[i]) == key(r[j]) ensures r[i] < r[j] {
      assert r[j] == rest[j - 1];
      if i > 0 {
        assert r[i] == rest[i - 1];
      }
    }
  }

  /** The head of `t` comes before every element of the insertion into the
      tail that has the same key: `x` does not, and the tail's elements
      follow the head in index order. */
  lemma HeadBeforeEqualKeys(x: nat, t: seq<nat>, key: nat -> real)
    requires |t| > 0 && StableByIndex(t, key) && key(t[0]) > key(x)
    ensures forall k :: (0 <= k < |InsertDesc(x, t[1..], key)| && key(InsertDesc(x, t[1..], key)[k]) == key(t[0]))
                        ==> t[0] < InsertDesc(x, t[1..], key)[k]
  {
    var rest := InsertDesc(x, t[1..], key);
    forall k | 0 <= k < |rest| && key(rest[k]) == key(t[0]) ensures t[0] < rest[k] {
      var y := rest[k];
      assert y in multiset(rest);
      assert y in multiset(t[1..]);
      var m :| 0 <= m < |t[1..]| && t[1..][m] == y;
      assert t[m + 1] == y;
    }
  }

  /** Sorting strictly increasing indices by descending key is stable. */
  lemma {:induction false} SortDescStable(s: seq<nat>, key: nat -> real)
    requires forall i, j :: 0 <= i < j < |s| ==> s[i] < s[j]
    ensures StableByIndex(SortDesc(s, key), key)
    decreases |s|
  {
    if |s| > 0 {
      var rest := SortDesc(s[1..], key);
      SortDescStable(s[1..], key);
      forall k | 0 <= k < |rest| ensures s[0] < rest[k] {
        assert rest[k] in multiset(s[1..]);
        var m :| 0 <= m < |s[1..]| && s[1..][m] == rest[k];
        assert s[m + 1] == rest[k];
      }
      InsertDescStable(s[0], rest, key);
    }
  }

  /** A stable sort leaves a sequence of equal keys as it is. */
  lemma {:induction false} SortDescEqualKeys<T>(s: seq<T>, key: T -> real, c: real)
    requires forall i :: 0 <= i < |s| ==> key(s[i]) == c
    ensures SortDesc(s, key) == s
    decreases |s|
  {
    if |s| > 0 {
      SortDescEqualKeys(s[1..], key, c);
      assert s == [s[0]] + s[1..];
    }
  }

  /** The elements of `s` without repeats, each at its first occurrence. */
  function Distinct<T(==,!new)>(s: seq<T>): (r: seq<T>)
    ensures forall x :: x in r <==> x in s
    ensures forall i, j :: 0 <= i < j < |r| ==> r[i] != r[j]
    ensures IsSubsequence(r, s)
    decreases |s|
  {
    if |s| == 0 then []
    else
      var front := Distinct(s[..|s| - 1]);
      var x := s[|s| - 1];
      assert s == s[..|s| - 1] + [x];
      SubsequenceExtend(front, s[..|s| - 1], x);
      if x in front then front
      else
        SubsequenceAppendBoth(front, s[..|s| - 1], x);
        front + [x]
  }

  /** JavaScript `Array.prototype.map`. */
  function MapSeq<A, B>(s: seq<A>, f: A -> B): (r: seq<B>)
    ensures |r| == |s|
    ensures forall i :: 0 <= i < |s| ==> r[i] == f(s[i])
  {
    seq(|s|, i requires 0 <= i < |s| => f(s[i]))
  }

  lemma MapSeqAppend<A, B>(a: seq<A>, b: seq<A>, f: A -> B)
    ensures MapSeq(a + b, f) == MapSeq(a, f) + MapSeq(b, f)
  {
  }

  /** Mapping two permutations of each other gives permutations of each other. */
  lemma {:induction false} MapSeqMultiset<A, B>(s: seq<A>, t: seq<A>, f: A -> B)
    requires multiset(s) == multiset(t)
    ensures multiset(MapSeq(s, f)) == multiset(MapSeq(t, f))
    decreases |s|
  {
    if |s| > 0 {
      var x := s[0];
      assert x in multiset(t);
      var k :| 0 <= k < |t| && t[k] == x;
      var rest := t[..k] + t[k + 1..];
      assert t == t[..k] + [x] + t[k + 1..];
      assert s == [x] + s[1..];
      assert multiset(t) == multiset(t[..k]) + multiset{x} + multiset(t[k + 1..]);
      assert multiset(s) == multiset{x} + multiset(s[1..]);
      assert multiset(rest) == multiset(t[..k]) + multiset(t[k + 1..]);
      assert multiset(s[1..]) == multiset(s) - multiset{x};
      assert multiset(rest) == multiset(t) - multiset{x};
      MapSeqMultiset(s[1..], rest, f);
      MapSeqAppend([x], s[1..], f);
      MapSeqAppend(t[..k], [x], f);
      MapSeqAppend(t[..k] + [x], t[k + 1..], f);
      MapSeqAppend(t[..k], t[k + 1..], f);
    }
  }

  /** `0, 1, ..., n-1`. */
  function Range(n: nat): (r: seq<nat>)
    ensures |r| == n
    ensures forall i :: 0 <= i < n ==> r[i] == i
  {
    seq(n, i requires 0 <= i < n => i)
  }
}
