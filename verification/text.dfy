/** The JavaScript string primitives the services rely on, over `seq<char>`:
    the `\s` and `\w` regular-expression classes, ASCII `toLowerCase`, `trim`,
    `includes`, `split(/\s+/)`, `split(c)`, decimal formatting of numbers,
    UTF-16 lengths and the code-unit order of `<` and of the default
    `Array.prototype.sort`. */
module Text {

  /** JavaScript's `\s` class; `String.prototype.trim` removes the same set. */
  predicate IsSpace(c: char) {
    var n := c as int;
    n == 0x09 || n == 0x0A || n == 0x0B || n == 0x0C || n == 0x0D || n == 0x20
    || n == 0xA0 || n == 0x1680 || (0x2000 <= n <= 0x200A) || n == 0x2028
    || n == 0x2029 || n == 0x202F || n == 0x205F || n == 0x3000 || n == 0xFEFF
  }

  predicate IsDigit(c: char) {
    '0' <= c <= '9'
  }

  predicate IsUpper(c: char) {
    'A' <= c <= 'Z'
  }

  /** JavaScript's `\w` class (without the `u` flag): `[A-Za-z0-9_]`. */
  predicate IsWordChar(c: char) {
    'a' <= c <= 'z' || IsUpper(c) || IsDigit(c) || c == '_'
  }

  predicate NoSpace(s: string) {
    forall i :: 0 <= i < |s| ==> !IsSpace(s[i])
  }

  predicate HasDigit(s: string) {
    exists i :: 0 <= i < |s| && IsDigit(s[i])
  }

  /** `toLowerCase` on one character; only `A`-`Z` are mapped. */
  function LowerChar(c: char): (d: char)
    ensures !IsUpper(d)
    ensures !IsUpper(c) ==> d == c
    ensures IsUpper(c) ==> 'a' <= d <= 'z'
    ensures IsWordChar(d) == IsWordChar(c) && IsSpace(d) == IsSpace(c) && IsDigit(d) == IsDigit(c)
  {
    if IsUpper(c) then (c as int + 32) as char else c
  }

  function Lower(s: string): (r: string)
    ensures |r| == |s|
    ensures forall i :: 0 <= i < |s| ==> r[i] == LowerChar(s[i])
  {
    seq(|s|, i requires 0 <= i < |s| => LowerChar(s[i]))
  }

  lemma LowerIdempotent(s: string)
    ensures Lower(Lower(s)) == Lower(s)
  {
  }

  lemma {:induction false} LowerAppend(a: string, b: string)
    ensures Lower(a + b) == Lower(a) + Lower(b)
  {
    assert forall i :: 0 <= i < |a + b| ==> Lower(a + b)[i] == (Lower(a) + Lower(b))[i];
  }

  /** `String.prototype.trimStart`. */
  function TrimStart(s: string): (r: string)
    ensures |r| <= |s|
    ensures |r| > 0 ==> !IsSpace(r[0])
    ensures |s| > 0 && IsSpace(s[0]) ==> |r| < |s|
    decreases |s|
  {
    if |s| > 0 && IsSpace(s[0]) then TrimStart(s[1..]) else s
  }

  /** `trimStart` keeps a suffix. */
  lemma {:induction false} TrimStartSuffix(s: string)
    ensures TrimStart(s) == s[|s| - |TrimStart(s)|..]
    decreases |s|
  {
    if |s| > 0 && IsSpace(s[0]) {
      TrimStartSuffix(s[1..]);
      assert s[1..][|s| - 1 - |TrimStart(s)|..] == s[|s| - |TrimStart(s)|..];
    }
  }

  /** `trimStart` removes white space only. */
  lemma {:induction false} TrimStartDropsSpaces(s: string)
    ensures forall i :: 0 <= i < |s| - |TrimStart(s)| ==> IsSpace(s[i])
    decreases |s|
  {
    if |s| > 0 && IsSpace(s[0]) {
      var t := s[1..];
      TrimStartDropsSpaces(t);
      forall i | 1 <= i < |s| - |TrimStart(s)| ensures IsSpace(s[i]) {
        assert s[i] == t[i - 1];
      }
    }
  }

  /** `String.prototype.trimEnd`. */
  function TrimEnd(s: string): (r: string)
    ensures |r| <= |s|
    ensures |r| > 0 ==> !IsSpace(r[|r| - 1])
    decreases |s|
  {
    if |s| > 0 && IsSpace(s[|s| - 1]) then TrimEnd(s[..|s| - 1]) else s
  }

  /** `trimEnd` keeps a prefix. */
  lemma {:induction false} TrimEndPrefix(s: string)
    ensures TrimEnd(s) == s[..|TrimEnd(s)|]
    decreases |s|
  {
    if |s| > 0 && IsSpace(s[|s| - 1]) {
      TrimEndPrefix(s[..|s| - 1]);
      assert s[..|s| - 1][..|TrimEnd(s)|] == s[..|TrimEnd(s)|];
    }
  }

  /** `trimEnd` removes white space only. */
  lemma {:induction false} TrimEndDropsSpaces(s: string)
    ensures forall i :: |TrimEnd(s)| <= i < |s| ==> IsSpace(s[i])
    decreases |s|
  {
    if |s| > 0 && IsSpace(s[|s| - 1]) {
      var t := s[..|s| - 1];
      TrimEndDropsSpaces(t);
      forall i | |TrimEnd(s)| <= i < |s| - 1 ensures IsSpace(s[i]) {
        assert s[i] == t[i];
      }
    }
  }

  /** `String.prototype.trim`. */
  function Trim(s: string): (r: string)
    ensures |r| <= |s|
    ensures |r| > 0 ==> !IsSpace(r[0]) && !IsSpace(r[|r| - 1])
  {
    TrimEndPrefix(TrimStart(s));
    TrimEnd(TrimStart(s))
  }

  /** A string with no white space at either end is its own `trim`. */
  lemma TrimKeeps(s: string)
    requires |s| > 0 ==> !IsSpace(s[0]) && !IsSpace(s[|s| - 1])
    ensures Trim(s) == s
  {
  }

  /** `trim` keeps one slice of `s`, and everything of `s` outside it is white
      space. */
  lemma TrimSlice(s: string)
    ensures TrimmedAt(s, Trim(s), |s| - |TrimStart(s)|)
  {
    var a := TrimStart(s);
    var r := TrimEnd(a);
    var k := |s| - |a|;
    TrimStartSuffix(s);
    TrimEndPrefix(a);
    TrimStartDropsSpaces(s);
    TrimEndDropsSpaces(a);
    assert r == s[k..k + |r|];
    forall i | k + |r| <= i < |s| ensures IsSpace(s[i]) {
      assert s[i] == a[i - k];
    }
  }

  /** `r` is the slice of `s` starting at `k`, and everything of `s` outside
      it is white space. */
  ghost predicate TrimmedAt(s: string, r: string, k: int) {
    && 0 <= k <= |s| - |r|
    && r == s[k..k + |r|]
    && (forall i :: 0 <= i < k ==> IsSpace(s[i]))
    && (forall i :: k + |r| <= i < |s| ==> IsSpace(s[i]))
  }

  /** `text.includes(pattern)`. */
  predicate Contains(text: string, pattern: string) {
    exists i :: 0 <= i <= |text| && MatchesAt(text, pattern, i)
  }

  /** `pattern` occurs in `text` at position `i`. */
  predicate MatchesAt(text: string, pattern: string, i: nat) {
    i + |pattern| <= |text| && text[i..i + |pattern|] == pattern
  }

  lemma ContainsSelf(s: string)
    ensures Contains(s, s)
  {
    assert MatchesAt(s, s, 0);
  }

  lemma ContainsEmpty(s: string)
    ensures Contains(s, "")
  {
    assert MatchesAt(s, "", 0);
  }

  /** A witness position makes `includes` true. */
  lemma ContainsAt(text: string, pattern: string, i: nat)
    requires MatchesAt(text, pattern, i)
    ensures Contains(text, pattern)
  {
  }

  /** Substring containment is transitive. */
  lemma ContainsTrans(a: string, b: string, c: string)
    requires Contains(a, b) && Contains(b, c)
    ensures Contains(a, c)
  {
    var i :| 0 <= i <= |a| && MatchesAt(a, b, i);
    var j :| 0 <= j <= |b| && MatchesAt(b, c, j);
    assert b == a[i..i + |b|];
    forall k | 0 <= k < |c| ensures a[i + j + k] == c[k] {
      assert c[k] == b[j + k];
      assert b[j + k] == a[i + j + k];
    }
    assert a[i + j..i + j + |c|] == c;
    assert MatchesAt(a, c, i + j);
  }

  /** A suffix of `s` is contained in `s`. */
  lemma ContainsSuffix(s: string, k: nat)
    requires k <= |s|
    ensures Contains(s, s[k..])
  {
    assert MatchesAt(s, s[k..], k);
  }

  /** `trimStart` of a suffix is itself a suffix, starting at `off`. */
  lemma TrimStartOfDrop(s: string, i: nat) returns (off: nat)
    requires i <= |s|
    ensures off == |s| - |TrimStart(s[i..])| && TrimStart(s[i..]) == s[off..]
  {
    off := |s| - |TrimStart(s[i..])|;
    TrimStartSuffix(s[i..]);
    assert s[i..][|s[i..]| - |TrimStart(s[i..])|..] == s[off..];
  }

  /** An occurrence in a suffix is an occurrence in the whole string. */
  lemma MatchesShift(s: string, t: string, w: string, off: nat, q: nat)
    requires off <= |s| && t == s[off..] && MatchesAt(t, w, q)
    ensures MatchesAt(s, w, off + q)
  {
    assert s[off + q..off + q + |w|] == t[q..q + |w|];
  }

  /** Every field of `Words(s)` occurs in `s`. */
  lemma {:induction false} WordsContained(s: string)
    ensures forall k :: 0 <= k < |Words(s)| ==> Contains(s, Words(s)[k])
    decreases |s|
  {
    var i := IndexOfSpace(s);
    if i == |s| {
      assert Words(s) == [s];
      ContainsSelf(s);
    } else {
      var rest := TrimStart(s[i..]);
      WordsContained(rest);
      assert Contains(s, rest) by {
        var off := TrimStartOfDrop(s, i);
        ContainsSuffix(s, off);
      }
      assert Contains(s, s[..i]) by {
        assert MatchesAt(s, s[..i], 0);
      }
      forall k | 0 <= k < |Words(s)| ensures Contains(s, Words(s)[k]) {
        WordsStep(s);
        if k > 0 {
          ContainsTrans(s, rest, Words(rest)[k - 1]);
        }
      }
    }
  }

  /** `text.includes(p)` for one of the `patterns`: a regular expression made of
      literal alternatives, tested with `RegExp.prototype.test`. */
  predicate ContainsAny(text: string, patterns: seq<string>) {
    exists k :: 0 <= k < |patterns| && Contains(text, patterns[k])
  }

  /** First position of a white-space character, or `|s|`. */
  function IndexOfSpace(s: string): (i: nat)
    ensures i <= |s|
    ensures forall k :: 0 <= k < i ==> !IsSpace(s[k])
    ensures i < |s| ==> IsSpace(s[i])
    decreases |s|
  {
    if |s| == 0 || IsSpace(s[0]) then 0 else 1 + IndexOfSpace(s[1..])
  }

  /** `s.split(/\s+/)`: the fields between maximal runs of white space. A
      leading or trailing run yields an empty first or last field, and the
      empty string yields one empty field. */
  function Words(s: string): (r: seq<string>)
    ensures |r| >= 1
    decreases |s|
  {
    var i := IndexOfSpace(s);
    if i == |s| then [s] else [s[..i]] + Words(TrimStart(s[i..]))
  }

  /** One step of `Words`: the field before the first white space, then the
      fields of what follows that white-space run. */
  lemma WordsStep(s: string)
    requires IndexOfSpace(s) < |s|
    ensures Words(s) == [s[..IndexOfSpace(s)]] + Words(TrimStart(s[IndexOfSpace(s)..]))
  {
  }

  /** No field of `Words(s)` holds white space. */
  lemma {:induction false} WordsHaveNoSpace(s: string)
    ensures forall k :: 0 <= k < |Words(s)| ==> NoSpace(Words(s)[k])
    decreases |s|
  {
    var i := IndexOfSpace(s);
    if i < |s| {
      WordsHaveNoSpace(TrimStart(s[i..]));
    }
  }

  /** `s` with every white-space character removed. */
  function StripSpaces(s: string): (r: string)
    ensures NoSpace(r)
    decreases |s|
  {
    if |s| == 0 then ""
    else if IsSpace(s[0]) then StripSpaces(s[1..])
    else [s[0]] + StripSpaces(s[1..])
  }

  function Concat(parts: seq<string>): string
    decreases |parts|
  {
    if |parts| == 0 then "" else parts[0] + Concat(parts[1..])
  }

  lemma {:induction false} StripSpacesAppend(a: string, b: string)
    ensures StripSpaces(a + b) == StripSpaces(a) + StripSpaces(b)
    decreases |a|
  {
    if |a| > 0 {
      assert (a + b)[0] == a[0];
      assert (a + b)[1..] == a[1..] + b;
      StripSpacesAppend(a[1..], b);
    } else {
      assert a + b == b;
    }
  }

  lemma {:induction false} StripSpacesNoSpace(s: string)
    requires NoSpace(s)
    ensures StripSpaces(s) == s
    decreases |s|
  {
    if |s| > 0 {
      StripSpacesNoSpace(s[1..]);
    }
  }

  lemma {:induction false} StripSpacesTrimStart(s: string)
    ensures StripSpaces(TrimStart(s)) == StripSpaces(s)
    decreases |s|
  {
    if |s| > 0 && IsSpace(s[0]) {
      StripSpacesTrimStart(s[1..]);
    }
  }

  /** Splitting on white-space runs loses exactly the white space: the fields,
      put back together, are the input without its white space. */
  lemma {:induction false} WordsLoseOnlySpaces(s: string)
    ensures Concat(Words(s)) == StripSpaces(s)
    decreases |s|
  {
    var i := IndexOfSpace(s);
    if i == |s| {
      StripSpacesNoSpace(s);
    } else {
      var rest := TrimStart(s[i..]);
      WordsLoseOnlySpaces(rest);
      StripSpacesTrimStart(s[i..]);
      assert s == s[..i] + s[i..];
      StripSpacesAppend(s[..i], s[i..]);
      StripSpacesNoSpace(s[..i]);
    }
  }

  /** A string without white space is a single field. */
  lemma WordsNoSpace(w: string)
    requires NoSpace(w)
    ensures Words(w) == [w]
  {
    assert IndexOfSpace(w) == |w|;
  }

  /** One space after a field that is not followed by more white space
      separates exactly that field from the rest. */
  lemma WordsCons(w: string, rest: string)
    requires NoSpace(w)
    requires |rest| > 0 ==> !IsSpace(rest[0])
    ensures Words(w + " " + rest) == [w] + Words(rest)
  {
    var s := w + " " + rest;
    assert s == w + (" " + rest);
    IndexOfSpaceAfter(w, " " + rest);
    WordsStep(s);
    assert s[..|w|] == w;
    assert s[|w|..] == " " + rest;
    assert (" " + rest)[1..] == rest;
  }

  /** The first white space after a field without white space is the one
      that ends it. */
  lemma {:induction false} IndexOfSpaceAfter(w: string, t: string)
    requires NoSpace(w) && |t| > 0 && IsSpace(t[0])
    ensures IndexOfSpace(w + t) == |w|
    decreases |w|
  {
    if |w| > 0 {
      assert (w + t)[0] == w[0];
      assert (w + t)[1..] == w[1..] + t;
      IndexOfSpaceAfter(w[1..], t);
    } else {
      assert w + t == t;
    }
  }

  /** Joining non-empty fields without white space by single spaces and
      splitting again gives the fields back. */
  lemma {:induction false} WordsJoin(ws: seq<string>)
    requires |ws| >= 1
    requires forall k :: 0 <= k < |ws| ==> |ws[k]| > 0 && NoSpace(ws[k])
    ensures Words(JoinWith(ws, ' ')) == ws
    decreases |ws|
  {
    if |ws| == 1 {
      WordsNoSpace(ws[0]);
    } else {
      var rest := JoinWith(ws[1..], ' ');
      JoinStartsWith(ws[1..]);
      WordsCons(ws[0], rest);
      WordsJoin(ws[1..]);
      assert ws == [ws[0]] + ws[1..];
    }
  }

  lemma JoinStartsWith(ws: seq<string>)
    requires |ws| >= 1 && |ws[0]| > 0
    ensures |JoinWith(ws, ' ')| > 0 && JoinWith(ws, ' ')[0] == ws[0][0]
  {
  }

  /** First position of `c` in `s`, or `|s|`. */
  function IndexOf(s: string, c: char): (i: nat)
    ensures i <= |s|
    ensures forall k :: 0 <= k < i ==> s[k] != c
    ensures i < |s| ==> s[i] == c
    decreases |s|
  {
    if |s| == 0 || s[0] == c then 0 else 1 + IndexOf(s[1..], c)
  }

  /** `s.split(sep)` for a one-character separator. */
  function SplitOn(s: string, sep: char): (r: seq<string>)
    ensures |r| >= 1
    decreases |s|
  {
    var i := IndexOf(s, sep);
    if i == |s| then [s] else [s[..i]] + SplitOn(s[i + 1..], sep)
  }

  /** One step of `SplitOn`: the field before the first separator, then the
      fields of what follows it. */
  lemma SplitStep(s: string, sep: char)
    requires IndexOf(s, sep) < |s|
    ensures SplitOn(s, sep) == [s[..IndexOf(s, sep)]] + SplitOn(s[IndexOf(s, sep) + 1..], sep)
  {
  }

  /** No field of `SplitOn(s, sep)` holds the separator. */
  lemma {:induction false} SplitFieldsLackSeparator(s: string, sep: char)
    ensures forall k :: 0 <= k < |SplitOn(s, sep)| ==> sep !in SplitOn(s, sep)[k]
    decreases |s|
  {
    var i := IndexOf(s, sep);
    if i < |s| {
      SplitStep(s, sep);
      SplitFieldsLackSeparator(s[i + 1..], sep);
      assert sep !in s[..i];
    }
  }

  /** `parts.join(sep)`. */
  function JoinWith(parts: seq<string>, sep: char): string
    decreases |parts|
  {
    if |parts| == 0 then ""
    else if |parts| == 1 then parts[0]
    else parts[0] + [sep] + JoinWith(parts[1..], sep)
  }

  /** `split` and `join` with the same separator are inverse. */
  lemma {:induction false} JoinSplit(s: string, sep: char)
    ensures JoinWith(SplitOn(s, sep), sep) == s
    decreases |s|
  {
    var i := IndexOf(s, sep);
    if i < |s| {
      var rest := s[i + 1..];
      JoinSplit(rest, sep);
      SplitStep(s, sep);
      JoinCons(s[..i], SplitOn(rest, sep), sep);
      assert s == s[..i] + [sep] + rest;
    }
  }

  /** Joining a field in front of at least one more field inserts one
      separator. */
  lemma JoinCons(w: string, ws: seq<string>, sep: char)
    requires |ws| >= 1
    ensures JoinWith([w] + ws, sep) == w + [sep] + JoinWith(ws, sep)
  {
    assert ([w] + ws)[1..] == ws;
  }

  function DigitChar(d: nat): (c: char)
    requires d < 10
    ensures IsDigit(c) && !IsSpace(c)
  {
    ('0' as int + d) as char
  }

  function DigitValue(c: char): (d: nat)
    requires IsDigit(c)
    ensures d < 10
  {
    c as int - '0' as int
  }

  predicate AllDigits(s: string) {
    forall i :: 0 <= i < |s| ==> IsDigit(s[i])
  }

  /** Decimal digits read as a number, as `parseInt`/`parseFloat` read them. */
  function DigitsValue(s: string): nat
    requires AllDigits(s)
    decreases |s|
  {
    if |s| == 0 then 0 else DigitsValue(s[..|s| - 1]) * 10 + DigitValue(s[|s| - 1])
  }

  /** Decimal rendering of a number, as `String(n)` and template literals give it. */
  function NatToString(n: nat): (s: string)
    ensures |s| >= 1 && AllDigits(s)
    ensures s[0] == '0' ==> n == 0
    decreases n
  {
    if n < 10 then [DigitChar(n)] else NatToString(n / 10) + [DigitChar(n % 10)]
  }

  function IntToString(n: int): string {
    if n < 0 then "-" + NatToString(-n) else NatToString(n)
  }

  /** Reading back a rendered number gives the number. */
  lemma {:induction false} DigitsValueNatToString(n: nat)
    ensures DigitsValue(NatToString(n)) == n
    decreases n
  {
    if n >= 10 {
      DigitsValueNatToString(n / 10);
      var s := NatToString(n);
      assert s[..|s| - 1] == NatToString(n / 10);
    }
  }

  // ---------------------------------------------------------------------------
  // UTF-16
  //
  // A `char` here is a Unicode scalar value; a JavaScript string is a
  // sequence of UTF-16 code units. Lengths and the order of strings are
  // stated in code units.

  /** The UTF-16 encoding of one character: itself below 0x10000, else a
      high and a low surrogate. */
  function Utf16Units(c: char): (u: seq<int>)
    ensures |u| == (if c as int < 0x10000 then 1 else 2)
    ensures |u| == 1 ==> u[0] == c as int && !(0xD800 <= u[0] < 0xE000)
    ensures |u| == 2 ==> 0xD800 <= u[0] < 0xDC00 && 0xDC00 <= u[1] < 0xE000
    ensures |u| == 2 ==> 0x10000 + (u[0] - 0xD800) * 0x400 + (u[1] - 0xDC00) == c as int
  {
    var n := c as int;
    if n < 0x10000 then [n]
    else [0xD800 + (n - 0x10000) / 0x400, 0xDC00 + (n - 0x10000) % 0x400]
  }

  /** The UTF-16 code units of a string. */
  function Utf16(s: string): (u: seq<int>)
    ensures |u| >= |s|
    decreases |s|
  {
    if |s| == 0 then [] else Utf16Units(s[0]) + Utf16(s[1..])
  }

  /** `s.length`: the number of UTF-16 code units. */
  function Utf16Length(s: string): (n: nat)
    ensures n >= |s|
    ensures (forall i :: 0 <= i < |s| ==> s[i] as int < 0x10000) ==> n == |s|
  {
    Utf16LengthBmp(s);
    |Utf16(s)|
  }

  lemma {:induction false} Utf16LengthBmp(s: string)
    ensures (forall i :: 0 <= i < |s| ==> s[i] as int < 0x10000) ==> |Utf16(s)| == |s|
    decreases |s|
  {
    if |s| > 0 {
      Utf16LengthBmp(s[1..]);
      if forall i :: 0 <= i < |s| ==> s[i] as int < 0x10000 {
        assert forall i :: 0 <= i < |s[1..]| ==> s[1..][i] == s[i + 1];
      }
    }
  }

  /** Lexicographic order on code-unit sequences. */
  predicate UnitsLess(a: seq<int>, b: seq<int>)
    decreases |a|
  {
    if |a| == 0 then |b| > 0
    else if |b| == 0 then false
    else if a[0] != b[0] then a[0] < b[0]
    else UnitsLess(a[1..], b[1..])
  }

  /** Where a character's first code unit puts it among all characters:
      below 0xD800 and from 0xE000 up to 0xFFFF a character is one code unit,
      and a supplementary character starts with a surrogate between the two
      ranges. */
  function CodeUnitRank(c: char): (r: int)
    ensures c as int < 0xD800 ==> r == c as int
  {
    var n := c as int;
    if n < 0xD800 then n
    else if n >= 0x10000 then 0xD800 + (n - 0x10000)
    else 0x100000 + n
  }

  /** JavaScript's `<` on two strings: lexicographic order of UTF-16 code
      units, taken character by character (`StrLessIsUnitOrder`). */
  predicate StrLess(a: string, b: string)
    decreases |a|
  {
    if |a| == 0 then |b| > 0
    else if |b| == 0 then false
    else if a[0] != b[0] then CodeUnitRank(a[0]) < CodeUnitRank(b[0])
    else StrLess(a[1..], b[1..])
  }

  /** Two different characters compare by rank exactly as their encodings
      compare, whatever follows them. */
  lemma FirstCharDecides(c: char, d: char, x: seq<int>, y: seq<int>)
    requires c != d
    ensures CodeUnitRank(c) < CodeUnitRank(d) <==> UnitsLess(Utf16Units(c) + x, Utf16Units(d) + y)
  {
    var u, v := Utf16Units(c) + x, Utf16Units(d) + y;
    var cu, du := Utf16Units(c), Utf16Units(d);
    assert u[0] == cu[0] && v[0] == du[0];
    if |cu| == 2 && |du| == 2 && cu[0] == du[0] {
      assert u[1..][0] == cu[1] && v[1..][0] == du[1];
      assert cu[1] != du[1];
      assert UnitsLess(u, v) <==> cu[1] < du[1];
    }
  }

  /** Cancelling a common prefix does not change the order. */
  lemma {:induction false} UnitsLessCancel(p: seq<int>, x: seq<int>, y: seq<int>)
    ensures UnitsLess(p + x, p + y) <==> UnitsLess(x, y)
    decreases |p|
  {
    if |p| > 0 {
      assert (p + x)[1..] == p[1..] + x && (p + y)[1..] == p[1..] + y;
      UnitsLessCancel(p[1..], x, y);
    } else {
      assert p + x == x && p + y == y;
    }
  }

  /** The character-by-character definition is the code-unit order. */
  lemma {:induction false} StrLessIsUnitOrder(a: string, b: string)
    ensures StrLess(a, b) <==> UnitsLess(Utf16(a), Utf16(b))
    decreases |a|
  {
    if |a| > 0 && |b| > 0 {
      if a[0] != b[0] {
        FirstCharDecides(a[0], b[0], Utf16(a[1..]), Utf16(b[1..]));
      } else {
        UnitsLessCancel(Utf16Units(a[0]), Utf16(a[1..]), Utf16(b[1..]));
        StrLessIsUnitOrder(a[1..], b[1..]);
      }
    } else if |a| == 0 && |b| > 0 {
      assert |Utf16(b)| > 0;
    }
  }

  lemma {:induction false} StrLessIrreflexive(a: string)
    ensures !StrLess(a, a)
    decreases |a|
  {
    if |a| > 0 {
      StrLessIrreflexive(a[1..]);
    }
  }

  lemma {:induction false} StrLessTransitive(a: string, b: string, c: string)
    requires StrLess(a, b) && StrLess(b, c)
    ensures StrLess(a, c)
    decreases |a|
  {
    if |a| > 0 && a[0] == b[0] && b[0] == c[0] {
      StrLessTransitive(a[1..], b[1..], c[1..]);
    }
  }

  lemma {:induction false} StrLessTotal(a: string, b: string)
    requires a != b
    ensures StrLess(a, b) || StrLess(b, a)
    decreases |a|
  {
    if |a| > 0 && |b| > 0 && a[0] == b[0] {
      assert a == [a[0]] + a[1..] && b == [b[0]] + b[1..];
      StrLessTotal(a[1..], b[1..]);
    }
  }
}
