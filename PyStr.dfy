/** The Python `str` operations the pipeline relies on, written out over
    `seq<char>`: `isspace`, `strip`/`lstrip`, `lower`, `startswith`,
    `endswith`, `in`, `split`, `join`, `replace(pat, "")`, `str(n)`, `int(s)`
    and the ordering `sorted()` uses. */
module PyStr {
  import opened Types

  /** `c.isspace()`: the characters Python treats as whitespace. */
  predicate IsSpace(c: char) {
    var n := c as int;
    (9 <= n <= 13) || (28 <= n <= 32) || n == 0x85 || n == 0xA0 || n == 0x1680
    || (0x2000 <= n <= 0x200A) || n == 0x2028 || n == 0x2029 || n == 0x202F
    || n == 0x205F || n == 0x3000
  }

  /** `s.lstrip()`: the longest suffix of `s` that does not start with whitespace. */
  function LStrip(s: string): (r: string)
    ensures |r| <= |s|
    ensures forall i :: 0 <= i < |s| - |r| ==> IsSpace(s[i])
    ensures r == [] || !IsSpace(r[0])
  {
    if s != [] && IsSpace(s[0]) then LStrip(s[1..]) else s
  }

  /** `s.rstrip()`: the longest prefix of `s` that does not end with whitespace. */
  function RStrip(s: string): (r: string)
    ensures |r| <= |s|
    ensures forall i :: |r| <= i < |s| ==> IsSpace(s[i])
    ensures r == [] || !IsSpace(r[|r| - 1])
  {
    if s != [] && IsSpace(s[|s| - 1]) then RStrip(s[..|s| - 1]) else s
  }

  lemma {:induction false} LStripIsSuffix(s: string)
    ensures LStrip(s) == s[|s| - |LStrip(s)|..]
    decreases |s|
  {
    if s != [] && IsSpace(s[0]) {
      LStripIsSuffix(s[1..]);
    }
  }

  lemma {:induction false} RStripIsPrefix(s: string)
    ensures RStrip(s) == s[..|RStrip(s)|]
    decreases |s|
  {
    if s != [] && IsSpace(s[|s| - 1]) {
      RStripIsPrefix(s[..|s| - 1]);
    }
  }

  lemma StripFacts(s: string)
    ensures var r := RStrip(LStrip(s));
      && (r == [] || (!IsSpace(r[0]) && !IsSpace(r[|r| - 1])))
      && (r == [] <==> forall i :: 0 <= i < |s| ==> IsSpace(s[i]))
  {
    var l := LStrip(s);
    var r := RStrip(l);
    LStripIsSuffix(s);
    RStripIsPrefix(l);
    if r != [] {
      assert r[0] == l[0];
      assert s[|s| - |l|] == l[0];
      assert !IsSpace(s[|s| - |l|]);
    }
  }

  /** `s.strip()`: empty exactly when `s` is all whitespace. */
  function Strip(s: string): (r: string)
    ensures r == [] || (!IsSpace(r[0]) && !IsSpace(r[|r| - 1]))
    ensures r == [] <==> forall i :: 0 <= i < |s| ==> IsSpace(s[i])
  {
    StripFacts(s);
    RStrip(LStrip(s))
  }

  /** Stripping a string that starts with a non-space keeps it up to any
      later non-space character. */
  lemma StripKeepsPrefix(s: string, p: nat)
    requires p < |s| && !IsSpace(s[0]) && !IsSpace(s[p])
    ensures p < |Strip(s)| && Strip(s)[..p + 1] == s[..p + 1]
  {
    assert LStrip(s) == s;
    RStripIsPrefix(s);
  }

  /** `len(s) - len(s.lstrip())`: the width of the leading whitespace. */
  function Indent(s: string): (n: nat)
    ensures n <= |s|
  {
    |s| - |LStrip(s)|
  }

  function LowerChar(c: char): char {
    if 'A' <= c <= 'Z' then (c as int + 32) as char else c
  }

  /** `s.lower()` on ASCII letters; every other character is kept. */
  function Lower(s: string): (r: string)
    ensures |r| == |s|
  {
    seq(|s|, i requires 0 <= i < |s| => LowerChar(s[i]))
  }

  lemma LowerConcat(a: string, b: string)
    ensures Lower(a + b) == Lower(a) + Lower(b)
  {
    assert forall i :: 0 <= i < |a + b| ==> Lower(a + b)[i] == (Lower(a) + Lower(b))[i];
  }

  /** `s.startswith(p)`. */
  predicate StartsWith(s: string, p: string) {
    |p| <= |s| && s[..|p|] == p
  }

  /** `s.endswith(p)`. */
  predicate EndsWith(s: string, p: string) {
    |p| <= |s| && s[|s| - |p|..] == p
  }

  /** `p in s`: `p` occurs in `s` as a contiguous substring. */
  predicate Contains(s: string, p: string)
    decreases |s|
  {
    StartsWith(s, p) || (s != [] && Contains(s[1..], p))
  }

  /** An occurrence in `a` is still an occurrence after anything is appended or prepended. */
  lemma {:induction false} ContainsConcat(a: string, b: string, p: string)
    ensures Contains(a, p) ==> Contains(a + b, p)
    ensures Contains(a, p) ==> Contains(b + a, p)
    decreases |a| + |b|
  {
    if Contains(a, p) {
      if StartsWith(a, p) {
        assert (a + b)[..|p|] == a[..|p|];
      } else {
        ContainsConcat(a[1..], b, p);
        assert (a + b)[1..] == a[1..] + b;
      }
      if b == [] {
        assert b + a == a;
      } else {
        ContainsConcat(a, b[1..], p);
        assert (b + a)[1..] == b[1..] + a;
      }
    }
  }

  /** An occurrence in `x` is still one with text on both sides of it. */
  lemma ContainsInside(before: string, x: string, after: string, p: string)
    requires Contains(x, p)
    ensures Contains(before + x + after, p)
  {
    ContainsConcat(x, after, p);
    ContainsConcat(x + after, before, p);
    assert before + x + after == before + (x + after);
  }

  /** Index of the first `c` in `s`, or `|s|` when there is none. */
  function IndexOf(s: string, c: char): (k: nat)
    ensures k <= |s| && (k < |s| ==> s[k] == c)
    ensures forall i :: 0 <= i < k ==> s[i] != c
  {
    if s == [] then 0 else if s[0] == c then 0 else 1 + IndexOf(s[1..], c)
  }

  /** `s.split(sep)` for a one-character separator: never empty, and no part holds `sep`. */
  function Split(s: string, sep: char): (parts: seq<string>)
    ensures |parts| >= 1
    ensures forall i :: 0 <= i < |parts| ==> sep !in parts[i]
    decreases |s|
  {
    var k := IndexOf(s, sep);
    if k == |s| then [s] else [s[..k]] + Split(s[k + 1..], sep)
  }

  /** `s.split('\n')`. */
  function Lines(s: string): (lines: seq<string>)
    ensures |lines| >= 1
  {
    Split(s, '\n')
  }

  /** `sep.join(parts)`. */
  function Join(parts: seq<string>, sep: string): string {
    if parts == [] then ""
    else if |parts| == 1 then parts[0]
    else parts[0] + sep + Join(parts[1..], sep)
  }

  lemma JoinSnoc(parts: seq<string>, x: string, sep: string)
    requires parts != []
    ensures Join(parts + [x], sep) == Join(parts, sep) + sep + x
  {
    if |parts| == 1 {
      assert parts + [x] == [parts[0], x];
    } else {
      assert (parts + [x])[1..] == parts[1..] + [x];
      JoinSnoc(parts[1..], x, sep);
    }
  }

  /** The first `c` is at `k` when `s[k]` is one and nothing before it is. */
  lemma IndexOfAt(s: string, c: char, k: nat)
    requires k < |s| && s[k] == c
    requires forall i :: 0 <= i < k ==> s[i] != c
    ensures IndexOf(s, c) == k
  {
  }

  /** Splitting at a first separator peels off the part before it. */
  lemma SplitCons(x: string, rest: string, sep: char)
    requires sep !in x
    ensures Split(x + [sep] + rest, sep) == [x] + Split(rest, sep)
  {
    var s := x + [sep] + rest;
    assert s[|x|] == sep;
    assert forall i :: 0 <= i < |x| ==> s[i] == x[i];
    IndexOfAt(s, sep, |x|);
    assert s[..|x|] == x;
    assert s[|x| + 1..] == rest;
  }

  /** A string with no separator is its own single part. */
  lemma SplitNone(s: string, sep: char)
    requires sep !in s
    ensures Split(s, sep) == [s]
  {
    assert IndexOf(s, sep) == |s|;
  }

  /** Splitting what was joined on a separator that no part contains returns the parts. */
  lemma {:induction false} SplitJoin(parts: seq<string>, sep: char)
    requires |parts| >= 1
    requires forall i :: 0 <= i < |parts| ==> sep !in parts[i]
    ensures Split(Join(parts, [sep]), sep) == parts
    decreases |parts|
  {
    if |parts| == 1 {
      SplitNone(parts[0], sep);
    } else {
      var rest := Join(parts[1..], [sep]);
      assert Join(parts, [sep]) == parts[0] + [sep] + rest;
      SplitCons(parts[0], rest, sep);
      SplitJoin(parts[1..], sep);
      assert parts == [parts[0]] + parts[1..];
    }
  }

  /** Joining what `Split` produced gives back the string. */
  lemma {:induction false} JoinSplit(s: string, sep: char)
    ensures Join(Split(s, sep), [sep]) == s
    decreases |s|
  {
    var k := IndexOf(s, sep);
    if k < |s| {
      JoinSplit(s[k + 1..], sep);
      var parts := Split(s, sep);
      assert parts[1..] == Split(s[k + 1..], sep);
      assert s == s[..k] + [sep] + s[k + 1..];
    }
  }

  /** `s.replace(pat, "")`: every non-overlapping occurrence of `pat`, scanning
      left to right, deleted. */
  function RemoveAll(s: string, pat: string): (r: string)
    requires pat != []
    ensures |r| <= |s|
    ensures forall i :: 0 <= i < |r| ==> r[i] in s
    decreases |s|
  {
    if |s| < |pat| then s
    else if s[..|pat|] == pat then
      var r := RemoveAll(s[|pat|..], pat);
      assert forall i :: 0 <= i < |r| ==> r[i] in s[|pat|..];
      r
    else
      var r := RemoveAll(s[1..], pat);
      assert forall i :: 0 <= i < |r| ==> r[i] in s[1..];
      [s[0]] + r
  }

  /** `replace` leaves a string alone when it lacks a character of the pattern. */
  lemma {:induction false} RemoveAllAbsent(s: string, pat: string, c: char)
    requires c in pat && c !in s
    ensures RemoveAll(s, pat) == s
    decreases |s|
  {
    if |s| >= |pat| {
      assert s[..|pat|] != pat by {
        var j :| 0 <= j < |pat| && pat[j] == c;
        assert s[..|pat|][j] == s[j];
      }
      RemoveAllAbsent(s[1..], pat, c);
      assert [s[0]] + s[1..] == s;
    }
  }

  predicate IsDigit(c: char) {
    '0' <= c <= '9'
  }

  function DigitChar(d: nat): char
    requires d < 10
  {
    ('0' as int + d) as char
  }

  /** `str(n)` for a non-negative integer: its decimal digits. */
  function NatToString(n: nat): (s: string)
    ensures |s| >= 1 && (n >= 10 ==> |s| >= 2)
    ensures forall i :: 0 <= i < |s| ==> IsDigit(s[i])
  {
    if n < 10 then [DigitChar(n)] else NatToString(n / 10) + [DigitChar(n % 10)]
  }

  /** Different numbers print differently. */
  lemma {:induction false} NatToStringInjective(a: nat, b: nat)
    requires NatToString(a) == NatToString(b)
    ensures a == b
    decreases a
  {
    var s := NatToString(a);
    if a >= 10 && b >= 10 {
      assert s[|s| - 1] == DigitChar(a % 10) == DigitChar(b % 10);
      assert s[..|s| - 1] == NatToString(a / 10) == NatToString(b / 10);
      NatToStringInjective(a / 10, b / 10);
    }
  }

  /** The digit part `int()` accepts: ASCII digits, with single underscores
      allowed between two digits. */
  predicate IsDigitText(d: string) {
    && |d| > 0 && IsDigit(d[0]) && IsDigit(d[|d| - 1])
    && forall i :: 0 <= i < |d| ==> IsDigit(d[i]) || (d[i] == '_' && i + 1 < |d| && IsDigit(d[i + 1]))
  }

  /** The number a digit text denotes, underscores ignored. */
  function DigitsValue(d: string): nat {
    if d == [] then 0
    else
      var c := d[|d| - 1];
      if IsDigit(c) then DigitsValue(d[..|d| - 1]) * 10 + (c as int - '0' as int)
      else DigitsValue(d[..|d| - 1])
  }

  /** `int(s)`: `Some` of the value, or `None` where Python raises ValueError.
      Surrounding whitespace and one leading sign are accepted. */
  function ParseInt(s: string): Option<int> {
    var t := Strip(s);
    if t != [] && (t[0] == '+' || t[0] == '-') then
      if IsDigitText(t[1..]) then
        var v: int := DigitsValue(t[1..]);
        Some(if t[0] == '-' then -v else v)
      else None
    else if IsDigitText(t) then Some(DigitsValue(t))
    else None
  }

  lemma {:induction false} DigitsValueOfNat(n: nat)
    ensures DigitsValue(NatToString(n)) == n
    decreases n
  {
    if n >= 10 {
      var s := NatToString(n);
      assert s[..|s| - 1] == NatToString(n / 10);
      DigitsValueOfNat(n / 10);
    }
  }

  /** `int(str(n)) == n`. */
  lemma ParseIntOfNat(n: nat)
    ensures ParseInt(NatToString(n)) == Some(n)
  {
    var s := NatToString(n);
    assert LStrip(s) == s;
    assert RStrip(s) == s;
    assert Strip(s) == s;
    DigitsValueOfNat(n);
  }

  /** `a <= b` on Python strings: lexicographic order by code point. */
  predicate StrLe(a: string, b: string)
    decreases |a|
  {
    a == [] || (b != [] && (a[0] < b[0] || (a[0] == b[0] && StrLe(a[1..], b[1..]))))
  }

  lemma {:induction false} StrLeTotal(a: string, b: string)
    ensures StrLe(a, b) || StrLe(b, a)
    decreases |a|
  {
    if a != [] && b != [] && a[0] == b[0] {
      StrLeTotal(a[1..], b[1..]);
    }
  }

  lemma {:induction false} StrLeTrans(a: string, b: string, c: string)
    requires StrLe(a, b) && StrLe(b, c)
    ensures StrLe(a, c)
    decreases |a|
  {
    if a != [] && a[0] == b[0] && b[0] == c[0] {
      StrLeTrans(a[1..], b[1..], c[1..]);
    }
  }

  lemma {:induction false} StrLeAntisym(a: string, b: string)
    requires StrLe(a, b) && StrLe(b, a)
    ensures a == b
    decreases |a|
  {
    if a != [] {
      StrLeAntisym(a[1..], b[1..]);
      assert a == [a[0]] + a[1..] && b == [b[0]] + b[1..];
    }
  }

  predicate SortedStrs(s: seq<string>) {
    forall i, j :: 0 <= i < j < |s| ==> StrLe(s[i], s[j])
  }

  /** A string no greater than every element of a sorted list can go in front of it. */
  lemma ConsSorted(a: string, s: seq<string>)
    requires SortedStrs(s)
    requires forall j :: 0 <= j < |s| ==> StrLe(a, s[j])
    ensures SortedStrs([a] + s)
  {
    forall i, j | 0 <= i < j < |[a] + s| ensures StrLe(([a] + s)[i], ([a] + s)[j]) {
      if i > 0 {
        assert ([a] + s)[i] == s[i - 1];
      }
      assert ([a] + s)[j] == s[j - 1];
    }
  }

  /** A string no greater than the head of a sorted list is no greater than any of it. */
  lemma BelowHead(x: string, s: seq<string>)
    requires SortedStrs(s) && s != [] && StrLe(x, s[0])
    ensures forall j :: 0 <= j < |s| ==> StrLe(x, s[j])
  {
    forall j | 0 < j < |s| ensures StrLe(x, s[j]) { StrLeTrans(x, s[0], s[j]); }
  }

  /** The head of a sorted list is below the insertion of a greater string into its tail. */
  lemma HeadBelowInsert(x: string, s: seq<string>, rest: seq<string>)
    requires SortedStrs(s) && s != [] && !StrLe(x, s[0])
    requires multiset(rest) == multiset(s[1..]) + multiset{x}
    ensures forall j :: 0 <= j < |rest| ==> StrLe(s[0], rest[j])
  {
    forall j | 0 <= j < |rest| ensures StrLe(s[0], rest[j]) {
      assert rest[j] in multiset(rest);
      if rest[j] == x {
        StrLeTotal(x, s[0]);
      } else {
        assert rest[j] in multiset(s[1..]);
        var k :| 0 <= k < |s[1..]| && s[1..][k] == rest[j];
        assert s[k + 1] == rest[j];
      }
    }
  }

  function InsertStr(x: string, s: seq<string>): (r: seq<string>)
    requires SortedStrs(s)
    ensures SortedStrs(r) && multiset(r) == multiset(s) + multiset{x}
  {
    if s == [] then [x]
    else
      assert s == [s[0]] + s[1..];
      if StrLe(x, s[0]) then
        BelowHead(x, s);
        ConsSorted(x, s);
        [x] + s
      else
        var rest := InsertStr(x, s[1..]);
        HeadBelowInsert(x, s, rest);
        ConsSorted(s[0], rest);
        [s[0]] + rest
  }

  /** `sorted(xs)` for a list of strings: the sorted permutation of `xs`. */
  function SortStrings(xs: seq<string>): (r: seq<string>)
    ensures SortedStrs(r) && multiset(r) == multiset(xs)
  {
    if xs == [] then []
    else
      assert xs == [xs[0]] + xs[1..];
      InsertStr(xs[0], SortStrings(xs[1..]))
  }

  lemma SortStringsHas(xs: seq<string>, x: string)
    ensures x in SortStrings(xs) <==> x in xs
  {
    assert x in SortStrings(xs) <==> x in multiset(SortStrings(xs));
    assert x in xs <==> x in multiset(xs);
  }
}
