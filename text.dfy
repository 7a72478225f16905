/**
  The parts of Python's `str` that the downloader and the front end rely on:
  prefix and suffix tests, `find`, `in`, `strip`, `split`, slicing, lowercasing,
  integer formatting and the ordering `<` that `list.sort` uses on names.
 */
module Text {

  /** Python's `str.isspace()` and the `\s` class of a `str` regex. */
  predicate IsSpace(c: char) {
    var n := c as int;
    n == 32 || (9 <= n <= 13) || (28 <= n <= 31) || n == 0x85 || n == 0xA0 || n == 0x1680
    || (0x2000 <= n <= 0x200A) || n == 0x2028 || n == 0x2029 || n == 0x202F || n == 0x205F
    || n == 0x3000
  }

  /** An ASCII decimal digit (the `\d` of the source's patterns, restricted to ASCII). */
  predicate IsDigit(c: char) {
    '0' <= c <= '9'
  }

  function ToLower(c: char): (r: char)
    ensures 'A' <= c <= 'Z' ==> r as int == c as int + 32
    ensures !('A' <= c <= 'Z') ==> r == c
  {
    if 'A' <= c <= 'Z' then (c as int + 32) as char else c
  }

  /** `str.lower()` on ASCII letters; every other character is kept. */
  function Lower(s: string): (r: string)
    ensures |r| == |s|
    ensures forall i :: 0 <= i < |s| ==> r[i] == ToLower(s[i])
  {
    if |s| == 0 then [] else [ToLower(s[0])] + Lower(s[1..])
  }

  lemma {:induction false} LowerAppend(a: string, b: string)
    ensures Lower(a + b) == Lower(a) + Lower(b)
  {
    var l, r := Lower(a + b), Lower(a) + Lower(b);
    assert |l| == |r|;
    forall i | 0 <= i < |l| ensures l[i] == r[i] {
      if i < |a| { assert (a + b)[i] == a[i]; } else { assert (a + b)[i] == b[i - |a|]; }
    }
  }

  lemma LowerIdempotent(s: string)
    ensures Lower(Lower(s)) == Lower(s)
  {
  }

  predicate StartsWith(s: string, p: string) {
    |p| <= |s| && s[..|p|] == p
  }

  predicate EndsWith(s: string, p: string) {
    |p| <= |s| && s[|s| - |p|..] == p
  }

  /** `p` occurs in `s` at position `k`. */
  predicate OccursAt(s: string, p: string, k: nat) {
    k + |p| <= |s| && s[k..k + |p|] == p
  }

  /**
    Python's `s.find(p, start)` for a non-negative `start`: the lowest index
    `k >= start` at which `p` occurs, or -1.
   */
  function Find(s: string, p: string, start: nat): (r: int)
    ensures r == -1 || (start <= r && OccursAt(s, p, r))
    ensures r != -1 ==> forall k :: start <= k < r ==> !OccursAt(s, p, k)
    ensures r == -1 ==> forall k :: start <= k ==> !OccursAt(s, p, k)
    decreases |s| - start
  {
    if start + |p| > |s| then -1
    else if s[start..start + |p|] == p then start
    else Find(s, p, start + 1)
  }

  /** The first occurrence at or after `start`, when its position is known. */
  lemma FindIs(s: string, p: string, start: nat, k: nat)
    requires start <= k && OccursAt(s, p, k)
    requires forall j :: start <= j < k ==> !OccursAt(s, p, j)
    ensures Find(s, p, start) == k
  {
  }

  /** `Find` stops at `k` when no position from `start` to `k` holds the first character of `p`. */
  lemma FindAfterFree(s: string, p: string, start: nat, k: nat)
    requires |p| > 0 && start <= k && OccursAt(s, p, k)
    requires forall j :: start <= j < k ==> s[j] != p[0]
    ensures Find(s, p, start) == k
  {
    forall j | start <= j < k ensures !OccursAt(s, p, j) {
      if j + |p| <= |s| { assert s[j..j + |p|][0] == s[j]; }
    }
    FindIs(s, p, start, k);
  }

  /** Python's `p in s`. */
  predicate Contains(s: string, p: string) {
    Find(s, p, 0) >= 0
  }

  lemma ContainsAt(s: string, p: string, k: nat)
    requires OccursAt(s, p, k)
    ensures Contains(s, p)
  {
  }

  /** `p` occurs in `a + p + b` right after `a`. */
  lemma OccursInside(a: string, p: string, b: string)
    ensures OccursAt(a + p + b, p, |a|)
  {
    assert (a + p + b)[|a|..|a| + |p|] == p;
  }

  lemma ContainsWitness(s: string, p: string) returns (k: nat)
    requires Contains(s, p)
    ensures OccursAt(s, p, k)
  {
    k := Find(s, p, 0);
  }

  /** Containment survives putting text on either side. */
  lemma ContainsInContext(a: string, s: string, b: string, p: string)
    requires Contains(s, p)
    ensures Contains(a + s + b, p)
  {
    var k := ContainsWitness(s, p);
    assert (a + s + b)[|a| + k..|a| + k + |p|] == s[k..k + |p|];
    assert OccursAt(a + s + b, p, |a| + k);
    ContainsAt(a + s + b, p, |a| + k);
  }

  /** A text that has the pattern as a prefix contains it. */
  lemma ContainsPrefix(s: string, p: string)
    requires StartsWith(s, p)
    ensures Contains(s, p)
  {
    ContainsAt(s, p, 0);
  }

  /** Nothing of length `|p|` occurs in a text shorter than `p`, nor in one that never has `p[0]`. */
  lemma NotContainsFirstChar(s: string, p: string)
    requires |p| > 0 && forall i :: 0 <= i < |s| ==> s[i] != p[0]
    ensures !Contains(s, p)
  {
    forall k: nat ensures !OccursAt(s, p, k) {
      if k + |p| <= |s| { assert s[k..k + |p|][0] == s[k]; }
    }
  }

  /** The index of the first `c` in `s`, or -1. */
  function IndexOf(s: string, c: char): (r: int)
    ensures -1 <= r < |s|
    ensures r >= 0 ==> s[r] == c && forall i :: 0 <= i < r ==> s[i] != c
    ensures r == -1 ==> forall i :: 0 <= i < |s| ==> s[i] != c
  {
    if |s| == 0 then -1
    else if s[0] == c then 0
    else var k := IndexOf(s[1..], c); if k < 0 then -1 else k + 1
  }

  /** Python's `s.rfind(c)` for one character: the index of the last `c`, or -1. */
  function LastIndexOf(s: string, c: char): (r: int)
    ensures -1 <= r < |s|
    ensures r >= 0 ==> s[r] == c && forall i :: r < i < |s| ==> s[i] != c
    ensures r == -1 ==> forall i :: 0 <= i < |s| ==> s[i] != c
  {
    if |s| == 0 then -1
    else if s[|s| - 1] == c then |s| - 1
    else LastIndexOf(s[..|s| - 1], c)
  }

  /** The length of the longest run of characters satisfying `p` that starts at `i`. */
  function Span(s: string, i: nat, p: char -> bool): (n: nat)
    requires i <= |s|
    ensures i + n <= |s|
    ensures forall k :: i <= k < i + n ==> p(s[k])
    ensures i + n == |s| || !p(s[i + n])
    decreases |s| - i
  {
    if i < |s| && p(s[i]) then 1 + Span(s, i + 1, p) else 0
  }

  /** A run of `n` characters of `p` from `i`, ended by a character outside `p` or by the end of `s`, is the span. */
  lemma {:induction false} SpanExact(s: string, i: nat, n: nat, p: char -> bool)
    requires i + n <= |s|
    requires forall k :: i <= k < i + n ==> p(s[k])
    requires i + n == |s| || !p(s[i + n])
    ensures Span(s, i, p) == n
    decreases n
  {
    if n > 0 { SpanExact(s, i + 1, n - 1, p); }
  }

  /** The length of the longest run of characters satisfying `p` that ends just before `j`. */
  function SpanBack(s: string, j: nat, p: char -> bool): (n: nat)
    requires j <= |s|
    ensures n <= j
    ensures forall k :: j - n <= k < j ==> p(s[k])
    ensures n == j || !p(s[j - n - 1])
  {
    if j > 0 && p(s[j - 1]) then 1 + SpanBack(s, j - 1, p) else 0
  }

  /** A run of `n` characters of `p` ending before `j`, with none just before it, is the backward span. */
  lemma SpanBackIs(s: string, j: nat, n: nat, p: char -> bool)
    requires n <= j <= |s|
    requires forall k :: j - n <= k < j ==> p(s[k])
    requires n == j || !p(s[j - n - 1])
    ensures SpanBack(s, j, p) == n
    decreases n
  {
    if n > 0 { SpanBackIs(s, j - 1, n - 1, p); }
  }

  /** `str.lstrip(chars)`, the characters given by `p`. */
  function LStripBy(s: string, p: char -> bool): string {
    s[Span(s, 0, p)..]
  }

  /** `lstrip` drops a run of `p` characters from the front, and only that. */
  lemma LStripByShape(s: string, p: char -> bool)
    ensures var r := LStripBy(s, p);
      |r| <= |s| && r == s[|s| - |r|..] && (r == [] || !p(r[0])) &&
      forall i :: 0 <= i < |s| - |r| ==> p(s[i])
  {
  }

  /** `str.rstrip(chars)`, the characters given by `p`. */
  function RStripBy(s: string, p: char -> bool): string {
    s[..|s| - SpanBack(s, |s|, p)]
  }

  /** `rstrip` drops a run of `p` characters from the back, and only that. */
  lemma RStripByShape(s: string, p: char -> bool)
    ensures var r := RStripBy(s, p);
      |r| <= |s| && r == s[..|r|] && (r == [] || !p(r[|r| - 1])) &&
      forall i :: |r| <= i < |s| ==> p(s[i])
  {
  }

  /** `str.strip(chars)`: both ends. */
  function StripBy(s: string, p: char -> bool): string {
    RStripBy(LStripBy(s, p), p)
  }

  /** `str.strip()` with no argument. */
  function Strip(s: string): string {
    StripBy(s, IsSpace)
  }

  /** What `strip` keeps is a contiguous piece of its input that starts and ends outside `p`. */
  lemma StripByShape(s: string, p: char -> bool) returns (lo: nat, hi: nat)
    ensures lo <= hi <= |s| && StripBy(s, p) == s[lo..hi]
    ensures forall i :: 0 <= i < lo ==> p(s[i])
    ensures forall i :: hi <= i < |s| ==> p(s[i])
    ensures lo < hi ==> !p(s[lo]) && !p(s[hi - 1])
  {
    var l := LStripBy(s, p);
    LStripByShape(s, p);
    RStripByShape(l, p);
    lo := |s| - |l|;
    assert l == s[lo..];
    var r := RStripBy(l, p);
    hi := lo + |r|;
    assert r == l[..|r|];
    forall i | 0 <= i < |r| ensures r[i] == s[lo + i] {
      assert r[i] == l[i] == s[lo + i];
    }
    assert StripBy(s, p) == r;
    assert r == s[lo..hi];
    forall i | hi <= i < |s| ensures p(s[i]) {
      assert s[i] == l[i - lo];
    }
    if lo < hi {
      assert s[lo] == r[0];
      assert s[hi - 1] == r[|r| - 1];
    }
  }

  /** A text that neither starts nor ends with a character of `p` is left alone. */
  lemma StripByUnchanged(s: string, p: char -> bool)
    requires s == [] || (!p(s[0]) && !p(s[|s| - 1]))
    ensures StripBy(s, p) == s
  {
  }

  lemma StripIdempotent(s: string)
    ensures Strip(Strip(s)) == Strip(s)
  {
    var lo, hi := StripByShape(s, IsSpace);
    var t := Strip(s);
    StripByUnchanged(t, IsSpace);
  }

  /**
    A word that neither starts nor ends with a `p` character and comes right
    after a run of `p` characters at the start survives `strip`, as its prefix.
   */
  lemma StripByStartsWith(s: string, n: nat, w: string, p: char -> bool)
    requires |w| >= 1 && n + |w| <= |s| && s[n..n + |w|] == w
    requires forall i :: 0 <= i < n ==> p(s[i])
    requires !p(w[0]) && !p(w[|w| - 1])
    ensures StartsWith(StripBy(s, p), w)
  {
    var lo, hi := StripByShape(s, p);
    assert !p(s[n]) by { assert s[n] == w[0]; }
    assert !p(s[n + |w| - 1]) by { assert s[n + |w| - 1] == w[|w| - 1]; }
    assert lo == n;
    assert StripBy(s, p)[..|w|] == s[n..n + |w|];
  }

  /** `strip` neither adds nor removes an occurrence of a word that has no `p` character. */
  lemma StripByContains(s: string, w: string, p: char -> bool)
    requires |w| >= 1 && forall i :: 0 <= i < |w| ==> !p(w[i])
    ensures Contains(StripBy(s, p), w) <==> Contains(s, w)
  {
    var lo, hi := StripByShape(s, p);
    if Contains(StripBy(s, p), w) { StrippedWithin(s, lo, hi, w, p); }
    if Contains(s, w) { StripKeepsWord(s, lo, hi, w, p); }
  }

  lemma StrippedWithin(s: string, lo: nat, hi: nat, w: string, p: char -> bool)
    requires lo <= hi <= |s| && StripBy(s, p) == s[lo..hi]
    requires Contains(StripBy(s, p), w)
    ensures Contains(s, w)
  {
    var t := s[lo..hi];
    assert s == s[..lo] + t + s[hi..];
    ContainsInContext(s[..lo], t, s[hi..], w);
  }

  lemma StripKeepsWord(s: string, lo: nat, hi: nat, w: string, p: char -> bool)
    requires |w| >= 1 && forall i :: 0 <= i < |w| ==> !p(w[i])
    requires lo <= hi <= |s| && StripBy(s, p) == s[lo..hi]
    requires forall i :: 0 <= i < lo ==> p(s[i])
    requires forall i :: hi <= i < |s| ==> p(s[i])
    requires Contains(s, w)
    ensures Contains(StripBy(s, p), w)
  {
    var k := ContainsWitness(s, w);
    OccursEnds(s, w, k);
    assert !p(s[k]) && !p(s[k + |w| - 1]);
    assert lo <= k;
    assert k + |w| <= hi;
    OccursWithin(s, w, k, lo, hi);
    ContainsAt(s[lo..hi], w, k - lo);
  }

  /** An occurrence starts with the word's first character and ends with its last. */
  lemma OccursEnds(s: string, w: string, k: nat)
    requires |w| >= 1 && OccursAt(s, w, k)
    ensures s[k] == w[0] && s[k + |w| - 1] == w[|w| - 1]
  {
    assert s[k..k + |w|][0] == s[k];
    assert s[k..k + |w|][|w| - 1] == s[k + |w| - 1];
  }

  /** An occurrence inside `s[lo..hi]` is an occurrence in that slice. */
  lemma OccursWithin(s: string, w: string, k: nat, lo: nat, hi: nat)
    requires OccursAt(s, w, k) && lo <= k && k + |w| <= hi <= |s|
    ensures OccursAt(s[lo..hi], w, k - lo)
  {
    var t := s[lo..hi];
    forall i | 0 <= i < |w| ensures t[k - lo + i] == w[i] {
      assert s[k..k + |w|][i] == s[k + i];
    }
    assert t[k - lo..k - lo + |w|] == w;
  }

  /** Python's `s.split(sep)` for a one-character separator. */
  function Split(s: string, sep: char): (r: seq<string>)
    ensures |r| >= 1
    ensures forall k :: 0 <= k < |r| ==> sep !in r[k]
    decreases |s|
  {
    var k := IndexOf(s, sep);
    if k < 0 then [s]
    else
      var parts := Split(s[k + 1..], sep);
      BeforeFirstFree(s, sep);
      NoneHoldsSep(s[..k], parts, sep);
      [s[..k]] + parts
  }

  lemma NoneHoldsSep(a: string, parts: seq<string>, sep: char)
    requires sep !in a && forall k :: 0 <= k < |parts| ==> sep !in parts[k]
    ensures forall k :: 0 <= k < |parts| + 1 ==> sep !in ([a] + parts)[k]
  {
    forall k | 0 <= k < |parts| + 1 ensures sep !in ([a] + parts)[k] {
      if k > 0 { assert ([a] + parts)[k] == parts[k - 1]; }
    }
  }

  /** The text before the first separator holds none. */
  lemma BeforeFirstFree(s: string, sep: char)
    requires IndexOf(s, sep) >= 0
    ensures sep !in s[..IndexOf(s, sep)]
  {
    var k := IndexOf(s, sep);
    forall i | 0 <= i < k ensures s[..k][i] != sep { assert s[..k][i] == s[i]; }
  }

  /** Splitting at the first separator: the part before it, then the splitting of the rest. */
  lemma SplitAt(s: string, a: string, b: string, sep: char)
    requires s == a + [sep] + b && sep !in a
    ensures Split(s, sep) == [a] + Split(b, sep)
  {
    assert s[|a|] == sep;
    assert IndexOf(s, sep) == |a| by {
      forall i | 0 <= i < |a| ensures s[i] != sep { assert s[i] == a[i]; }
    }
    assert s[..|a|] == a && s[|a| + 1..] == b;
  }

  /** The first part of a split is a prefix, at least as long as the separator-free start. */
  lemma SplitHead(s: string, sep: char, n: nat)
    requires n <= |s| && forall i :: 0 <= i < n ==> s[i] != sep
    ensures n <= |Split(s, sep)[0]| <= |s| && Split(s, sep)[0] == s[..|Split(s, sep)[0]|]
  {
  }

  /** Python's `sep.join(parts)`. */
  function Join(parts: seq<string>, sep: char): string
    decreases |parts|
  {
    if |parts| == 0 then ""
    else if |parts| == 1 then parts[0]
    else parts[0] + [sep] + Join(parts[1..], sep)
  }

  lemma JoinCons(a: string, tail: seq<string>, sep: char)
    requires |tail| >= 1
    ensures Join([a] + tail, sep) == a + [sep] + Join(tail, sep)
  {
    assert ([a] + tail)[1..] == tail;
  }

  /** Splitting and joining again gives the text back. */
  lemma {:induction false} JoinSplit(s: string, sep: char)
    ensures Join(Split(s, sep), sep) == s
    decreases |s|
  {
    var k := IndexOf(s, sep);
    if k >= 0 {
      var a, rest := s[..k], s[k + 1..];
      assert s == a + [sep] + rest;
      SplitAt(s, a, rest, sep);
      JoinSplit(rest, sep);
      JoinCons(a, Split(rest, sep), sep);
    }
  }

  /** Splitting a join of separator-free parts gives the parts back. */
  lemma {:induction false} SplitJoin(parts: seq<string>, sep: char)
    requires |parts| >= 1
    requires forall k :: 0 <= k < |parts| ==> sep !in parts[k]
    ensures Split(Join(parts, sep), sep) == parts
    decreases |parts|
  {
    if |parts| == 1 {
      assert IndexOf(parts[0], sep) == -1;
    } else {
      var rest := Join(parts[1..], sep);
      assert Join(parts, sep) == parts[0] + [sep] + rest;
      SplitAt(Join(parts, sep), parts[0], rest, sep);
      SplitJoin(parts[1..], sep);
      assert parts == [parts[0]] + parts[1..];
    }
  }

  /**
    Python's `s[start:end]` on a string with step 1: negative bounds count from the
    end, bounds are clamped to the string, and crossed bounds give "".
   */
  function PySlice(s: string, start: int, end: int): (r: string)
    ensures |r| <= |s|
  {
    var n := |s|;
    var b := if start < 0 then (if n + start < 0 then 0 else n + start) else (if start > n then n else start);
    var e := if end < 0 then (if n + end < 0 then 0 else n + end) else (if end > n then n else end);
    if b < e then s[b..e] else ""
  }
  /** With both bounds inside the string and in order, the Python slice is the plain slice. */
  lemma PySliceIn(s: string, i: nat, j: nat)
    requires i <= j <= |s|
    ensures PySlice(s, i, j) == s[i..j]
  {
  }


  function DigitChar(d: nat): (c: char)
    requires d < 10
    ensures IsDigit(c) && c as int == 48 + d
  {
    (48 + d) as char
  }

  /** `str(n)` for a non-negative integer. */
  function Decimal(n: nat): (r: string)
    ensures 1 <= |r|
    ensures forall i :: 0 <= i < |r| ==> IsDigit(r[i])
  {
    if n < 10 then [DigitChar(n)] else Decimal(n / 10) + [DigitChar(n % 10)]
  }

  function Zeros(k: nat): (r: string)
    ensures |r| == k && forall i :: 0 <= i < k ==> r[i] == '0'
  {
    if k == 0 then "" else Zeros(k - 1) + "0"
  }

  /** The format `f"{n:05d}"`: `str(n)` left-padded with zeros to five characters. */
  function Format05d(n: nat): string {
    var d := Decimal(n);
    if |d| < 5 then Zeros(5 - |d|) + d else d
  }

  function Pow10(w: nat): (r: nat)
    ensures r >= 1
  {
    if w == 0 then 1 else 10 * Pow10(w - 1)
  }

  /** The last `w` decimal digits of `n`, most significant first. */
  function Fixed(n: nat, w: nat): (r: string)
    ensures |r| == w
  {
    if w == 0 then "" else Fixed(n / 10, w - 1) + [DigitChar(n % 10)]
  }

  lemma {:induction false} FixedZero(w: nat)
    ensures Fixed(0, w) == Zeros(w)
  {
    if w > 0 { FixedZero(w - 1); }
  }

  /** For a number of at most `w` digits, the fixed-width digits are its zero-padded decimal form. */
  lemma {:induction false} FixedIsPadded(n: nat, w: nat)
    requires 1 <= w && n < Pow10(w)
    ensures |Decimal(n)| <= w && Fixed(n, w) == Zeros(w - |Decimal(n)|) + Decimal(n)
  {
    if n < 10 {
      FixedZero(w - 1);
      assert Zeros(w - 1) + [DigitChar(n)] == Zeros(w - 1) + "" + [DigitChar(n)];
    } else {
      assert w > 1;
      assert n / 10 < Pow10(w - 1);
      FixedIsPadded(n / 10, w - 1);
    }
  }

  lemma Format05dFixed(n: nat)
    requires n < 100000
    ensures Format05d(n) == Fixed(n, 5) && |Format05d(n)| == 5
  {
    assert Pow10(5) == 100000;
    FixedIsPadded(n, 5);
  }

  /** Python's `a < b` on strings: code-point lexicographic order, a proper prefix first. */
  predicate LexLess(a: string, b: string) {
    if |a| == 0 then |b| > 0
    else if |b| == 0 then false
    else if a[0] != b[0] then a[0] < b[0]
    else LexLess(a[1..], b[1..])
  }

  lemma {:induction false} LexLessIrreflexive(a: string)
    ensures !LexLess(a, a)
  {
    if |a| > 0 { LexLessIrreflexive(a[1..]); }
  }

  lemma {:induction false} LexLessAsymmetric(a: string, b: string)
    requires LexLess(a, b)
    ensures !LexLess(b, a)
  {
    if |a| > 0 && |b| > 0 && a[0] == b[0] { LexLessAsymmetric(a[1..], b[1..]); }
  }

  lemma {:induction false} LexLessTransitive(a: string, b: string, c: string)
    requires LexLess(a, b) && LexLess(b, c)
    ensures LexLess(a, c)
  {
    if |a| > 0 && |b| > 0 && |c| > 0 && a[0] == b[0] && b[0] == c[0] {
      LexLessTransitive(a[1..], b[1..], c[1..]);
    }
  }

  lemma {:induction false} LexLessTotal(a: string, b: string)
    requires a != b
    ensures LexLess(a, b) || LexLess(b, a)
  {
    if |a| > 0 && |b| > 0 && a[0] == b[0] {
      assert a == [a[0]] + a[1..] && b == [b[0]] + b[1..];
      LexLessTotal(a[1..], b[1..]);
    }
  }

  /** A shared prefix does not change the order. */
  lemma {:induction false} LexLessCommonPrefix(p: string, a: string, b: string)
    ensures LexLess(p + a, p + b) == LexLess(a, b)
  {
    if |p| > 0 {
      assert (p + a)[1..] == p[1..] + a && (p + b)[1..] == p[1..] + b;
      LexLessCommonPrefix(p[1..], a, b);
    } else {
      assert p + a == a && p + b == b;
    }
  }

  /** Two equally long texts in order stay in order whatever follows them. */
  lemma {:induction false} LexLessEqualLengthAppend(a: string, b: string, x: string, y: string)
    requires |a| == |b| && LexLess(a, b)
    ensures LexLess(a + x, b + y)
  {
    assert (a + x)[0] == a[0] && (b + y)[0] == b[0];
    if a[0] == b[0] {
      assert (a + x)[1..] == a[1..] + x && (b + y)[1..] == b[1..] + y;
      LexLessEqualLengthAppend(a[1..], b[1..], x, y);
    }
  }

  /** Fixed-width digit strings are ordered as the numbers they write. */
  lemma {:induction false} FixedOrdered(i: nat, j: nat, w: nat)
    requires i < j < Pow10(w)
    ensures LexLess(Fixed(i, w), Fixed(j, w))
  {
    assert w > 0;
    if i / 10 < j / 10 {
      assert j / 10 < Pow10(w - 1);
      FixedOrdered(i / 10, j / 10, w - 1);
      LexLessEqualLengthAppend(Fixed(i / 10, w - 1), Fixed(j / 10, w - 1),
        [DigitChar(i % 10)], [DigitChar(j % 10)]);
    } else {
      assert i % 10 < j % 10;
      var p := Fixed(i / 10, w - 1);
      assert LexLess([DigitChar(i % 10)], [DigitChar(j % 10)]);
      LexLessCommonPrefix(p, [DigitChar(i % 10)], [DigitChar(j % 10)]);
    }
  }
}
