/**
  The file-name sanitiser applied to the page title: illegal characters
  become `_`, runs of `_` collapse, a trailing "Linkkf" and a trailing
  "-자막" go, apostrophes go, whitespace runs become one space, and the
  result is cut to 100 characters; `strip` runs between the steps.
 */
module TitleSanitizer {
  import opened Text

  /** The characters of the class `[<>:"/\\|?*]`. */
  predicate Illegal(c: char) {
    c == '<' || c == '>' || c == ':' || c == '"' || c == '/' || c == '\\' || c == '|' || c == '?' || c == '*'
  }

  predicate IsUnderscore(c: char) {
    c == '_'
  }

  /** Every character of `s` satisfies `p`. */
  predicate All(s: string, p: char -> bool) {
    forall i :: 0 <= i < |s| ==> p(s[i])
  }

  /** No two neighbouring characters of `s` both satisfy `p`. */
  predicate NoAdjacent(s: string, p: char -> bool) {
    forall i :: 0 <= i < |s| - 1 ==> !(p(s[i]) && p(s[i + 1]))
  }

  predicate Legal(c: char) {
    !Illegal(c)
  }

  predicate NotApostrophe(c: char) {
    c != '\''
  }

  /** `re.sub(r'[<>:"/\\|?*]', '_', s)`. */
  function ReplaceIllegal(s: string): (r: string)
    ensures |r| == |s|
    ensures forall i :: 0 <= i < |s| ==> r[i] == (if Illegal(s[i]) then '_' else s[i])
  {
    if |s| == 0 then "" else [if Illegal(s[0]) then '_' else s[0]] + ReplaceIllegal(s[1..])
  }

  /**
    `re.sub(p + '+', [c], s)` for a character class `p` containing `c`: each
    maximal run of characters of `p` becomes one `c`. What is left has no two
    neighbours in `p`, and every other character comes from `s`.
   */
  function Collapse(s: string, p: char -> bool, c: char): (r: string)
    requires p(c)
    ensures |r| <= |s|
    ensures NoAdjacent(r, p)
    ensures forall i :: 0 <= i < |r| ==> r[i] == c || (!p(r[i]) && r[i] in s)
    ensures r == [] <==> s == []
    ensures r != [] ==> (p(r[0]) <==> p(s[0]))
    decreases |s|
  {
    if |s| == 0 then ""
    else if p(s[0]) then
      var rest := Collapse(s[Span(s, 0, p)..], p, c);
      assert forall x :: x in s[Span(s, 0, p)..] ==> x in s;
      [c] + rest
    else
      var rest := Collapse(s[1..], p, c);
      assert forall x :: x in s[1..] ==> x in s;
      [s[0]] + rest
  }

  /** Collapsing twice is collapsing once. */
  lemma {:induction false} CollapseIdempotent(s: string, p: char -> bool, c: char)
    requires p(c)
    ensures Collapse(Collapse(s, p, c), p, c) == Collapse(s, p, c)
    decreases |s|
  {
    var r := Collapse(s, p, c);
    if |s| > 0 {
      if p(s[0]) {
        var rest := Collapse(s[Span(s, 0, p)..], p, c);
        assert r == [c] + rest;
        assert rest == [] || !p(rest[0]);
        assert Span(r, 0, p) == 1 by {
          if |r| > 1 { assert r[1] == rest[0]; }
        }
        assert r[1..] == rest;
        CollapseIdempotent(s[Span(s, 0, p)..], p, c);
      } else {
        var rest := Collapse(s[1..], p, c);
        assert r[1..] == rest;
        CollapseIdempotent(s[1..], p, c);
      }
    }
  }

  /** A run of characters of `p` collapses to the single `c`. */
  lemma {:induction false} CollapseRun(s: string, p: char -> bool, c: char)
    requires p(c) && |s| > 0 && All(s, p)
    ensures Collapse(s, p, c) == [c]
  {
    SpanExact(s, 0, |s|, p);
    assert s[|s|..] == [];
  }

  /** A text opening with a run of `k` class characters collapses to `c` followed by the rest collapsed. */
  lemma CollapseLeadingRun(s: string, k: nat, p: char -> bool, c: char)
    requires p(c) && 0 < k <= |s| && Span(s, 0, p) == k
    ensures Collapse(s, p, c) == [c] + Collapse(s[k..], p, c)
  {
  }

  /** The opening run of `a` is also the opening run of `a + [x] + b` when `x` is outside the class. */
  lemma SpanBeforeStop(a: string, x: char, b: string, p: char -> bool)
    requires !p(x) && |a| > 0
    ensures Span(a + [x] + b, 0, p) == Span(a, 0, p)
    ensures (a + [x] + b)[Span(a, 0, p)..] == a[Span(a, 0, p)..] + [x] + b
  {
    var t := a + [x] + b;
    var k := Span(a, 0, p);
    forall j | 0 <= j < k ensures p(t[j]) { assert t[j] == a[j]; }
    assert k == |a| ==> t[k] == x;
    assert k < |a| ==> t[k] == a[k];
    SpanExact(t, 0, k, p);
    assert t[k..] == a[k..] + [x] + b;
  }

  /**
    A character outside the class is kept where it is: collapsing on either
    side of it is independent, so every non-run character of `s` survives, in order.
   */
  lemma {:induction false} CollapseAround(a: string, x: char, b: string, p: char -> bool, c: char)
    requires p(c) && !p(x)
    ensures Collapse(a + [x] + b, p, c) == Collapse(a, p, c) + [x] + Collapse(b, p, c)
    decreases |a|
  {
    var t := a + [x] + b;
    if |a| == 0 {
      assert t == [x] + b && t[1..] == b;
    } else if p(a[0]) {
      var k := Span(a, 0, p);
      SpanBeforeStop(a, x, b, p);
      CollapseLeadingRun(t, k, p, c);
      CollapseLeadingRun(a, k, p, c);
      CollapseAround(a[k..], x, b, p, c);
    } else {
      assert t[0] == a[0];
      assert t[1..] == a[1..] + [x] + b;
      CollapseAround(a[1..], x, b, p, c);
    }
  }

  /** A text with no two neighbours in the class, whose class characters are all `c`, is left as it is. */
  lemma {:induction false} CollapseUnchanged(s: string, p: char -> bool, c: char)
    requires p(c) && NoAdjacent(s, p)
    requires forall i :: 0 <= i < |s| && p(s[i]) ==> s[i] == c
    ensures Collapse(s, p, c) == s
    decreases |s|
  {
    if |s| > 0 {
      var rest := s[1..];
      assert NoAdjacent(rest, p) by {
        forall i | 0 <= i < |rest| - 1 ensures !(p(rest[i]) && p(rest[i + 1])) {
          assert rest[i] == s[i + 1] && rest[i + 1] == s[i + 2];
        }
      }
      forall i | 0 <= i < |rest| && p(rest[i]) ensures rest[i] == c { assert rest[i] == s[i + 1]; }
      if p(s[0]) {
        assert |s| > 1 ==> !p(s[1]);
        SpanExact(s, 0, 1, p);
      }
      CollapseUnchanged(rest, p, c);
      assert s == [s[0]] + rest;
    }
  }

  /** `re.sub(r"[']", '', s)`. */
  function RemoveApostrophes(s: string): (r: string)
    ensures |r| <= |s|
    ensures All(r, NotApostrophe)
    ensures forall i :: 0 <= i < |r| ==> r[i] in s
    ensures All(s, NotApostrophe) ==> r == s
  {
    if |s| == 0 then ""
    else
      var rest := RemoveApostrophes(s[1..]);
      assert forall x :: x in s[1..] ==> x in s;
      if s[0] == '\'' then rest else [s[0]] + rest
  }

  /** Removing apostrophes from a concatenation removes them from each part. */
  lemma {:induction false} RemoveApostrophesAppend(a: string, b: string)
    ensures RemoveApostrophes(a + b) == RemoveApostrophes(a) + RemoveApostrophes(b)
    decreases |a|
  {
    if |a| > 0 {
      assert (a + b)[0] == a[0] && (a + b)[1..] == a[1..] + b;
      RemoveApostrophesAppend(a[1..], b);
    } else {
      assert a + b == b;
    }
  }

  /** A lone apostrophe goes and any other character stays: with the append rule, the result is `s` with its apostrophes taken out. */
  lemma RemoveApostrophesChar(x: char)
    ensures RemoveApostrophes([x]) == if x == '\'' then [] else [x]
  {
    assert [x][1..] == [];
  }

  /**
    `re.sub(r'\s*Linkkf\s*$', '', s, flags=re.IGNORECASE)`: when the last
    word before the trailing whitespace is "linkkf" in any case, it goes
    together with all whitespace around it. The `$` that also matches before a
    final newline makes no difference, since `\s*` takes that newline too.
   */
  function DropLinkkf(s: string): (r: string)
    ensures |r| <= |s| && r == s[..|r|]
  {
    var k := |s| - SpanBack(s, |s|, IsSpace);
    if k >= 6 && Lower(s[k - 6..k]) == "linkkf" then
      s[..k - 6 - SpanBack(s, k - 6, IsSpace)]
    else s
  }

  /**
    A title that ends, after whitespace, in "linkkf" in any case and then
    more whitespace loses all of that and keeps the rest, when the rest does
    not itself end in whitespace.
   */
  lemma DropLinkkfRemoves(s: string, w1: string, word: string, w2: string)
    requires All(w1, IsSpace) && All(w2, IsSpace)
    requires |word| == 6 && Lower(word) == "linkkf"
    requires s == [] || !IsSpace(s[|s| - 1])
    ensures DropLinkkf(s + w1 + word + w2) == s
  {
    LinkkfTail(s + w1, word, w2);
    LinkkfHead(s, w1, word, w2);
    DropLinkkfAt(s + w1 + word + w2, |w2|, |w1|, |s|);
  }

  /**
    A title that does not end, before its trailing whitespace, in "linkkf"
    in any case is returned unchanged, trailing whitespace included.
   */
  lemma DropLinkkfKeeps(s: string, w: string)
    requires All(w, IsSpace)
    requires s == [] || !IsSpace(s[|s| - 1])
    requires |s| < 6 || Lower(s[|s| - 6..]) != "linkkf"
    ensures DropLinkkf(s + w) == s + w
  {
    TrailingRun(s, w);
    assert (s + w)[..|s|] == s;
  }

  lemma LinkkfTail(a: string, word: string, w2: string)
    requires All(w2, IsSpace) && |word| == 6 && Lower(word) == "linkkf"
    ensures SpanBack(a + word + w2, |a + word + w2|, IsSpace) == |w2|
    ensures Lower((a + word + w2)[|a|..|a| + 6]) == "linkkf"
  {
    assert ToLower(word[5]) == 'f';
    TrailingRun(a + word, w2);
    assert (a + word + w2)[|a|..|a| + 6] == word;
  }

  lemma LinkkfHead(s: string, w1: string, word: string, w2: string)
    requires All(w1, IsSpace) && (s == [] || !IsSpace(s[|s| - 1]))
    ensures SpanBack(s + w1 + word + w2, |s| + |w1|, IsSpace) == |w1|
    ensures (s + w1 + word + w2)[..|s|] == s
  {
    TrailingRun(s, w1);
    SameBefore(s + w1, word, |s| + |w1|);
    SameBefore(s + w1 + word, w2, |s| + |w1|);
    assert (s + w1 + word + w2)[..|s|] == s;
  }

  /** The backward whitespace run at the end of `a + w` is `w` when `a` does not end in whitespace. */
  lemma TrailingRun(a: string, w: string)
    requires All(w, IsSpace) && (a == [] || !IsSpace(a[|a| - 1]))
    ensures SpanBack(a + w, |a + w|, IsSpace) == |w|
  {
    var t := a + w;
    forall i | |a| <= i < |t| ensures IsSpace(t[i]) { assert t[i] == w[i - |a|]; }
    if |a| > 0 { assert t[|a| - 1] == a[|a| - 1]; }
    SpanBackIs(t, |t|, |w|, IsSpace);
  }

  /** A backward span up to `j` only looks at the text before `j`. */
  lemma {:induction false} SameBefore(a: string, b: string, j: nat)
    requires j <= |a|
    ensures SpanBack(a + b, j, IsSpace) == SpanBack(a, j, IsSpace)
    decreases j
  {
    if j > 0 {
      assert (a + b)[j - 1] == a[j - 1];
      SameBefore(a, b, j - 1);
    }
  }

  lemma DropLinkkfAt(t: string, n2: nat, n1: nat, m: nat)
    requires m + n1 + 6 + n2 == |t|
    requires SpanBack(t, |t|, IsSpace) == n2
    requires Lower(t[m + n1..m + n1 + 6]) == "linkkf"
    requires SpanBack(t, m + n1, IsSpace) == n1
    ensures DropLinkkf(t) == t[..m]
  {
  }

  /**
    `re.sub(r'-자막$', '', s)` on an already stripped `s`: a trailing "-자막"
    goes. A stripped text has no final newline, so `$` means the end.
   */
  function DropSubtitleMark(s: string): (r: string)
    ensures |r| <= |s| && r == s[..|r|]
    ensures EndsWith(s, "-자막") ==> |r| == |s| - 3
    ensures !EndsWith(s, "-자막") ==> r == s
  {
    assert |"-자막"| == 3;
    if EndsWith(s, "-자막") then s[..|s| - 3] else s
  }

  /** `s[:n]`. */
  function Truncate(s: string, n: nat): (r: string)
    ensures |r| <= n && |r| <= |s| && r == s[..|r|]
    ensures |s| <= n ==> r == s
    ensures |s| > n ==> |r| == n
  {
    if |s| <= n then s else s[..n]
  }

  /** The sanitised title used as the output file name. */
  function SafeTitle(title: string): string {
    Finish(Trimmed(title))
  }

  /** The steps up to the second `strip`: illegal characters, underscores and the two suffixes. */
  function Trimmed(title: string): string {
    var a := ReplaceIllegal(title);
    var b := StripBy(Collapse(a, IsUnderscore, '_'), IsUnderscore);
    var c := Strip(DropLinkkf(b));
    Strip(DropSubtitleMark(c))
  }

  /** The remaining steps: apostrophes, whitespace runs, the length cut and the last `strip`. */
  function Finish(d: string): string {
    var e := Collapse(RemoveApostrophes(d), IsSpace, ' ');
    Strip(Truncate(e, 100))
  }

  /** A piece of a text keeps every per-character property and every no-neighbours property of it. */
  lemma SliceKeeps(s: string, lo: nat, hi: nat, p: char -> bool, q: char -> bool)
    requires lo <= hi <= |s|
    requires All(s, p) && NoAdjacent(s, q)
    ensures All(s[lo..hi], p) && NoAdjacent(s[lo..hi], q)
  {
    forall i | 0 <= i < hi - lo ensures p(s[lo..hi][i]) { assert s[lo..hi][i] == s[lo + i]; }
    forall i | 0 <= i < hi - lo - 1 ensures !(q(s[lo..hi][i]) && q(s[lo..hi][i + 1])) {
      assert s[lo..hi][i] == s[lo + i] && s[lo..hi][i + 1] == s[lo + i + 1];
    }
  }

  /** The empty class, for which `NoAdjacent` always holds. */
  predicate Never(c: char) {
    false
  }

  lemma StripKeeps(s: string, cut: char -> bool, p: char -> bool, q: char -> bool)
    requires All(s, p) && NoAdjacent(s, q)
    ensures All(StripBy(s, cut), p) && NoAdjacent(StripBy(s, cut), q)
  {
    var lo, hi := StripByShape(s, cut);
    SliceKeeps(s, lo, hi, p, q);
  }

  lemma PrefixKeeps(s: string, r: string, p: char -> bool)
    requires |r| <= |s| && r == s[..|r|] && All(s, p)
    ensures All(r, p)
  {
    forall i | 0 <= i < |r| ensures p(r[i]) { assert r[i] == s[i]; }
  }

  predicate Safe(c: char) {
    !Illegal(c) && c != '\''
  }

  /**
    The sanitised title has none of `< > : " / \ | ? *` and no apostrophe, no
    two whitespace characters in a row, no whitespace at either end, and at
    most 100 characters.
   */
  lemma SafeTitleIsSafe(title: string)
    ensures var t := SafeTitle(title);
      && All(t, Safe)
      && NoAdjacent(t, IsSpace)
      && (t == [] || (!IsSpace(t[0]) && !IsSpace(t[|t| - 1])))
      && |t| <= 100
  {
    TrimmedIsLegal(title);
    FinishIsSafe(Trimmed(title));
  }

  lemma TrimmedIsLegal(title: string)
    ensures All(Trimmed(title), Legal)
  {
    var a := ReplaceIllegal(title);
    assert All(a, Legal);
    var b := StripBy(Collapse(a, IsUnderscore, '_'), IsUnderscore);
    UnderscoresKeepLegal(a);
    SuffixesKeepLegal(b);
  }

  lemma UnderscoresKeepLegal(a: string)
    requires All(a, Legal)
    ensures All(StripBy(Collapse(a, IsUnderscore, '_'), IsUnderscore), Legal)
  {
    var a2 := Collapse(a, IsUnderscore, '_');
    assert All(a2, Legal) by {
      forall i | 0 <= i < |a2| ensures Legal(a2[i]) {
        if a2[i] != '_' {
          assert a2[i] in a;
        }
      }
    }
    StripKeeps(a2, IsUnderscore, Legal, Never);
  }

  lemma SuffixesKeepLegal(b: string)
    requires All(b, Legal)
    ensures All(Strip(DropSubtitleMark(Strip(DropLinkkf(b)))), Legal)
  {
    var b2 := DropLinkkf(b);
    PrefixKeeps(b, b2, Legal);
    var c := Strip(b2);
    StripKeeps(b2, IsSpace, Legal, Never);
    var c2 := DropSubtitleMark(c);
    PrefixKeeps(c, c2, Legal);
    StripKeeps(c2, IsSpace, Legal, Never);
  }

  lemma FinishIsSafe(d: string)
    requires All(d, Legal)
    ensures var t := Finish(d);
      && All(t, Safe)
      && NoAdjacent(t, IsSpace)
      && (t == [] || (!IsSpace(t[0]) && !IsSpace(t[|t| - 1])))
      && |t| <= 100
  {
    var e := Collapse(RemoveApostrophes(d), IsSpace, ' ');
    CollapsedIsSafe(d);
    TruncateKeeps(e, 100);
    StripIsSafe(Truncate(e, 100));
  }

  /** Truncating keeps every per-character property and the absence of adjacent spaces. */
  lemma TruncateKeeps(e: string, n: nat)
    requires All(e, Safe) && NoAdjacent(e, IsSpace)
    ensures var f := Truncate(e, n); All(f, Safe) && NoAdjacent(f, IsSpace) && |f| <= n
  {
    var f := Truncate(e, n);
    assert f == e[0..|f|];
    SliceKeeps(e, 0, |f|, Safe, IsSpace);
  }

  /** Stripping a safe text without adjacent spaces leaves no space at either end. */
  lemma StripIsSafe(f: string)
    requires All(f, Safe) && NoAdjacent(f, IsSpace)
    ensures var t := Strip(f);
      && All(t, Safe)
      && NoAdjacent(t, IsSpace)
      && (t == [] || (!IsSpace(t[0]) && !IsSpace(t[|t| - 1])))
      && |t| <= |f|
  {
    StripKeeps(f, IsSpace, Safe, IsSpace);
    var t := Strip(f);
    var lo, hi := StripByShape(f, IsSpace);
    if lo < hi {
      assert t[0] == f[lo] && t[|t| - 1] == f[hi - 1];
    }
  }

  /** Removing apostrophes from a legal string and collapsing its spaces leaves only safe characters. */
  lemma CollapsedIsSafe(d: string)
    requires All(d, Legal)
    ensures var e := Collapse(RemoveApostrophes(d), IsSpace, ' ');
      All(e, Safe) && NoAdjacent(e, IsSpace)
  {
    var d2 := RemoveApostrophes(d);
    assert All(d2, Safe) by {
      forall i | 0 <= i < |d2| ensures Safe(d2[i]) { assert d2[i] in d; }
    }
    var e := Collapse(d2, IsSpace, ' ');
    assert All(e, Safe) by {
      forall i | 0 <= i < |e| ensures Safe(e[i]) {
        if e[i] != ' ' { assert e[i] in d2; }
      }
    }
  }
}
