/**
  The player-page URL: the downloader's `validate_url`, the id extraction of
  `extract_video_info`, its fallback title, and the data id taken from the
  frame URL's `url=` query parameter.
 */
module PlayerUrl {
  import opened Wrappers
  import opened Text

  /** Everything the pattern `https://linkkf\.live/player/v\d+-sub-\d+` fixes before the first digit. */
  const PlayerPrefix: string := "https://linkkf.live/player/v"

  /**
    `s` is the prefix, then `m` digits, then `-sub-`, then `n` digits that are
    not followed by another digit: the greedy match of
    `https://linkkf\.live/player/v\d{m}-sub-\d{n}` at the start of `s`.
   */
  predicate StemShape(s: string, m: nat, n: nat) {
    var a := |PlayerPrefix|;
    && 1 <= m && 1 <= n
    && a + m + 5 + n <= |s|
    && StartsWith(s, PlayerPrefix)
    && (forall k :: a <= k < a + m ==> IsDigit(s[k]))
    && s[a + m..a + m + 5] == "-sub-"
    && (forall k :: a + m + 5 <= k < a + m + 5 + n ==> IsDigit(s[k]))
    && (a + m + 5 + n == |s| || !IsDigit(s[a + m + 5 + n]))
  }

  /**
    Where a `re.match` of `https://linkkf\.live/player/v\d+-sub-\d+` at the
    start of `s` ends, if it matches. Both digit runs are taken greedily; no
    shorter run could be followed by `-` or end the match differently.
   */
  function StemEnd(s: string): (r: Option<nat>)
    ensures r.Some? ==> r.value <= |s|
  {
    var a := |PlayerPrefix|;
    if !StartsWith(s, PlayerPrefix) then None
    else
      var m := Span(s, a, IsDigit);
      if m == 0 || !OccursAt(s, "-sub-", a + m) then None
      else
        var n := Span(s, a + m + 5, IsDigit);
        if n == 0 then None else Some(a + m + 5 + n)
  }

  /** The downloader's `validate_url`: the stem followed by `/`; anything may come after. */
  predicate ValidateUrl(url: string) {
    var e := StemEnd(url);
    e.Some? && e.value < |url| && url[e.value] == '/'
  }

  /** The stem matcher finds a match exactly when the string has the stem shape, and says where it ends. */
  lemma StemEndShape(s: string)
    ensures StemEnd(s).Some? <==> exists m: nat, n: nat :: StemShape(s, m, n)
    ensures forall m: nat, n: nat :: StemShape(s, m, n) ==> StemEnd(s) == Some(|PlayerPrefix| + m + 5 + n)
  {
    forall m: nat, n: nat | StemShape(s, m, n) ensures StemEnd(s) == Some(|PlayerPrefix| + m + 5 + n) {
      StemEndOfShape(s, m, n);
    }
    if StemEnd(s).Some? {
      var m, n := ShapeOfStemEnd(s);
    }
  }

  lemma StemEndOfShape(s: string, m: nat, n: nat)
    requires StemShape(s, m, n)
    ensures StemEnd(s) == Some(|PlayerPrefix| + m + 5 + n)
  {
    var a := |PlayerPrefix|;
    assert s[a + m..a + m + 5][0] == s[a + m] == '-';
    SpanIs(s, a, m);
    assert OccursAt(s, "-sub-", a + m);
    SpanIsBounded(s, a + m + 5, n);
  }

  lemma ShapeOfStemEnd(s: string) returns (m: nat, n: nat)
    requires StemEnd(s).Some?
    ensures StemShape(s, m, n) && StemEnd(s) == Some(|PlayerPrefix| + m + 5 + n)
  {
    var a := |PlayerPrefix|;
    m := Span(s, a, IsDigit);
    n := Span(s, a + m + 5, IsDigit);
  }

  /** A run of `m` characters of `IsDigit` followed by a non-digit is the span. */
  lemma SpanIs(s: string, i: nat, m: nat)
    requires i + m < |s|
    requires forall k :: i <= k < i + m ==> IsDigit(s[k])
    requires !IsDigit(s[i + m])
    ensures Span(s, i, IsDigit) == m
    decreases m
  {
    if m > 0 { SpanIs(s, i + 1, m - 1); }
  }

  /** A run of `n` digits that is followed by a non-digit or the end of `s`, when the match needs no more. */
  lemma SpanIsBounded(s: string, i: nat, n: nat)
    requires i + n <= |s|
    requires forall k :: i <= k < i + n ==> IsDigit(s[k])
    requires i + n < |s| ==> !IsDigit(s[i + n])
    ensures Span(s, i, IsDigit) == n
    decreases n
  {
    if n > 0 { SpanIsBounded(s, i + 1, n - 1); }
  }

  /**
    `validate_url` holds exactly when the URL starts with
    `https://linkkf.live/player/v`, at least one digit, `-sub-`, at least one
    digit and `/`; what follows the slash is never looked at.
   */
  lemma ValidateUrlIff(url: string)
    ensures ValidateUrl(url) <==>
      exists m: nat, n: nat :: StemShape(url, m, n) && |PlayerPrefix| + m + 5 + n < |url|
                     && url[|PlayerPrefix| + m + 5 + n] == '/'
  {
    StemEndShape(url);
  }

  /** Whatever follows the slash of a valid URL keeps it valid. */
  lemma ValidateUrlExtends(url: string, tail: string)
    requires ValidateUrl(url)
    ensures ValidateUrl(url + tail)
  {
    var m, n := ShapeOfStemEnd(url);
    var e := |PlayerPrefix| + m + 5 + n;
    var u := url + tail;
    assert u[..e + 1] == url[..e + 1];
    StemShapeSamePrefix(url, u, m, n);
    StemEndOfShape(u, m, n);
    assert u[e] == url[e];
  }

  /** The stem shape, with the character after it, depends only on that much of the string. */
  lemma StemShapeSamePrefix(s: string, t: string, m: nat, n: nat)
    requires StemShape(s, m, n)
    requires |PlayerPrefix| + m + 5 + n < |s| && |PlayerPrefix| + m + 5 + n < |t|
    requires s[..|PlayerPrefix| + m + 5 + n + 1] == t[..|PlayerPrefix| + m + 5 + n + 1]
    ensures StemShape(t, m, n)
  {
    var a := |PlayerPrefix|;
    var e := a + m + 5 + n;
    forall k | 0 <= k <= e ensures s[k] == t[k] {
      assert s[..e + 1][k] == s[k] && t[..e + 1][k] == t[k];
    }
    assert t[..a] == s[..a];
    assert t[a + m..a + m + 5] == s[a + m..a + m + 5];
  }

  /** The pair of digit strings of a `re.search` of `v(\d+)-sub-(\d+)` whose match starts at `i`. */
  function IdsAt(s: string, i: nat): (r: Option<(string, string)>)
    ensures r.Some? ==> |r.value.0| >= 1 && |r.value.1| >= 1
  {
    if i < |s| && s[i] == 'v' then
      var m := Span(s, i + 1, IsDigit);
      if m >= 1 && OccursAt(s, "-sub-", i + 1 + m) then
        var n := Span(s, i + 6 + m, IsDigit);
        if n >= 1 then Some((s[i + 1..i + 1 + m], s[i + 6 + m..i + 6 + m + n])) else None
      else None
    else None
  }

  /** `re.search(r'v(\d+)-sub-(\d+)', s)` from position `i` on: the leftmost match's two groups. */
  function SearchIdsFrom(s: string, i: nat): (r: Option<(string, string)>)
    decreases |s| - i
  {
    if i >= |s| then None
    else if IdsAt(s, i).Some? then IdsAt(s, i)
    else SearchIdsFrom(s, i + 1)
  }

  function SearchIds(s: string): Option<(string, string)> {
    SearchIdsFrom(s, 0)
  }

  /**
    On a URL that `validate_url` accepts the id search always succeeds, and it
    finds the two digit runs of the player path: so the "could not extract video
    ID" branch of `extract_video_info` is never taken.
   */
  lemma ValidUrlHasIds(url: string)
    requires ValidateUrl(url)
    ensures SearchIds(url).Some?
    ensures
      var a := |PlayerPrefix|;
      var m := Span(url, a, IsDigit);
      var n := Span(url, a + m + 5, IsDigit);
      SearchIds(url) == Some((url[a..a + m], url[a + m + 5..a + m + 5 + n]))
  {
    var a := |PlayerPrefix|;
    PrefixHasNoIds(url);
    SkipNoMatch(url, 0, a - 1);
    IdsAtStem(url);
  }

  /** No match of `v(\d+)-sub-(\d+)` starts inside the fixed prefix: its only other `v` is followed by `e`. */
  lemma PrefixHasNoIds(url: string)
    requires StartsWith(url, PlayerPrefix)
    ensures forall i :: 0 <= i < |PlayerPrefix| - 1 ==> IdsAt(url, i).None?
  {
    forall i | 0 <= i < |PlayerPrefix| - 1 ensures IdsAt(url, i).None? {
      assert url[i] == PlayerPrefix[i];
      if i == 17 { assert url[18] == PlayerPrefix[18] == 'e'; }
    }
  }

  /** The match at the prefix's final `v` has the two digit runs of the stem as its groups. */
  lemma IdsAtStem(url: string)
    requires ValidateUrl(url)
    ensures
      var a := |PlayerPrefix|;
      var m := Span(url, a, IsDigit);
      var n := Span(url, a + m + 5, IsDigit);
      IdsAt(url, a - 1) == Some((url[a..a + m], url[a + m + 5..a + m + 5 + n]))
  {
    assert url[|PlayerPrefix| - 1] == PlayerPrefix[|PlayerPrefix| - 1] == 'v';
  }

  lemma SkipNoMatch(s: string, i: nat, j: nat)
    requires i <= j < |s|
    requires forall k :: i <= k < j ==> IdsAt(s, k).None?
    ensures SearchIdsFrom(s, i) == SearchIdsFrom(s, j)
    decreases j - i
  {
    if i < j { SkipNoMatch(s, i + 1, j); }
  }

  /** The title used when the page has no title element: `video_{id}_{sub}`. */
  function FallbackTitle(videoId: string, subId: string): (t: string)
    ensures |t| == 7 + |videoId| + |subId|
    ensures StartsWith(t, "video_") && EndsWith(t, "_" + subId)
    ensures t[6..6 + |videoId|] == videoId
  {
    "video_" + videoId + "_" + subId
  }

  predicate NotAmp(c: char) {
    c != '&'
  }

  /** A match of `[?&]url=([^&]+)` that starts at `i`: its group. */
  function DataIdAt(s: string, i: nat): (r: Option<string>)
    ensures r.Some? ==> |r.value| >= 1 && '&' !in r.value
  {
    if i + 5 < |s| && (s[i] == '?' || s[i] == '&') && s[i + 1..i + 5] == "url=" && s[i + 5] != '&' then
      var n := Span(s, i + 5, NotAmp);
      Some(s[i + 5..i + 5 + n])
    else None
  }

  function DataIdFrom(s: string, i: nat): (r: Option<string>)
    ensures r.Some? ==> |r.value| >= 1 && '&' !in r.value
    decreases |s| - i
  {
    if i >= |s| then None
    else if DataIdAt(s, i).Some? then DataIdAt(s, i)
    else DataIdFrom(s, i + 1)
  }

  /** `re.search(r'[?&]url=([^&]+)', frameUrl).group(1)`, the player data id. */
  function DataId(frameUrl: string): Option<string> {
    DataIdFrom(frameUrl, 0)
  }

  /**
    The data id of a URL `p?url=v...` whose part before `?` has neither `?`
    nor `&`, whose value is non-empty and free of `&`, and whose rest is empty
    or starts another parameter, is `v`.
   */
  lemma DataIdOfQuery(p: string, v: string, rest: string)
    requires forall i :: 0 <= i < |p| ==> p[i] != '?' && p[i] != '&'
    requires |v| >= 1 && forall i :: 0 <= i < |v| ==> v[i] != '&'
    requires rest == "" || rest[0] == '&'
    ensures DataId(p + "?url=" + v + rest) == Some(v)
  {
    var s := p + "?url=" + v + rest;
    forall i | 0 <= i < |p| ensures DataIdAt(s, i).None? {
      assert s[i] == p[i];
    }
    assert s[|p|] == '?' && s[|p| + 1..|p| + 5] == "url=" && s[|p| + 5] == v[0];
    var j := |p| + 5;
    forall k | j <= k < j + |v| ensures NotAmp(s[k]) {
      assert s[k] == v[k - j];
    }
    SpanNotAmp(s, j, |v|);
    assert s[j..j + |v|] == v;
    SkipNoData(s, 0, |p|);
  }

  lemma SpanNotAmp(s: string, i: nat, n: nat)
    requires i + n <= |s|
    requires forall k :: i <= k < i + n ==> NotAmp(s[k])
    requires i + n < |s| ==> s[i + n] == '&'
    ensures Span(s, i, NotAmp) == n
    decreases n
  {
    if n > 0 { SpanNotAmp(s, i + 1, n - 1); }
  }

  lemma SkipNoData(s: string, i: nat, j: nat)
    requires i <= j < |s|
    requires forall k :: i <= k < j ==> DataIdAt(s, k).None?
    ensures DataIdFrom(s, i) == DataIdFrom(s, j)
    decreases j - i
  {
    if i < j { SkipNoData(s, i + 1, j); }
  }
}
