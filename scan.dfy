/**
  The two shapes of URL the page scripts are searched for with `re.findall`;
  only the first match is ever used, so each is the leftmost match.
 */
module Scan {
  import opened Wrappers
  import opened Text

  predicate IsQuote(c: char) {
    c == '"' || c == '\''
  }

  predicate NotQuote(c: char) {
    !IsQuote(c)
  }

  /**
    A match of `["']([^"']*M[^"']*)["']` that starts at `i`, where `marker`
    says whether the text between the quotes contains one of the alternatives
    `M`: the group is the text from an opening quote to the next quote
    character of either kind.
   */
  function QuotedAt(s: string, i: nat, marker: string -> bool): (r: Option<string>)
    ensures r.Some? ==> marker(r.value)
  {
    if i < |s| && IsQuote(s[i]) then
      var n := Span(s, i + 1, NotQuote);
      if i + 1 + n < |s| && marker(s[i + 1..i + 1 + n]) then Some(s[i + 1..i + 1 + n])
      else None
    else None
  }

  /** The first match from `i` on. */
  function QuotedFrom(s: string, i: nat, marker: string -> bool): (r: Option<string>)
    ensures r.Some? ==> marker(r.value)
    decreases |s| - i
  {
    if i >= |s| then None
    else if QuotedAt(s, i, marker).Some? then QuotedAt(s, i, marker)
    else QuotedFrom(s, i + 1, marker)
  }

  /** A quoted text the marker accepts is found, and nothing before its opening quote is. */
  lemma QuotedFromFinds(s: string, i: nat, marker: string -> bool)
    requires i < |s| && QuotedAt(s, i, marker).Some?
    requires forall j :: 0 <= j < i ==> QuotedAt(s, j, marker).None?
    ensures QuotedFrom(s, 0, marker) == QuotedAt(s, i, marker)
  {
    SkipQuoted(s, 0, i, marker);
  }

  lemma SkipQuoted(s: string, i: nat, j: nat, marker: string -> bool)
    requires i <= j < |s|
    requires forall k :: i <= k < j ==> QuotedAt(s, k, marker).None?
    ensures QuotedFrom(s, i, marker) == QuotedFrom(s, j, marker)
    decreases j - i
  {
    if i < j { SkipQuoted(s, i + 1, j, marker); }
  }

  predicate NotSpaceOrQuote(c: char) {
    !IsSpace(c) && !IsQuote(c)
  }

  predicate HasM3u8(t: string) {
    Contains(t, ".m3u8")
  }

  /**
    A match of `https?://[^\s"']+\.m3u8[^\s"']*` that starts at `i`: the
    scheme, then the run of characters other than whitespace and quotes,
    provided `.m3u8` occurs in that run after its first character. The
    trailing class takes the run to its end, so the match is all of it.
   */
  function BareAt(s: string, i: nat): (r: Option<string>)
    ensures r.Some? ==> HasM3u8(r.value)
  {
    var q := if OccursAt(s, "https://", i) then i + 8 else if OccursAt(s, "http://", i) then i + 7 else 0;
    if q == 0 then None
    else
      var n := Span(s, q, NotSpaceOrQuote);
      if n >= 1 && HasM3u8(s[q + 1..q + n]) then
        ContainsInContext(s[i..q + 1], s[q + 1..q + n], "", ".m3u8");
        assert s[i..q + 1] + s[q + 1..q + n] + "" == s[i..q + n];
        Some(s[i..q + n])
      else None
  }

  function BareFrom(s: string, i: nat): (r: Option<string>)
    ensures r.Some? ==> HasM3u8(r.value)
    decreases |s| - i
  {
    if i >= |s| then None
    else if BareAt(s, i).Some? then BareAt(s, i)
    else BareFrom(s, i + 1)
  }
}
