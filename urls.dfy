/**
  The part of `urllib.parse.urlparse` the downloader reads: the scheme and
  the network location, joined as `scheme://netloc` for the Origin header
  and for root-relative segment lines.
 */
module Urls {
  import opened Text

  predicate IsAsciiLetter(c: char) {
    ('a' <= c <= 'z') || ('A' <= c <= 'Z')
  }

  predicate IsSchemeChar(c: char) {
    IsAsciiLetter(c) || IsDigit(c) || c == '+' || c == '-' || c == '.'
  }

  /** Where the scheme's `:` is, when the text before the first `:` is a scheme. */
  function SchemeColon(url: string): (r: int)
    ensures r == -1 || (0 < r < |url| && url[r] == ':')
    ensures r > 0 ==> IsAsciiLetter(url[0]) && forall i :: 0 <= i < r ==> IsSchemeChar(url[i])
  {
    var i := IndexOf(url, ':');
    if i > 0 && IsAsciiLetter(url[0]) && Span(url, 0, IsSchemeChar) >= i then i else -1
  }

  /** The URL's scheme, lower-cased; empty when it has none. */
  function Scheme(url: string): (r: string)
    ensures forall i :: 0 <= i < |r| ==> !('A' <= r[i] <= 'Z')
  {
    var i := SchemeColon(url);
    if i > 0 then Lower(url[..i]) else ""
  }

  /** What follows the scheme's `:`, or the whole URL when there is no scheme. */
  function Rest(url: string): (r: string)
    ensures |r| <= |url|
  {
    var i := SchemeColon(url);
    if i > 0 then url[i + 1..] else url
  }

  predicate EndsNetloc(c: char) {
    c == '/' || c == '?' || c == '#'
  }

  predicate NotEndsNetloc(c: char) {
    !EndsNetloc(c)
  }

  /** The network location: after `//`, up to the first `/`, `?` or `#`; empty without `//`. */
  function Netloc(url: string): (r: string)
    ensures forall i :: 0 <= i < |r| ==> !EndsNetloc(r[i])
  {
    var rest := Rest(url);
    if StartsWith(rest, "//") then
      var n := Span(rest, 2, NotEndsNetloc);
      rest[2..2 + n]
    else ""
  }

  /** `f"{parsed.scheme}://{parsed.netloc}"`. */
  function Origin(url: string): string {
    Scheme(url) + "://" + Netloc(url)
  }

  /**
    The origin of a URL made of a scheme ending at `k`, then `://`, then a
    host of `n` characters, then a path, query, fragment or nothing, is the
    lower-cased scheme, `://` and the host: what follows the host never changes it.
   */
  lemma OriginAt(u: string, k: nat, n: nat)
    requires 1 <= k && k + 3 + n <= |u| && IsAsciiLetter(u[0])
    requires forall i :: 0 <= i < k ==> IsSchemeChar(u[i])
    requires u[k..k + 3] == "://"
    requires forall i :: k + 3 <= i < k + 3 + n ==> !EndsNetloc(u[i])
    requires k + 3 + n == |u| || EndsNetloc(u[k + 3 + n])
    ensures Origin(u) == Lower(u[..k]) + "://" + u[k + 3..k + 3 + n]
  {
    assert u[k] == ':' by { assert u[k] == u[k..k + 3][0]; }
    SchemeOf(u, k);
    NetlocAt(u, k, n);
  }

  /** The origin of `https://host/rest` is `https://host`. */
  lemma HttpsOrigin(host: string, rest: string)
    requires forall i :: 0 <= i < |host| ==> !EndsNetloc(host[i])
    ensures Origin("https://" + host + "/" + rest) == "https://" + host
  {
    var u := "https://" + host + "/" + rest;
    HttpsPrefix(u, host, rest);
    HttpsOriginOf(u, |host|);
  }

  /** A URL opening with `https://` and a host of `n` characters ended by `/` has that origin. */
  lemma HttpsOriginOf(u: string, n: nat)
    requires 8 + n < |u| && u[..5] == "https" && u[5..8] == "://" && IsAsciiLetter(u[0])
    requires forall i :: 0 <= i < 5 ==> IsSchemeChar(u[i])
    requires forall i :: 8 <= i < 8 + n ==> !EndsNetloc(u[i])
    requires u[8 + n] == '/'
    ensures Origin(u) == "https://" + u[8..8 + n]
  {
    OriginAt(u, 5, n);
    HttpsLower();
    HttpsJoin(u[8..8 + n]);
  }

  lemma HttpsJoin(host: string)
    ensures "https" + "://" + host == "https://" + host
  {
    assert "https" + "://" == "https://";
  }

  lemma HttpsPrefix(u: string, host: string, rest: string)
    requires u == "https://" + host + "/" + rest
    requires forall i :: 0 <= i < |host| ==> !EndsNetloc(host[i])
    ensures u[..5] == "https" && u[5..8] == "://" && u[8..8 + |host|] == host && IsAsciiLetter(u[0])
    ensures forall i :: 0 <= i < 5 ==> IsSchemeChar(u[i])
    ensures forall i :: 8 <= i < 8 + |host| ==> !EndsNetloc(u[i])
    ensures u[8 + |host|] == '/'
  {
    forall i | 8 <= i < 8 + |host| ensures u[i] == host[i - 8] { }
  }

  lemma HttpsLower()
    ensures Lower("https") == "https"
  {
    var l := Lower("https");
    assert l[0] == 'h' && l[1] == 't' && l[2] == 't' && l[3] == 'p' && l[4] == 's';
  }

  /** Past the scheme's `:`, `//` and a host of `n` characters: the netloc is the host. */
  lemma NetlocAt(u: string, k: nat, n: nat)
    requires 1 <= k && k + 3 + n <= |u| && u[k..k + 3] == "://" && Rest(u) == u[k + 1..]
    requires forall i :: k + 3 <= i < k + 3 + n ==> !EndsNetloc(u[i])
    requires k + 3 + n == |u| || EndsNetloc(u[k + 3 + n])
    ensures Netloc(u) == u[k + 3..k + 3 + n]
  {
    var rest := u[k + 1..];
    assert rest[0] == '/' && rest[1] == '/' by {
      assert rest[0] == u[k + 1] == u[k..k + 3][1];
      assert rest[1] == u[k + 2] == u[k..k + 3][2];
    }
    forall i | 2 <= i < 2 + n ensures NotEndsNetloc(rest[i]) {
      assert rest[i] == u[k + 1 + i];
    }
    if k + 3 + n < |u| { assert rest[2 + n] == u[k + 3 + n]; }
    NetlocOfRest(u, rest, n);
    var host := rest[2..2 + n];
    forall i | 0 <= i < n ensures host[i] == u[k + 3 + i] {
      assert host[i] == rest[2 + i];
    }
    assert host == u[k + 3..k + 3 + n];
  }

  /** After `//`, the netloc is the run of `n` characters up to the first `/`, `?` or `#`. */
  lemma NetlocOfRest(u: string, rest: string, n: nat)
    requires Rest(u) == rest && |rest| >= 2 && rest[0] == '/' && rest[1] == '/'
    requires 2 + n <= |rest| && forall i :: 2 <= i < 2 + n ==> NotEndsNetloc(rest[i])
    requires 2 + n == |rest| || EndsNetloc(rest[2 + n])
    ensures Netloc(u) == rest[2..2 + n]
  {
    assert StartsWith(rest, "//") by { assert rest[..2] == "//"; }
    SpanNetloc(rest, 2, n);
  }

  /** A scheme followed by `:` is split off at that colon. */
  lemma SchemeOf(u: string, k: nat)
    requires 1 <= k < |u| && u[k] == ':' && IsAsciiLetter(u[0])
    requires forall i :: 0 <= i < k ==> IsSchemeChar(u[i])
    ensures Scheme(u) == Lower(u[..k]) && Rest(u) == u[k + 1..]
  {
    forall i | 0 <= i < k ensures u[i] != ':' {
      assert IsSchemeChar(u[i]);
    }
    assert IndexOf(u, ':') == k;
    SpanSchemeAtLeast(u, 0, k);
  }

  lemma SpanSchemeAtLeast(s: string, i: nat, n: nat)
    requires i + n <= |s|
    requires forall k :: i <= k < i + n ==> IsSchemeChar(s[k])
    ensures Span(s, i, IsSchemeChar) >= n
    decreases n
  {
    if n > 0 { SpanSchemeAtLeast(s, i + 1, n - 1); }
  }

  lemma SpanNetloc(s: string, i: nat, n: nat)
    requires i + n <= |s|
    requires forall k :: i <= k < i + n ==> NotEndsNetloc(s[k])
    requires i + n < |s| ==> EndsNetloc(s[i + n])
    ensures Span(s, i, NotEndsNetloc) == n
    decreases n
  {
    if n > 0 { SpanNetloc(s, i + 1, n - 1); }
  }
}
