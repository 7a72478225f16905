/**
  Getting the playlist text in `download_m3u8_segments_advanced`: the request
  headers, the classification of a response body, and the order of attempts
  (five browser profiles, then four country bypasses), stopping at the first
  body that is a playlist.
 */
module ManifestFetch {
  import opened Wrappers
  import opened Text
  import opened Http
  import opened Urls
  import Seqs

  datatype Profile = Profile(name: string, userAgent: string, acceptLanguage: string)

  /** The five browser profiles, in the order they are tried. */
  const BrowserProfiles: seq<Profile> := [
    Profile("Chrome Windows",
      "Mozilla/5.0 (Windows NT 10.0; Win64; x64) AppleWebKit/537.36 (KHTML, like Gecko) Chrome/131.0.0.0 Safari/537.36",
      "ko-KR,ko;q=0.9,en;q=0.8"),
    Profile("Firefox Windows",
      "Mozilla/5.0 (Windows NT 10.0; Win64; x64; rv:133.0) Gecko/20100101 Firefox/133.0",
      "ko-KR,ko;q=0.8,en-US;q=0.5,en;q=0.3"),
    Profile("Safari macOS",
      "Mozilla/5.0 (Macintosh; Intel Mac OS X 10_15_7) AppleWebKit/605.1.15 (KHTML, like Gecko) Version/17.0 Safari/605.1.15",
      "ko-KR,ko;q=0.9,en;q=0.8"),
    Profile("VLC Player",
      "VLC media player - version 3.0.18 Vetinari - (c) 1996-2022 the VideoLAN team",
      "ko-KR,ko;q=0.9,en;q=0.8"),
    Profile("FFmpeg", "Lavf/58.76.100", "ko-KR,ko;q=0.9,en;q=0.8")
  ]

  /** The bypass countries, in the order they are tried. */
  const Countries: seq<string> := ["KR", "US", "JP", "SG"]

  /** The request header names the downloader sets. */
  datatype HeaderName =
    | UserAgent | Accept | AcceptLanguage | AcceptEncoding | Dnt | Connection
    | SecFetchDest | SecFetchMode | SecFetchSite | CacheControl | Pragma
    | Referer | Origin | CfIpCountry | XForwardedFor | CfRay | XRequestId

  /** The header's name on the wire. */
  function WireName(h: HeaderName): string {
    match h
    case UserAgent => "User-Agent"
    case Accept => "Accept"
    case AcceptLanguage => "Accept-Language"
    case AcceptEncoding => "Accept-Encoding"
    case Dnt => "DNT"
    case Connection => "Connection"
    case SecFetchDest => "Sec-Fetch-Dest"
    case SecFetchMode => "Sec-Fetch-Mode"
    case SecFetchSite => "Sec-Fetch-Site"
    case CacheControl => "Cache-Control"
    case Pragma => "Pragma"
    case Referer => "Referer"
    case Origin => "Origin"
    case CfIpCountry => "CF-IPCountry"
    case XForwardedFor => "X-Forwarded-For"
    case CfRay => "CF-RAY"
    case XRequestId => "X-Request-ID"
  }

  type Headers = map<HeaderName, string>

  /** The eleven headers every request carries, whatever the profile. */
  const FixedHeaders: set<HeaderName> :=
    {UserAgent, Accept, AcceptLanguage, AcceptEncoding, Dnt, Connection,
     SecFetchDest, SecFetchMode, SecFetchSite, CacheControl, Pragma}

  /** The fixed part of `get_advanced_headers`: eleven browser headers, two of them from the profile. */
  function BaseHeaders(profile: Profile): Headers {
    map[
      UserAgent := profile.userAgent,
      Accept := "*/*",
      AcceptLanguage := profile.acceptLanguage,
      AcceptEncoding := "gzip, deflate, br",
      Dnt := "1",
      Connection := "keep-alive",
      SecFetchDest := "empty",
      SecFetchMode := "cors",
      SecFetchSite := "cross-site",
      CacheControl := "no-cache",
      Pragma := "no-cache"]
  }

  /** The base headers are exactly the eleven fixed names, two of them taken from the profile. */
  lemma BaseHeadersFields(profile: Profile)
    ensures BaseHeaders(profile).Keys == FixedHeaders
    ensures BaseHeaders(profile)[UserAgent] == profile.userAgent
    ensures BaseHeaders(profile)[AcceptLanguage] == profile.acceptLanguage
  {
  }

  /** `get_advanced_headers`: the fixed headers, a Referer when one is given, and the Origin. */
  function AdvancedHeaders(profile: Profile, referer: Option<string>, m3u8Url: string): Headers {
    var base := BaseHeaders(profile);
    var withReferer := if Truthy(referer) then base[Referer := referer.value] else base;
    withReferer[Origin := Urls.Origin(m3u8Url)]
  }

  /** The profile's two headers, a Referer exactly when one is given, and the manifest's origin. */
  lemma AdvancedHeadersFields(profile: Profile, referer: Option<string>, m3u8Url: string)
    ensures var h := AdvancedHeaders(profile, referer, m3u8Url);
      UserAgent in h && AcceptLanguage in h && Origin in h && (Referer in h <==> Truthy(referer)) &&
      h[UserAgent] == profile.userAgent && h[AcceptLanguage] == profile.acceptLanguage &&
      (Truthy(referer) ==> h[Referer] == referer.value) &&
      h[Origin] == Urls.Origin(m3u8Url)
  {
    AdvancedHeadersProfile(profile, referer, m3u8Url);
    AdvancedHeadersReferer(profile, referer, m3u8Url);
  }

  lemma AdvancedHeadersProfile(profile: Profile, referer: Option<string>, m3u8Url: string)
    ensures var h := AdvancedHeaders(profile, referer, m3u8Url);
      UserAgent in h && AcceptLanguage in h &&
      h[UserAgent] == profile.userAgent && h[AcceptLanguage] == profile.acceptLanguage
  {
    BaseHeadersFields(profile);
  }

  lemma AdvancedHeadersReferer(profile: Profile, referer: Option<string>, m3u8Url: string)
    ensures var h := AdvancedHeaders(profile, referer, m3u8Url);
      (Referer in h <==> Truthy(referer)) && (Truthy(referer) ==> h[Referer] == referer.value)
  {
    BaseHeadersFields(profile);
    FixedNames();
  }

  /** Referer and Origin are not among the fixed names, and no fixed name but Accept-Language is a bypass name. */
  lemma FixedNames()
    ensures Referer !in FixedHeaders && Origin !in FixedHeaders
    ensures Referer !in BypassNames && Origin !in BypassNames && UserAgent !in BypassNames
  {
  }

  /** A request carries the eleven fixed headers, the Origin, the Referer when one is given, and nothing else. */
  lemma AdvancedHeadersKeys(profile: Profile, referer: Option<string>, m3u8Url: string)
    ensures AdvancedHeaders(profile, referer, m3u8Url).Keys == FixedHeaders + {Origin} + (if Truthy(referer) then {Referer} else {})
  {
    BaseHeadersFields(profile);
  }

  /** The random parts of a bypass request: four address octets and a ray number. */
  datatype Noise = Noise(a: nat, b: nat, c: nat, d: nat, ray: nat)

  /** `f"{c.lower()}-{c},{c.lower()};q=0.9,en;q=0.8"`. */
  function CountryLanguage(country: string): (r: string)
    ensures StartsWith(r, Lower(country) + "-" + country + ",")
  {
    Lower(country) + "-" + country + "," + Lower(country) + ";q=0.9,en;q=0.8"
  }

  /** The four headers a bypass attempt adds or replaces. */
  const BypassNames: set<HeaderName> := {CfIpCountry, XForwardedFor, CfRay, AcceptLanguage}

  /** `headers.update(...)` with a country's bypass headers; every other header is kept as it was. */
  function CountryOverlay(h: Headers, country: string, forwardedFor: string, ray: string): Headers {
    h[CfIpCountry := country][XForwardedFor := forwardedFor][CfRay := ray][AcceptLanguage := CountryLanguage(country)]
  }

  /** The overlay adds the four bypass headers, sets the country and its language, and keeps every other header. */
  lemma CountryOverlayFields(h: Headers, country: string, forwardedFor: string, ray: string)
    ensures var r := CountryOverlay(h, country, forwardedFor, ray);
      r.Keys == h.Keys + BypassNames &&
      r[CfIpCountry] == country && r[AcceptLanguage] == CountryLanguage(country) &&
      forall k :: k in h && k !in BypassNames ==> r[k] == h[k]
  {
    CountryOverlayKeys(h, country, forwardedFor, ray);
    CountryOverlayKeeps(h, country, forwardedFor, ray);
  }

  lemma CountryOverlayKeys(h: Headers, country: string, forwardedFor: string, ray: string)
    ensures CountryOverlay(h, country, forwardedFor, ray).Keys == h.Keys + BypassNames
  {
  }

  lemma CountryOverlayKeeps(h: Headers, country: string, forwardedFor: string, ray: string)
    ensures var r := CountryOverlay(h, country, forwardedFor, ray);
      CfIpCountry in r && AcceptLanguage in r &&
      r[CfIpCountry] == country && r[AcceptLanguage] == CountryLanguage(country) &&
      forall k :: k in h && k !in BypassNames ==> k in r && r[k] == h[k]
  {
  }

  /** The random `X-Forwarded-For` address and `CF-RAY` id, written out. */
  function ForwardedFor(noise: Noise): string {
    Decimal(noise.a) + "." + Decimal(noise.b) + "." + Decimal(noise.c) + "." + Decimal(noise.d)
  }

  function RayId(noise: Noise): string {
    Decimal(noise.ray) + "-ICN"
  }

  /** A profile's headers with the bypass headers laid over them; the source uses the Chrome profile. */
  function BypassHeaders(profile: Profile, country: string, referer: Option<string>, m3u8Url: string, noise: Noise): Headers {
    CountryOverlay(AdvancedHeaders(profile, referer, m3u8Url), country, ForwardedFor(noise), RayId(noise))
  }

  /** A bypass request keeps the profile's headers and adds the country, its language and the forged client headers. */
  lemma BypassHeadersFields(profile: Profile, country: string, referer: Option<string>, m3u8Url: string, noise: Noise)
    ensures var h := BypassHeaders(profile, country, referer, m3u8Url, noise);
      UserAgent in h && Origin in h && CfIpCountry in h && AcceptLanguage in h &&
      h[UserAgent] == profile.userAgent && h[Origin] == Urls.Origin(m3u8Url) &&
      h[CfIpCountry] == country && h[AcceptLanguage] == CountryLanguage(country) &&
      (Referer in h <==> Truthy(referer))
  {
    var chrome := AdvancedHeaders(profile, referer, m3u8Url);
    AdvancedHeadersFields(profile, referer, m3u8Url);
    FixedNames();
    CountryOverlayKeys(chrome, country, ForwardedFor(noise), RayId(noise));
    CountryOverlayKeeps(chrome, country, ForwardedFor(noise), RayId(noise));
  }

  /** The header names of a bypass request: the profile request's, and the four bypass names. */
  lemma BypassHeadersKeys(profile: Profile, country: string, referer: Option<string>, m3u8Url: string, noise: Noise)
    ensures BypassHeaders(profile, country, referer, m3u8Url, noise).Keys ==
      FixedHeaders + {Origin} + (if Truthy(referer) then {Referer} else {}) + BypassNames
  {
    AdvancedHeadersKeys(profile, referer, m3u8Url);
    CountryOverlayKeys(AdvancedHeaders(profile, referer, m3u8Url), country, ForwardedFor(noise), RayId(noise));
  }

  /** Five profile attempts and four bypass attempts. */
  const AttemptCount: nat := 9

  /** What one attempt of the fetch is: a browser profile, or Chrome's headers with a country's bypass headers. */
  datatype Attempt = ProfileAttempt(profile: Profile) | BypassAttempt(country: string)

  /** Attempt `k`, in the order the two loops make them. */
  function AttemptOf(k: nat): Attempt
    requires k < AttemptCount
  {
    if k < 5 then ProfileAttempt(BrowserProfiles[k]) else BypassAttempt(Countries[k - 5])
  }

  /** The headers an attempt sends; a bypass draws fresh random `noise`. */
  function RequestFor(a: Attempt, referer: Option<string>, m3u8Url: string, noise: Noise): Headers {
    match a
    case ProfileAttempt(profile) => AdvancedHeaders(profile, referer, m3u8Url)
    case BypassAttempt(country) => BypassHeaders(BrowserProfiles[0], country, referer, m3u8Url, noise)
  }

  /** The headers of attempt `k`. */
  function AttemptHeaders(k: nat, referer: Option<string>, m3u8Url: string, noise: nat -> Noise): Headers
    requires k < AttemptCount
  {
    RequestFor(AttemptOf(k), referer, m3u8Url, noise(k))
  }

  /** The method name reported for a successful attempt `k`. */
  function AttemptName(k: nat): (r: string)
    requires k < AttemptCount
  {
    match AttemptOf(k)
    case ProfileAttempt(profile) => profile.name
    case BypassAttempt(country) => "CloudFlare bypass (" + country + ")"
  }

  datatype ContentType = M3U8 | Html | Blocked | Unknown

  /** The body as `detect_content_type` looks at it: lower-cased, then stripped. */
  function Normalised(content: string): string {
    Strip(Lower(content))
  }

  /** `detect_content_type`: rules tried in order on the normalised body. */
  function Classify(content: string): ContentType {
    var t := Normalised(content);
    if StartsWith(t, "#extm3u") then M3U8
    else if StartsWith(t, "<!doctype html") || StartsWith(t, "<html") then Html
    else if Contains(t, "google.com") || Contains(t, "cloudflare") then Blocked
    else Unknown
  }

  /** Lower-casing the body first changes nothing. */
  lemma ClassifyIgnoresCase(content: string)
    ensures Classify(Lower(content)) == Classify(content)
  {
    LowerIdempotent(content);
  }

  /** Leading whitespace, then a word in any letter case: the normalised body starts with the word. */
  lemma PaddedPrefix(ws: string, m: string, tail: string, w: string)
    requires forall i :: 0 <= i < |ws| ==> IsSpace(ws[i])
    requires |w| >= 1 && Lower(m) == w && !IsSpace(w[0]) && !IsSpace(w[|w| - 1])
    ensures StartsWith(Normalised(ws + m + tail), w)
  {
    PaddedLower(ws, m, tail, w);
    StripByStartsWith(Lower(ws + m + tail), |ws|, w, IsSpace);
  }

  /** Lower-cased, the padded body is the whitespace, then the word. */
  lemma PaddedLower(ws: string, m: string, tail: string, w: string)
    requires forall i :: 0 <= i < |ws| ==> IsSpace(ws[i])
    requires Lower(m) == w
    ensures var l := Lower(ws + m + tail);
      |ws| + |w| <= |l| && (forall i :: 0 <= i < |ws| ==> IsSpace(l[i])) && l[|ws|..|ws| + |w|] == w
  {
    var l := Lower(ws + m + tail);
    var a, t := Lower(ws), Lower(tail);
    LowerAppend(ws + m, tail);
    LowerAppend(ws, m);
    assert l == a + w + t;
    forall i | 0 <= i < |ws| ensures IsSpace(l[i]) {
      assert l[i] == a[i] == ToLower(ws[i]);
      SpaceNotCased(ws[i]);
    }
  }

  lemma SpaceNotCased(c: char)
    requires IsSpace(c)
    ensures ToLower(c) == c
  {
  }

  /**
    A body that starts, after any whitespace, with `#EXTM3U` in any letter case
    is a playlist, whatever follows: even a mention of `cloudflare`.
   */
  lemma ClassifyPlaylist(ws: string, m: string, tail: string)
    requires forall i :: 0 <= i < |ws| ==> IsSpace(ws[i])
    requires Lower(m) == "#extm3u"
    ensures Classify(ws + m + tail) == M3U8
  {
    PaddedPrefix(ws, m, tail, "#extm3u");
  }

  /** A body that starts, after any whitespace, with `<html` or `<!doctype html` is a page, whatever follows. */
  lemma ClassifyPage(ws: string, m: string, tail: string)
    requires forall i :: 0 <= i < |ws| ==> IsSpace(ws[i])
    requires Lower(m) == "<html" || Lower(m) == "<!doctype html"
    ensures Classify(ws + m + tail) == Html
  {
    PaddedPrefix(ws, m, tail, Lower(m));
    var t := Normalised(ws + m + tail);
    assert t[0] == '<';
    assert !StartsWith(t, "#extm3u") by { assert "#extm3u"[0] != '<'; }
  }

  /**
    Past the two prefix rules, a body is blocked exactly when its lower-cased
    text mentions `google.com` or `cloudflare`, anywhere: stripping never
    hides or creates a mention.
   */
  lemma ClassifyBlockedIff(content: string)
    requires !StartsWith(Normalised(content), "#extm3u")
    requires !StartsWith(Normalised(content), "<!doctype html") && !StartsWith(Normalised(content), "<html")
    ensures Classify(content) == Blocked <==>
      Contains(Lower(content), "google.com") || Contains(Lower(content), "cloudflare")
  {
    StripByContains(Lower(content), "google.com", IsSpace);
    StripByContains(Lower(content), "cloudflare", IsSpace);
  }

  /** The answer to a `session.get` of the playlist: status and body text, or an exception. */
  datatype Response = Response(status: int, text: string) | GetRaised

  /** An attempt succeeds when its answer is a 200 whose body is a playlist. */
  predicate Accepted(r: Response) {
    r.Response? && r.status == 200 && Classify(r.text) == M3U8
  }

  /** The first attempt from `k` on that `ok` accepts. */
  function FirstAccepted(ok: nat -> bool, k: nat): (r: Option<nat>)
    requires k <= AttemptCount
    ensures r.Some? ==> k <= r.value < AttemptCount
    decreases AttemptCount - k
  {
    if k == AttemptCount then None
    else if ok(k) then Some(k)
    else FirstAccepted(ok, k + 1)
  }

  /** The search finds an accepted attempt, and none before it; or it finds none because there is none. */
  lemma {:induction false} FirstAcceptedFirst(ok: nat -> bool, k: nat)
    requires k <= AttemptCount
    ensures FirstAccepted(ok, k).Some? ==> ok(FirstAccepted(ok, k).value)
    ensures FirstAccepted(ok, k).Some? ==> forall j :: k <= j < FirstAccepted(ok, k).value ==> !ok(j)
    ensures FirstAccepted(ok, k).None? ==> forall j :: k <= j < AttemptCount ==> !ok(j)
    decreases AttemptCount - k
  {
    if k < AttemptCount && !ok(k) { FirstAcceptedFirst(ok, k + 1); }
  }

  function AcceptedAt(get: nat -> Response): nat -> bool {
    (j: nat) => Accepted(get(j))
  }

  /** Which attempt the playlist comes from, if any. */
  function FetchSpec(get: nat -> Response): Option<nat> {
    FirstAccepted(AcceptedAt(get), 0)
  }

  /** The attempt the playlist comes from is the first that gets a playlist back; with none, no attempt does. */
  lemma FetchSpecFirst(get: nat -> Response)
    ensures FetchSpec(get).Some? ==> FetchSpec(get).value < AttemptCount && Accepted(get(FetchSpec(get).value))
    ensures FetchSpec(get).Some? ==> forall j :: 0 <= j < FetchSpec(get).value ==> !Accepted(get(j))
    ensures FetchSpec(get).None? ==> forall j :: 0 <= j < AttemptCount ==> !Accepted(get(j))
  {
    var ok := AcceptedAt(get);
    FirstAcceptedFirst(ok, 0);
    var r := FetchSpec(get);
    if r.Some? {
      assert ok(r.value);
      forall j | 0 <= j < r.value ensures !Accepted(get(j)) { assert !ok(j); }
    } else {
      forall j | 0 <= j < AttemptCount ensures !Accepted(get(j)) { assert !ok(j); }
    }
  }

  /** Attempts `lo` to `hi - 1`, in order. */
  function Attempts(lo: nat, hi: nat): (r: seq<Attempt>)
    requires lo <= hi <= AttemptCount
    ensures |r| == hi - lo
    decreases hi
  {
    if hi == lo then [] else Attempts(lo, hi - 1) + [AttemptOf(hi - 1)]
  }

  /** The `j`-th attempt of a run is attempt `j`. */
  lemma {:induction false} AttemptsAt(lo: nat, hi: nat, j: nat)
    requires lo <= j < hi <= AttemptCount
    ensures Attempts(lo, hi)[j - lo] == AttemptOf(j)
    decreases hi
  {
    if j < hi - 1 { AttemptsAt(lo, hi - 1, j); }
  }

  /** Two runs of attempts, one after the other, are one run. */
  lemma {:induction false} AttemptsAppend(lo: nat, mid: nat, hi: nat)
    requires lo <= mid <= hi <= AttemptCount
    ensures Attempts(lo, mid) + Attempts(mid, hi) == Attempts(lo, hi)
    decreases hi
  {
    if hi > mid {
      AttemptsAppend(lo, mid, hi - 1);
      Seqs.AppendSnoc(Attempts(lo, mid), Attempts(mid, hi - 1), AttemptOf(hi - 1));
    }
  }

  /**
    The bypass is a last resort: a profile that succeeds wins over every
    country, and a country is used only when all five profiles failed.
   */
  lemma BypassOnlyAfterProfiles(get: nat -> Response)
    ensures (exists j :: 0 <= j < 5 && Accepted(get(j))) ==> FetchSpec(get).Some? && FetchSpec(get).value < 5
    ensures FetchSpec(get).Some? && FetchSpec(get).value >= 5 ==> forall j :: 0 <= j < 5 ==> !Accepted(get(j))
  {
    FetchSpecFirst(get);
  }

  /** Every bypass request is Chrome's, with its country's header and language. */
  lemma BypassUsesChrome(k: nat, referer: Option<string>, m3u8Url: string, noise: nat -> Noise)
    requires 5 <= k < AttemptCount
    ensures AttemptHeaders(k, referer, m3u8Url, noise)[UserAgent] == BrowserProfiles[0].userAgent
    ensures AttemptHeaders(k, referer, m3u8Url, noise)[CfIpCountry] == Countries[k - 5]
    ensures AttemptHeaders(k, referer, m3u8Url, noise)[AcceptLanguage] == CountryLanguage(Countries[k - 5])
  {
    BypassHeadersFields(BrowserProfiles[0], Countries[k - 5], referer, m3u8Url, noise(k));
  }

  /** Each of the first five attempts sends its own profile's headers. */
  lemma ProfileAttemptIs(k: nat, referer: Option<string>, m3u8Url: string, noise: nat -> Noise)
    requires k < 5
    ensures AttemptHeaders(k, referer, m3u8Url, noise) == AdvancedHeaders(BrowserProfiles[k], referer, m3u8Url)
  {
    assert AttemptOf(k) == ProfileAttempt(BrowserProfiles[k]);
  }

  /**
    The profile loop: tries the five browser profiles in order and stops at
    the first playlist; `tried` is the attempts made, in order. Without a
    playlist, the search goes on from attempt 5.
   */
  method TryProfiles(get: nat -> Response) returns (found: Option<nat>, tried: seq<Attempt>)
    ensures |tried| <= 5 && tried == Attempts(0, |tried|)
    ensures found.Some? ==> found == FetchSpec(get) && |tried| == found.value + 1
    ensures found.None? ==> FetchSpec(get) == FirstAccepted(AcceptedAt(get), 5) && |tried| == 5
  {
    var accepts := AcceptedAt(get);
    found, tried := None, [];
    var i := 0;
    while i < 5 && found.None?
      invariant 0 <= i <= 5 && tried == Attempts(0, i)
      invariant found.None? ==> FetchSpec(get) == FirstAccepted(accepts, i)
      invariant found.Some? ==> found == FetchSpec(get) && found.value == i - 1
    {
      tried := tried + [ProfileAttempt(BrowserProfiles[i])];
      if accepts(i) {
        found := Some(i);
      }
      i := i + 1;
    }
  }

  /** The bypass loop: the four countries in order, after the five profile attempts, up to the first playlist. */
  method TryBypass(get: nat -> Response) returns (found: Option<nat>, tried: seq<Attempt>)
    ensures found == FirstAccepted(AcceptedAt(get), 5)
    ensures found.Some? ==> |tried| == found.value - 4
    ensures found.None? ==> |tried| == 4
    ensures 5 + |tried| <= AttemptCount && tried == Attempts(5, 5 + |tried|)
  {
    var accepts := AcceptedAt(get);
    found, tried := None, [];
    var c := 0;
    while c < 4 && found.None?
      invariant 0 <= c <= 4 && tried == Attempts(5, 5 + c)
      invariant found.None? ==> FirstAccepted(accepts, 5) == FirstAccepted(accepts, 5 + c)
      invariant found.Some? ==> found == FirstAccepted(accepts, 5) && found.value == 4 + c
    {
      tried := tried + [BypassAttempt(Countries[c])];
      if accepts(5 + c) {
        found := Some(5 + c);
      }
      c := c + 1;
    }
  }

  /**
    The two fetch loops. The answers come from `get`, by attempt; `tried` is
    the attempts made, in order, and attempt `k` sends `AttemptHeaders(k, ...)`.
    The loops stop at the first playlist.
   */
  method FetchPlaylist(get: nat -> Response) returns (playlist: Option<string>, via: string, tried: seq<Attempt>)
    ensures FetchSpec(get).None? ==> playlist.None? && |tried| == AttemptCount
    ensures FetchSpec(get).Some? ==>
      var k := FetchSpec(get).value;
      get(k).Response? && playlist == Some(get(k).text) && via == AttemptName(k) && |tried| == k + 1
    ensures |tried| <= AttemptCount && tried == Attempts(0, |tried|)
  {
    var found;
    found, tried := TryProfiles(get);
    if found.None? {
      var more;
      found, more := TryBypass(get);
      AttemptsAppend(0, 5, 5 + |more|);
      tried := tried + more;
    }
    if found.Some? {
      FetchSpecFirst(get);
      playlist, via := Some(get(found.value).text), AttemptName(found.value);
    } else {
      playlist, via := None, "";
    }
  }
}
