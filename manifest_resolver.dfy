/**
  Finding the HLS manifest URL on the frame page: the first `<source>`, the
  `<video><source>` elements, the page scripts, and otherwise a list of
  templated URLs keyed by the frame host, extended by the `n`/`s` variant,
  probed with `HEAD` and with redirects filtered.
 */
module ManifestResolver {
  import opened Wrappers
  import opened Text
  import opened Seqs
  import opened Http
  import opened Scan

  /**
    What the frame page offers: the `src` of its first `<source>` (None when
    there is no such element or attribute), the `src` of each `<source>` of
    each `<video>`, each `<script>`'s `.string`, and the `src` of its first
    `<track>`.
   */
  datatype FramePage = FramePage(
    sourceSrc: Option<string>,
    videoSources: seq<seq<Option<string>>>,
    scripts: seq<Option<string>>,
    trackSrc: Option<string>)

  /** A `<video><source>` worth taking: present, non-empty, and a manifest or an absolute URL. */
  predicate VideoSrcOk(src: Option<string>) {
    Truthy(src) && (Contains(src.value, ".m3u8") || StartsWith(src.value, "http"))
  }

  /** The first acceptable source of the first video that has one. */
  function VideoSource(videos: seq<seq<Option<string>>>): (r: Option<string>)
    ensures r.Some? ==> VideoSrcOk(r)
  {
    if |videos| == 0 then None
    else
      match FirstIndex(videos[0], VideoSrcOk)
      case Some(k) => videos[0][k]
      case None => VideoSource(videos[1..])
  }

  /** In a script: the first quoted text containing `.m3u8`, or else the first bare `http(s)://...m3u8` URL. */
  function ScriptManifest(script: string): (r: Option<string>)
    ensures r.Some? ==> HasM3u8(r.value)
  {
    if QuotedFrom(script, 0, HasM3u8).Some? then QuotedFrom(script, 0, HasM3u8)
    else BareFrom(script, 0)
  }

  /** The manifest URL the script scan finds: from the first script with text in which one is found. */
  function ScriptsManifest(scripts: seq<Option<string>>): (r: Option<string>)
    ensures r.Some? ==> HasM3u8(r.value)
  {
    if |scripts| == 0 then None
    else if Truthy(scripts[0]) && ScriptManifest(scripts[0].value).Some? then ScriptManifest(scripts[0].value)
    else ScriptsManifest(scripts[1..])
  }

  /** The manifest URL read off the frame page, before any URL is constructed. */
  function PageManifest(page: FramePage): (r: Option<string>)
    ensures r.Some? ==> r.value != ""
    ensures Truthy(page.sourceSrc) ==> r == page.sourceSrc
  {
    if Truthy(page.sourceSrc) then page.sourceSrc
    else if VideoSource(page.videoSources).Some? then VideoSource(page.videoSources)
    else ScriptsManifest(page.scripts)
  }

  /** The source's search, with its nested `<video>`/`<source>` loop and its script loop. */
  method FindPageManifest(page: FramePage) returns (m3u8: Option<string>)
    ensures m3u8 == PageManifest(page)
  {
    m3u8 := None;
    if Truthy(page.sourceSrc) {
      m3u8 := page.sourceSrc;
      return;
    }
    var v := 0;
    while v < |page.videoSources|
      invariant 0 <= v <= |page.videoSources|
      invariant VideoSource(page.videoSources) == VideoSource(page.videoSources[v..])
    {
      var sources := page.videoSources[v];
      assert page.videoSources[v..][0] == sources;
      assert page.videoSources[v..][1..] == page.videoSources[v + 1..];
      var k := 0;
      while k < |sources|
        invariant 0 <= k <= |sources|
        invariant forall j :: 0 <= j < k ==> !VideoSrcOk(sources[j])
      {
        if VideoSrcOk(sources[k]) {
          FirstIndexIs(sources, VideoSrcOk, k);
          m3u8 := sources[k];
          return;
        }
        k := k + 1;
      }
      FirstIndexNone(sources, VideoSrcOk);
      v := v + 1;
    }
    var i := 0;
    while i < |page.scripts|
      invariant 0 <= i <= |page.scripts|
      invariant ScriptsManifest(page.scripts) == ScriptsManifest(page.scripts[i..])
    {
      assert page.scripts[i..][1..] == page.scripts[i + 1..];
      if Truthy(page.scripts[i]) {
        var found := ScriptManifest(page.scripts[i].value);
        if found.Some? {
          m3u8 := found;
          return;
        }
      }
      i := i + 1;
    }
  }

  /**
    `iframe_url.split('/')[2] if '/' in iframe_url else ''`: the host field of
    the frame URL, `""` when it has no slash, and None when it has exactly one
    slash, where the index raises.
   */
  function DomainField(frameUrl: string): (r: Option<string>)
    ensures r == Some("") <== '/' !in frameUrl
    ensures r.Some? && '/' in frameUrl ==> |Split(frameUrl, '/')| > 2 && r.value == Split(frameUrl, '/')[2]
    ensures r.None? <==> '/' in frameUrl && |Split(frameUrl, '/')| <= 2
  {
    if '/' !in frameUrl then Some("")
    else
      var parts := Split(frameUrl, '/');
      if |parts| > 2 then Some(parts[2]) else None
  }

  /** The host of a `scheme://host/...` URL is its domain field. */
  lemma DomainFieldOfUrl(scheme: string, host: string, rest: string)
    requires '/' !in scheme && '/' !in host
    ensures DomainField(scheme + "//" + host + "/" + rest) == Some(host)
  {
    var u := scheme + "//" + host + "/" + rest;
    UrlSplit(scheme, host, rest);
    assert '/' in u by { assert u[|scheme|] == '/'; }
  }

  /** Splitting `scheme//host/rest` on slashes gives at least three fields, the third being host. */
  lemma UrlSplit(scheme: string, host: string, rest: string)
    requires '/' !in scheme && '/' !in host
    ensures var parts := Split(scheme + "//" + host + "/" + rest, '/');
      |parts| > 2 && parts[2] == host
  {
    var tail := host + "/" + rest;
    var after := "/" + tail;
    assert scheme + "//" + host + "/" + rest == scheme + "/" + after;
    SlashStep(scheme, after);
    assert after == "" + "/" + tail;
    SlashStep("", tail);
    SlashStep(host, rest);
  }

  /** A slash-free field before a slash is the first field of the split. */
  lemma SlashStep(a: string, b: string)
    requires '/' !in a
    ensures Split(a + "/" + b, '/') == [a] + Split(b, '/')
  {
    SplitAt(a + "/" + b, a, b, '/');
  }

  /** `player_data_url.endswith(('n1', 's1', 'n2', 's2'))`. */
  predicate Sub3Strippable(id: string) {
    EndsWith(id, "n1") || EndsWith(id, "s1") || EndsWith(id, "n2") || EndsWith(id, "s2")
  }

  /** The `base_id` of the sub3.top branch: the id without its last two characters when it ends in n1, s1, n2 or s2. */
  function Sub3BaseId(id: string): (r: string)
    ensures Sub3Strippable(id) ==> r == id[..|id| - 2]
    ensures !Sub3Strippable(id) ==> r == id
  {
    if Sub3Strippable(id) then id[..|id| - 2] else id
  }

  /** Each of the four suffixes is taken off, and nothing more. */
  lemma Sub3BaseIdStrips(base: string, suffix: string)
    requires suffix == "n1" || suffix == "s1" || suffix == "n2" || suffix == "s2"
    ensures Sub3BaseId(base + suffix) == base
  {
    var id := base + suffix;
    assert id[|id| - 2..] == suffix;
    assert id[..|id| - 2] == base;
  }

  /** An id whose last character is neither `1` nor `2` is the base id itself. */
  lemma Sub3BaseIdKeeps(id: string)
    requires |id| == 0 || (id[|id| - 1] != '1' && id[|id| - 1] != '2')
    ensures Sub3BaseId(id) == id
  {
    if |id| >= 2 {
      assert id[|id| - 2..][1] == id[|id| - 1];
    }
  }

  function M3k(path: string, id: string): string {
    "https://m3k.myani.app/" + path + "/m3u8/" + id + ".m3u8"
  }

  function Indexed(host: string, dir: string, id: string): string {
    "https://" + host + "/" + dir + "/" + id + "/index.m3u8"
  }

  /** The domain-keyed template list for a data id. */
  function DomainTemplates(domain: string, id: string): (r: seq<string>)
    ensures Contains(domain, "myani.app") ==> r == MyaniTemplates(id)
    ensures !Contains(domain, "myani.app") && Contains(domain, "sub3.top") ==> r == Sub3Templates(id)
    ensures !Contains(domain, "myani.app") && !Contains(domain, "sub3.top") ==> r == GenericTemplates(id)
  {
    if Contains(domain, "myani.app") then MyaniTemplates(id)
    else if Contains(domain, "sub3.top") then Sub3Templates(id)
    else GenericTemplates(id)
  }

  function MyaniTemplates(id: string): (r: seq<string>)
    ensures |r| == 6
  {
    [ M3k("b2nss4", id),
      M3k("b2k37", id),
      M3k("b2k28", id),
      M3k("b2", id),
      Indexed("g2.myani.app", "hls", id),
      Indexed("g2.myani.app", "stream", id) ]
  }

  /** The sub3.top list; its last two entries use the flipped id. */
  function Sub3Templates(id: string): (r: seq<string>)
    ensures |r| == 10
  {
    var base := Sub3BaseId(id);
    var flipped := if Contains(id, "n1") then base + "s1" else base + "n1";
    [ Indexed("bn1.imgkr4.top", "file/k0625n1", id),
      Indexed("bn2.imgkr4.top", "file/k0625n1", id),
      Indexed("bn3.imgkr4.top", "file/k0625n1", id),
      Indexed("play.sub3.top", "hls", id),
      Indexed("play.sub3.top", "stream", id),
      Indexed("sub3.top", "hls", id),
      M3k("b2nss4", id),
      Indexed("g2.myani.app", "hls", id),
      M3k("b2nss4", flipped),
      Indexed("bn1.imgkr4.top", "file/k0625n1", flipped) ]
  }

  function GenericTemplates(id: string): (r: seq<string>)
    ensures |r| == 7
  {
    [ M3k("b2nss4", id),
      Indexed("bn1.imgkr4.top", "file/k0625n1", id),
      Indexed("bn2.imgkr4.top", "file/k0625n1", id),
      Indexed("bn3.imgkr4.top", "file/k0625n1", id),
      Indexed("play.sub3.top", "hls", id),
      Indexed("g2.myani.app", "hls", id),
      M3k("b2k37", id) ]
  }

  /**
    The last two sub3.top candidates swap an `n1` ending for `s1` and anything
    else for `n1`, but the test is `'n1' in id`, a substring test: an id such
    as `7n12` that only contains `n1` gets `7n12s1`, and `2n1s2` gets `2n1s1`.
   */
  lemma Sub3Alternate(id: string)
    ensures var t := Sub3Templates(id);
      && (EndsWith(id, "n1") ==>
          (t[8] == M3k("b2nss4", id[..|id| - 2] + "s1") && t[9] == Indexed("bn1.imgkr4.top", "file/k0625n1", id[..|id| - 2] + "s1")))
      && (Contains(id, "n1") && Sub3Strippable(id) ==>
          (t[8] == M3k("b2nss4", id[..|id| - 2] + "s1") && t[9] == Indexed("bn1.imgkr4.top", "file/k0625n1", id[..|id| - 2] + "s1")))
      && (Contains(id, "n1") && !Sub3Strippable(id) ==>
          (t[8] == M3k("b2nss4", id + "s1") && t[9] == Indexed("bn1.imgkr4.top", "file/k0625n1", id + "s1")))
      && (!Contains(id, "n1") && Sub3Strippable(id) ==>
          (t[8] == M3k("b2nss4", id[..|id| - 2] + "n1") && t[9] == Indexed("bn1.imgkr4.top", "file/k0625n1", id[..|id| - 2] + "n1")))
      && (!Contains(id, "n1") && !Sub3Strippable(id) ==>
          (t[8] == M3k("b2nss4", id + "n1") && t[9] == Indexed("bn1.imgkr4.top", "file/k0625n1", id + "n1")))
  {
    if EndsWith(id, "n1") {
      assert id[|id| - 2..] == "n1";
      assert OccursAt(id, "n1", |id| - 2);
      ContainsAt(id, "n1", |id| - 2);
    }
  }

  /** The substring test at work: `2n1s2` contains `n1`, so its alternates use `2n1s1`. */
  lemma Sub3AlternateInside()
    ensures Sub3Templates("2n1s2")[8] == M3k("b2nss4", "2n1s1")
    ensures Sub3Templates("2n1s2")[9] == Indexed("bn1.imgkr4.top", "file/k0625n1", "2n1s1")
  {
    var id := "2n1s2";
    assert OccursAt(id, "n1", 1);
    ContainsAt(id, "n1", 1);
    assert EndsWith(id, "s2");
    assert id[..|id| - 2] + "s1" == "2n1s1";
    Sub3Alternate(id);
  }

  /** Every template of the myani.app list embeds the data id. */
  lemma MyaniTemplatesEmbedId(id: string)
    ensures forall k :: 0 <= k < 6 ==> Contains(MyaniTemplates(id)[k], id)
  {
    var t := MyaniTemplates(id);
    forall k | 0 <= k < 6 ensures Contains(t[k], id) {
      if k < 4 {
        M3kEmbeds(["b2nss4", "b2k37", "b2k28", "b2"][k], id);
      } else {
        IndexedEmbeds("g2.myani.app", ["hls", "stream"][k - 4], id);
      }
    }
  }

  /** Every template of the generic list embeds the data id. */
  lemma GenericTemplatesEmbedId(id: string)
    ensures forall k :: 0 <= k < 7 ==> Contains(GenericTemplates(id)[k], id)
  {
    var t := GenericTemplates(id);
    forall k | 0 <= k < 7 ensures Contains(t[k], id) {
      if k == 0 || k == 6 {
        M3kEmbeds(if k == 0 then "b2nss4" else "b2k37", id);
      } else {
        var hosts := ["bn1.imgkr4.top", "bn2.imgkr4.top", "bn3.imgkr4.top", "play.sub3.top", "g2.myani.app"];
        var dirs := ["file/k0625n1", "file/k0625n1", "file/k0625n1", "hls", "hls"];
        IndexedEmbeds(hosts[k - 1], dirs[k - 1], id);
      }
    }
  }

  /** The first eight sub3.top templates embed the data id itself. */
  lemma Sub3TemplatesEmbedId(id: string)
    ensures forall k :: 0 <= k < 8 ==> Contains(Sub3Templates(id)[k], id)
  {
    var t := Sub3Templates(id);
    forall k | 0 <= k < 8 ensures Contains(t[k], id) {
      if k == 6 {
        M3kEmbeds("b2nss4", id);
      } else {
        var hosts := ["bn1.imgkr4.top", "bn2.imgkr4.top", "bn3.imgkr4.top", "play.sub3.top", "play.sub3.top", "sub3.top", "", "g2.myani.app"];
        var dirs := ["file/k0625n1", "file/k0625n1", "file/k0625n1", "hls", "stream", "hls", "", "hls"];
        IndexedEmbeds(hosts[k], dirs[k], id);
      }
    }
  }

  lemma M3kEmbeds(path: string, id: string)
    ensures Contains(M3k(path, id), id)
  {
    ContainsAt(id, id, 0);
    ContainsInContext("https://m3k.myani.app/" + path + "/m3u8/", id, ".m3u8", id);
  }

  lemma IndexedEmbeds(host: string, dir: string, id: string)
    ensures Contains(Indexed(host, dir, id), id)
  {
    ContainsAt(id, id, 0);
    ContainsInContext("https://" + host + "/" + dir + "/", id, "/index.m3u8", id);
  }

  /** An id ending in `n` or `s` and a digit from 1 to 6, as the mutation tests. */
  predicate EndsWithLetterDigit(id: string, letter: char) {
    |id| >= 2 && id[|id| - 2] == letter && '1' <= id[|id| - 1] <= '6'
  }

  /** The id with the letter before its final digit replaced. */
  function SwapLetter(id: string, letter: char): (r: string)
    requires |id| >= 2
    ensures |r| == |id| && r[|r| - 2] == letter && r[|r| - 1] == id[|id| - 1]
    ensures forall i :: 0 <= i < |id| && i != |id| - 2 ==> r[i] == id[i]
  {
    id[..|id| - 2] + [letter] + [id[|id| - 1]]
  }

  /**
    The `n`/`s` variants appended after the domain list: seven URLs of the
    `s` twin for an id ending n1..n6, three URLs of the `n` twin for one ending
    s1..s6, none otherwise.
   */
  function SuffixMutations(id: string): (r: seq<string>)
    ensures EndsWithLetterDigit(id, 'n') ==> |r| == 7
    ensures EndsWithLetterDigit(id, 's') ==> |r| == 3
    ensures !EndsWithLetterDigit(id, 'n') && !EndsWithLetterDigit(id, 's') ==> r == []
  {
    if EndsWithLetterDigit(id, 'n') then
      var s := SwapLetter(id, 's');
      [ M3k("b2nss4", s),
        M3k("b2k37", s),
        M3k("b2k28", s),
        M3k("b2", s),
        Indexed("g2.myani.app", "hls", s),
        Indexed("bi1.imgkr2.top", "file/ns2bb4", s),
        Indexed("bi2.imgkr2.top", "file/ns2bb4", s) ]
    else if EndsWithLetterDigit(id, 's') then
      var n := SwapLetter(id, 'n');
      [ Indexed("bn1.imgkr4.top", "file/k0625n1", n),
        Indexed("play.sub3.top", "hls", n),
        Indexed("play.sub3.top", "stream", n) ]
    else []
  }

  /** `id.endswith(('n1', ..., 'n6'))`, as the source writes it, is the letter-digit test. */
  lemma EndsWithLetterDigitIff(id: string, letter: char)
    ensures EndsWithLetterDigit(id, letter) <==>
      exists d :: '1' <= d <= '6' && EndsWith(id, [letter, d])
  {
    if EndsWithLetterDigit(id, letter) {
      var d := id[|id| - 1];
      assert id[|id| - 2..] == [letter, d];
      assert EndsWith(id, [letter, d]);
    }
    if exists d :: '1' <= d <= '6' && EndsWith(id, [letter, d]) {
      var d :| '1' <= d <= '6' && EndsWith(id, [letter, d]);
      assert id[|id| - 2..][0] == id[|id| - 2] && id[|id| - 2..][1] == id[|id| - 1];
    }
  }

  /**
    Every variant embeds the twin id, which keeps the final digit: the `s`
    twin of an `n` id and the `n` twin of an `s` id, agreeing with the id
    everywhere but in that letter.
   */
  lemma NMutationsEmbedTwin(id: string)
    requires EndsWithLetterDigit(id, 'n')
    ensures forall k :: 0 <= k < 7 ==> Contains(SuffixMutations(id)[k], SwapLetter(id, 's'))
  {
    var tw := SwapLetter(id, 's');
    M3kEmbeds("b2nss4", tw); M3kEmbeds("b2k37", tw); M3kEmbeds("b2k28", tw); M3kEmbeds("b2", tw);
    IndexedEmbeds("g2.myani.app", "hls", tw);
    IndexedEmbeds("bi1.imgkr2.top", "file/ns2bb4", tw);
    IndexedEmbeds("bi2.imgkr2.top", "file/ns2bb4", tw);
  }

  lemma SMutationsEmbedTwin(id: string)
    requires EndsWithLetterDigit(id, 's')
    ensures forall k :: 0 <= k < 3 ==> Contains(SuffixMutations(id)[k], SwapLetter(id, 'n'))
  {
    var tw := SwapLetter(id, 'n');
    IndexedEmbeds("bn1.imgkr4.top", "file/k0625n1", tw);
    IndexedEmbeds("play.sub3.top", "hls", tw);
    IndexedEmbeds("play.sub3.top", "stream", tw);
  }

  /** The full list probed: the domain list followed by the variants. */
  function ManifestCandidates(domain: string, id: string): (r: seq<string>)
    ensures |r| == |DomainTemplates(domain, id)| + |SuffixMutations(id)|
  {
    DomainTemplates(domain, id) + SuffixMutations(id)
  }

  /**
    The domain templates are probed first: one that answers wins, and the
    suffix variants are only reached when none of them does.
   */
  lemma ManifestCandidatesOrder(domain: string, id: string, head: string -> Head)
    ensures var templates := ProbeManifests(DomainTemplates(domain, id), head);
      ProbeManifests(ManifestCandidates(domain, id), head) ==
        if templates.Some? then templates else ProbeManifests(SuffixMutations(id), head)
  {
    var t := DomainTemplates(domain, id);
    var m := SuffixMutations(id);
    var c := ManifestCandidates(domain, id);
    var p := x => ManifestProbeHit(head, x);
    assert c == t + m;
    match FirstIndex(t, p)
    case Some(k) =>
      FirstIndexIs(c, p, k);
    case None =>
      match FirstIndex(m, p)
      case Some(k) =>
        FirstIndexIs(c, p, |t| + k);
      case None =>
        forall j | 0 <= j < |c| ensures !p(c[j]) {
          if j >= |t| { assert c[j] == m[j - |t|]; }
        }
        FirstIndexNone(c, p);
  }

  /** The deny-list, applied to the lowercased `Location`. */
  predicate DeniedHost(lowered: string) {
    Contains(lowered, "google.com") || Contains(lowered, "microsoft.com")
    || Contains(lowered, "amazon.com") || Contains(lowered, "cloudflare.com")
  }

  /** The look-like-a-manifest test, on the `Location` as sent. */
  predicate LooksLikeManifest(location: string) {
    Contains(location, ".m3u8") || Contains(location, "myani.app") || Contains(location, "imgkr")
  }

  /** A `Location` that passes both filters. */
  predicate AcceptableRedirect(location: string) {
    !DeniedHost(Lower(location)) && LooksLikeManifest(location)
  }

  /**
    One manifest probe: 200 accepts the candidate; a 301/302 with a non-empty
    `Location` that passes both filters accepts the location when a second
    `HEAD` of it answers 200; nothing else yields anything.
   */
  function ManifestProbe(head: string -> Head, candidate: string): (r: Option<string>)
    ensures r == Some(candidate) <== head(candidate).Head? && head(candidate).status == 200
    ensures r.Some? && r.value != candidate ==>
      && head(candidate).Head? && IsRedirect(head(candidate).status)
      && head(candidate).location == r
      && AcceptableRedirect(r.value)
      && head(r.value).Head? && head(r.value).status == 200
  {
    match head(candidate)
    case Raised => None
    case Head(status, location) =>
      if status == 200 then Some(candidate)
      else if IsRedirect(status) && Truthy(location) then
        var target := location.value;
        if DeniedHost(Lower(target)) then None
        else if !LooksLikeManifest(target) then None
        else if head(target).Head? && head(target).status == 200 then Some(target)
        else None
      else None
  }

  /** A redirect that passes both filters and whose target answers 200 is taken. */
  lemma VettedRedirectAccepted(head: string -> Head, candidate: string, status: int, location: string)
    requires head(candidate) == Head(status, Some(location)) && status != 200 && IsRedirect(status)
    requires location != "" && AcceptableRedirect(location)
    requires head(location).Head? && head(location).status == 200
    ensures ManifestProbe(head, candidate) == Some(location)
  {
  }

  predicate ManifestProbeHit(head: string -> Head, candidate: string) {
    ManifestProbe(head, candidate).Some?
  }

  /** The probe loop: the yield of the first candidate whose probe yields something. */
  function ProbeManifests(candidates: seq<string>, head: string -> Head): Option<string> {
    match FirstIndex(candidates, c => ManifestProbeHit(head, c))
    case None => None
    case Some(k) => ManifestProbe(head, candidates[k])
  }

  /**
    What the probe loop returns is a candidate itself, or a redirect target that
    is on none of the denied hosts, looks like a manifest and answered 200.
   */
  lemma ProbeManifestsSafe(candidates: seq<string>, head: string -> Head)
    ensures var r := ProbeManifests(candidates, head);
      r.Some? ==> r.value in candidates || (AcceptableRedirect(r.value) && head(r.value) == Head(200, head(r.value).location))
  {
  }

  /** A redirect to a denied host is never taken, whatever else it names. */
  lemma DeniedRedirectRejected(head: string -> Head, candidate: string, status: int, location: string)
    requires IsRedirect(status) && head(candidate) == Head(status, Some(location))
    requires Contains(Lower(location), "google.com")
    ensures ManifestProbe(head, candidate).None?
  {
  }

  /** The source's probe loop. */
  method ProbeManifestCandidates(candidates: seq<string>, head: string -> Head) returns (found: Option<string>)
    ensures found == ProbeManifests(candidates, head)
  {
    found := None;
    var i := 0;
    while i < |candidates|
      invariant 0 <= i <= |candidates|
      invariant forall j :: 0 <= j < i ==> !ManifestProbeHit(head, candidates[j])
      invariant found == None
    {
      var test := candidates[i];
      var answer := head(test);
      if answer.Head? && answer.status == 200 {
        found := Some(test);
      } else if answer.Head? && IsRedirect(answer.status) && Truthy(answer.location) {
        var target := answer.location.value;
        if !DeniedHost(Lower(target)) && LooksLikeManifest(target) {
          var second := head(target);
          if second.Head? && second.status == 200 {
            found := Some(target);
          }
        }
      }
      assert found == ManifestProbe(head, test);
      if found.Some? {
        FirstIndexIs(candidates, c => ManifestProbeHit(head, c), i);
        return;
      }
      i := i + 1;
    }
    FirstIndexNone(candidates, c => ManifestProbeHit(head, c));
  }
}
