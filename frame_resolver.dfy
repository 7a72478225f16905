/**
  Finding the player frame URL on the player page: the `player_post` slice,
  the `<iframe>` host filter, the quoted-URL scan of the page scripts and the
  five templated candidates probed with `HEAD`, tried in that order.
 */
module FrameResolver {
  import opened Wrappers
  import opened Text
  import opened Seqs
  import opened Http
  import opened Scan
  import PlayerUrl

  /** What the player page offers: each `<script>`'s `.string` (None when it has none) and each `<iframe>`'s `src`. */
  datatype PlayerPage = PlayerPage(scripts: seq<Option<string>>, iframeSrcs: seq<Option<string>>)

  /** A script that has text mentioning `player_post`. */
  predicate HasPlayerPost(script: Option<string>) {
    Truthy(script) && Contains(script.value, "player_post")
  }

  /**
    The `player_post` slice: `start` is 13 past the first `player_post` at or
    after the first `.click`, `end` is one before the first `,` at or after
    `start`, and the slice `[start:end]` loses its quotes at both ends. There
    is no candidate when `.click` is missing. A missing `player_post` makes
    `start` 12; a missing comma makes `end` -2, which Python counts from the end.
   */
  function PlayerPostSlice(script: string): (r: Option<string>)
    ensures r.Some? <==> Contains(script, ".click")
    ensures r.Some? ==> r.value == [] || (NotQuote(r.value[0]) && NotQuote(r.value[|r.value| - 1]))
  {
    match PlayerPostBounds(script)
    case None => None
    case Some(bounds) => Some(StripBy(PySlice(script, bounds.0, bounds.1), IsQuote))
  }

  /** The `[start:end]` of the slice, when there is a `.click`. */
  function PlayerPostBounds(script: string): (r: Option<(nat, int)>)
    ensures r.Some? <==> Contains(script, ".click")
  {
    var click := Find(script, ".click", 0);
    if click == -1 then None
    else
      var start := Find(script, "player_post", click) + 13;
      Some((start, Find(script, ",", start) - 1))
  }

  /**
    The intended layout: the first `.click` at `c`, the first `player_post`
    from there on at `p`, and the first comma from `p + 13` on at `e + 1`. The candidate is then the text from `p + 13` to `e`, when that
    text neither starts nor ends with a quote.
   */
  lemma PlayerPostSliceWellFormed(s: string, c: nat, p: nat, e: nat)
    requires OccursAt(s, ".click", c) && forall j :: 0 <= j < c ==> !OccursAt(s, ".click", j)
    requires c <= p && OccursAt(s, "player_post", p) && forall j :: c <= j < p ==> !OccursAt(s, "player_post", j)
    requires p + 13 <= e && e + 1 < |s| && s[e + 1] == ',' && forall j :: p + 13 <= j <= e ==> s[j] != ','
    requires var u := s[p + 13..e]; u == [] || (NotQuote(u[0]) && NotQuote(u[|u| - 1]))
    ensures PlayerPostSlice(s) == Some(s[p + 13..e])
  {
    var u := s[p + 13..e];
    WellFormedBounds(s, c, p, e);
    SliceOfBounds(s, p + 13, e);
    PySliceIn(s, p + 13, e);
    assert PlayerPostSlice(s) == Some(StripBy(u, IsQuote));
    StripByUnchanged(u, IsQuote);
  }

  /** In the intended layout the slice runs from `p + 13` to `e`. */
  lemma WellFormedBounds(s: string, c: nat, p: nat, e: nat)
    requires OccursAt(s, ".click", c) && forall j :: 0 <= j < c ==> !OccursAt(s, ".click", j)
    requires c <= p && OccursAt(s, "player_post", p) && forall j :: c <= j < p ==> !OccursAt(s, "player_post", j)
    requires p + 13 <= e && e + 1 < |s| && s[e + 1] == ',' && forall j :: p + 13 <= j <= e ==> s[j] != ','
    ensures PlayerPostBounds(s) == Some((p + 13, e))
  {
    FindIs(s, ".click", 0, c);
    FindIs(s, "player_post", c, p);
    assert OccursAt(s, ",", e + 1);
    FindAfterFree(s, ",", p + 13, e + 1);
    PlayerPostBoundsOf(s, c, p, e);
  }

  /** The candidate is the quote-stripped slice between the bounds. */
  lemma SliceOfBounds(s: string, start: nat, end: int)
    requires PlayerPostBounds(s) == Some((start, end))
    ensures PlayerPostSlice(s) == Some(StripBy(PySlice(s, start, end), IsQuote))
  {
  }

  lemma PlayerPostBoundsOf(s: string, click: nat, post: nat, end: nat)
    requires Find(s, ".click", 0) == click
    requires Find(s, "player_post", click) == post
    requires Find(s, ",", post + 13) == end + 1
    ensures PlayerPostBounds(s) == Some((post + 13, end))
  {
  }

  /**
    With `.click` present and neither `player_post` after it nor a comma after
    index 12, the candidate is the text from index 12 up to two characters
    before the end (quotes stripped): it can include text from before `.click`.
   */
  lemma PlayerPostSliceMissingMarkers(script: string)
    requires Contains(script, ".click")
    requires forall k :: Find(script, ".click", 0) <= k ==> !OccursAt(script, "player_post", k)
    requires forall k :: 12 <= k ==> !OccursAt(script, ",", k)
    ensures |script| >= 14 ==> PlayerPostSlice(script) == Some(StripBy(script[12..|script| - 2], IsQuote))
    ensures |script| < 14 ==> PlayerPostSlice(script) == Some("")
  {
    var click := Find(script, ".click", 0);
    assert Find(script, "player_post", click) == -1;
    assert Find(script, ",", 12) == -1;
    assert PlayerPostBounds(script) == Some((12, -2));
    SliceOfBounds(script, 12, -2);
    if |script| < 14 {
      assert PySlice(script, 12, -2) == "";
      StripByUnchanged("", IsQuote);
    }
  }

  /**
    With `.click` present and no `player_post` after it, the slice starts at
    index 12 and ends one before the first comma from there on.
   */
  lemma PlayerPostSliceNoPost(script: string, k: nat)
    requires Contains(script, ".click")
    requires forall j :: Find(script, ".click", 0) <= j ==> !OccursAt(script, "player_post", j)
    requires 12 <= k && OccursAt(script, ",", k) && forall j :: 12 <= j < k ==> !OccursAt(script, ",", j)
    ensures k > 12 ==> PlayerPostSlice(script) == Some(StripBy(script[12..k - 1], IsQuote))
    ensures k == 12 ==> PlayerPostSlice(script) == Some("")
  {
    var click := Find(script, ".click", 0);
    assert Find(script, "player_post", click) == -1;
    FindIs(script, ",", 12, k);
    assert PlayerPostBounds(script) == Some((12, k - 1));
    SliceOfBounds(script, 12, k - 1);
    if k > 12 {
      PySliceIn(script, 12, k - 1);
    } else {
      assert PySlice(script, 12, 11) == "";
      StripByUnchanged("", IsQuote);
    }
  }

  /**
    With `player_post` at `p` after `.click` and no comma from `p + 13` on,
    `find` gives -1, so the slice runs from `p + 13` to two characters before
    the end.
   */
  lemma PlayerPostSliceNoComma(script: string, p: nat)
    requires Contains(script, ".click")
    requires Find(script, ".click", 0) <= p && OccursAt(script, "player_post", p)
    requires forall j :: Find(script, ".click", 0) <= j < p ==> !OccursAt(script, "player_post", j)
    requires forall j :: p + 13 <= j ==> !OccursAt(script, ",", j)
    ensures p + 13 < |script| - 2 ==> PlayerPostSlice(script) == Some(StripBy(script[p + 13..|script| - 2], IsQuote))
    ensures p + 13 >= |script| - 2 ==> PlayerPostSlice(script) == Some("")
  {
    var click := Find(script, ".click", 0);
    FindIs(script, "player_post", click, p);
    assert Find(script, ",", p + 13) == -1;
    assert PlayerPostBounds(script) == Some((p + 13, -2));
    SliceOfBounds(script, p + 13, -2);
    if p + 13 < |script| - 2 {
      assert PySlice(script, p + 13, -2) == script[p + 13..|script| - 2];
    } else {
      assert PySlice(script, p + 13, -2) == "";
      StripByUnchanged("", IsQuote);
    }
  }

  /** The `<iframe src>` filter: present, non-empty and naming one of the player hosts or a `.php` page. */
  predicate FrameHost(src: string) {
    Contains(src, "myani.app") || Contains(src, "sub3.top") || Contains(src, ".php")
  }

  predicate IframeSrcOk(src: Option<string>) {
    Truthy(src) && FrameHost(src.value)
  }

  /** The frame URL the script scan finds: the first match in the first script that has one. */
  function ScriptsFrame(scripts: seq<Option<string>>): (r: Option<string>)
    ensures r.Some? ==> FrameHost(r.value) && r.value != ""
  {
    if |scripts| == 0 then None
    else if Truthy(scripts[0]) && QuotedFrom(scripts[0].value, 0, FrameHost).Some? then
      QuotedFrom(scripts[0].value, 0, FrameHost)
    else ScriptsFrame(scripts[1..])
  }

  /** `page?url=value` followed by `rest`. */
  function UrlQuery(page: string, value: string, rest: string): string {
    page + "?url=" + value + rest
  }

  /** The five frame URLs built from the two ids when nothing on the page names one. */
  function FrameTemplates(videoId: string, subId: string): (r: seq<string>)
    ensures |r| == 5 && forall k :: 0 <= k < 5 ==> r[k] != ""
  {
    [ UrlQuery("https://play.sub3.top/b2/kn1.php", videoId + "n" + subId, "&id"),
      UrlQuery("https://g2.myani.app/player.php", videoId + "s" + subId, ""),
      UrlQuery("https://play.sub3.top/player.php", videoId + "s" + subId, ""),
      UrlQuery("https://play.sub3.top/b2/kn1.php", videoId + "s" + subId, "&id"),
      UrlQuery("https://g2.myani.app/b2/kn1.php", videoId + "n" + subId, "&id") ]
  }

  /**
    Every template carries its data id in its `url=` parameter: the video id,
    `n` or `s`, and the sub id, so a template accepted with 200 yields that id.
   */
  lemma FrameTemplatesDataIds(videoId: string, subId: string)
    requires |videoId| >= 1 && '&' !in videoId && '&' !in subId
    ensures var t := FrameTemplates(videoId, subId);
      && PlayerUrl.DataId(t[0]) == Some(videoId + "n" + subId)
      && PlayerUrl.DataId(t[1]) == Some(videoId + "s" + subId)
      && PlayerUrl.DataId(t[2]) == Some(videoId + "s" + subId)
      && PlayerUrl.DataId(t[3]) == Some(videoId + "s" + subId)
      && PlayerUrl.DataId(t[4]) == Some(videoId + "n" + subId)
  {
    NoAmp(videoId, "n", subId);
    NoAmp(videoId, "s", subId);
    QueryPage("https://play.sub3.top/b2/kn1.php", videoId + "n" + subId, "&id");
    QueryPage("https://g2.myani.app/player.php", videoId + "s" + subId, "");
    QueryPage("https://play.sub3.top/player.php", videoId + "s" + subId, "");
    QueryPage("https://play.sub3.top/b2/kn1.php", videoId + "s" + subId, "&id");
    QueryPage("https://g2.myani.app/b2/kn1.php", videoId + "n" + subId, "&id");
  }

  lemma QueryPage(page: string, value: string, rest: string)
    requires forall i :: 0 <= i < |page| ==> page[i] != '?' && page[i] != '&'
    requires |value| >= 1 && forall i :: 0 <= i < |value| ==> value[i] != '&'
    requires rest == "" || rest[0] == '&'
    ensures PlayerUrl.DataId(UrlQuery(page, value, rest)) == Some(value)
  {
    PlayerUrl.DataIdOfQuery(page, value, rest);
  }

  lemma NoAmp(a: string, b: string, c: string)
    requires '&' !in a && '&' !in b && '&' !in c
    ensures forall i :: 0 <= i < |a + b + c| ==> (a + b + c)[i] != '&'
  {
    forall i | 0 <= i < |a + b + c| ensures (a + b + c)[i] != '&' {
      if i < |a| { assert (a + b + c)[i] == a[i]; }
      else if i < |a| + |b| { assert (a + b + c)[i] == b[i - |a|]; }
      else { assert (a + b + c)[i] == c[i - |a| - |b|]; }
    }
  }

  /**
    What one frame probe yields: the candidate itself on 200, the `Location`
    of a 301 or 302 when it is non-empty, whatever host it names; nothing
    otherwise or when the request raised.
   */
  function FrameProbe(h: Head, candidate: string): (r: Option<string>)
    ensures r.Some? <==> (h.Head? && (h.status == 200 || (IsRedirect(h.status) && Truthy(h.location))))
    ensures r.Some? && h.status == 200 ==> r.value == candidate
    ensures r.Some? && h.status != 200 ==> r == h.location
  {
    match h
    case Raised => None
    case Head(status, location) =>
      if status == 200 then Some(candidate)
      else if IsRedirect(status) && Truthy(location) then location
      else None
  }

  predicate FrameProbeHit(head: string -> Head, candidate: string) {
    FrameProbe(head(candidate), candidate).Some?
  }

  /** The frame probe loop: the yield of the first candidate whose probe yields something. */
  function ProbeFrames(candidates: seq<string>, head: string -> Head): (r: Option<string>)
    ensures r.Some? && (forall k :: 0 <= k < |candidates| ==> candidates[k] != "") ==> r.value != ""
  {
    match FirstIndex(candidates, c => FrameProbeHit(head, c))
    case None => None
    case Some(k) => FrameProbe(head(candidates[k]), candidates[k])
  }

  /** The whole cascade; every step runs only when the ones before it gave nothing truthy. */
  function ResolveFrameSpec(page: PlayerPage, videoId: string, subId: string, head: string -> Head): Option<string>
  {
    var fromPost :=
      match FirstIndex(page.scripts, HasPlayerPost)
      case None => None
      case Some(k) => PlayerPostSlice(page.scripts[k].value);
    if Truthy(fromPost) then fromPost
    else
      match FirstIndex(page.iframeSrcs, IframeSrcOk)
      case Some(k) => page.iframeSrcs[k]
      case None =>
        if ScriptsFrame(page.scripts).Some? then ScriptsFrame(page.scripts)
        else ProbeFrames(FrameTemplates(videoId, subId), head)
  }

  /** A frame URL found by the cascade is never empty, so the "Could not find iframe URL" exit is taken exactly on None. */
  lemma ResolveFrameNonEmpty(page: PlayerPage, videoId: string, subId: string, head: string -> Head)
    ensures var r := ResolveFrameSpec(page, videoId, subId, head); r.Some? ==> r.value != ""
  {
  }

  /**
    Frame redirects are not validated: when the page gives nothing and the
    first template answers with a redirect to any non-empty `Location`, that
    location becomes the frame URL.
   */
  lemma FrameRedirectUnchecked(page: PlayerPage, videoId: string, subId: string, head: string -> Head, status: int, location: string)
    requires FirstIndex(page.scripts, HasPlayerPost).None?
    requires FirstIndex(page.iframeSrcs, IframeSrcOk).None?
    requires ScriptsFrame(page.scripts).None?
    requires IsRedirect(status) && location != ""
    requires head(FrameTemplates(videoId, subId)[0]) == Head(status, Some(location))
    ensures ResolveFrameSpec(page, videoId, subId, head) == Some(location)
  {
    FirstIndexIs(FrameTemplates(videoId, subId), c => FrameProbeHit(head, c), 0);
  }

  /** The source's cascade, step by step, each search loop stopping at its first hit. */
  method ResolveFrame(page: PlayerPage, videoId: string, subId: string, head: string -> Head)
    returns (frameUrl: Option<string>)
    ensures frameUrl == ResolveFrameSpec(page, videoId, subId, head)
  {
    var playerScript: Option<string> := None;
    var i := 0;
    while i < |page.scripts|
      invariant 0 <= i <= |page.scripts|
      invariant forall j :: 0 <= j < i ==> !HasPlayerPost(page.scripts[j])
    {
      if HasPlayerPost(page.scripts[i]) {
        playerScript := page.scripts[i];
        break;
      }
      i := i + 1;
    }
    if i < |page.scripts| {
      FirstIndexIs(page.scripts, HasPlayerPost, i);
    } else {
      FirstIndexNone(page.scripts, HasPlayerPost);
    }
    frameUrl := None;
    if playerScript.Some? {
      frameUrl := PlayerPostSlice(playerScript.value);
    }
    if !Truthy(frameUrl) {
      frameUrl := FirstIframe(page.iframeSrcs);
    }
    if !Truthy(frameUrl) {
      frameUrl := ScanScripts(page.scripts);
    }
    if !Truthy(frameUrl) {
      frameUrl := ProbeTemplates(FrameTemplates(videoId, subId), head);
    }
  }

  /** The `<iframe>` loop: the first `src` that passes the host filter. */
  method FirstIframe(srcs: seq<Option<string>>) returns (found: Option<string>)
    ensures match FirstIndex(srcs, IframeSrcOk)
            case None => found == None
            case Some(k) => found == srcs[k]
  {
    found := None;
    var i := 0;
    while i < |srcs|
      invariant 0 <= i <= |srcs|
      invariant forall j :: 0 <= j < i ==> !IframeSrcOk(srcs[j])
    {
      if IframeSrcOk(srcs[i]) {
        found := srcs[i];
        FirstIndexIs(srcs, IframeSrcOk, i);
        return;
      }
      i := i + 1;
    }
    FirstIndexNone(srcs, IframeSrcOk);
  }

  /** The script loop of the quoted-URL fallback. */
  method ScanScripts(scripts: seq<Option<string>>) returns (found: Option<string>)
    ensures found == ScriptsFrame(scripts)
  {
    found := None;
    var i := 0;
    while i < |scripts|
      invariant 0 <= i <= |scripts|
      invariant ScriptsFrame(scripts) == ScriptsFrame(scripts[i..])
    {
      assert scripts[i..][1..] == scripts[i + 1..];
      if Truthy(scripts[i]) {
        var m := QuotedFrom(scripts[i].value, 0, FrameHost);
        if m.Some? {
          found := m;
          return;
        }
      }
      i := i + 1;
    }
  }

  /** The probe loop over the frame templates. */
  method ProbeTemplates(candidates: seq<string>, head: string -> Head) returns (found: Option<string>)
    ensures found == ProbeFrames(candidates, head)
  {
    found := None;
    var i := 0;
    while i < |candidates|
      invariant 0 <= i <= |candidates|
      invariant forall j :: 0 <= j < i ==> !FrameProbeHit(head, candidates[j])
    {
      var h := head(candidates[i]);
      var r := FrameProbe(h, candidates[i]);
      if r.Some? {
        found := r;
        FirstIndexIs(candidates, c => FrameProbeHit(head, c), i);
        return;
      }
      i := i + 1;
    }
    FirstIndexNone(candidates, c => FrameProbeHit(head, c));
  }
}
