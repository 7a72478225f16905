/**
  `extract_video_info` put together: URL check, player page, frame URL,
  data id, frame page, manifest URL, sanitised title and subtitle. Every
  failure, raised or returned, makes the whole extraction give None.
 */
module Extraction {
  import opened Wrappers
  import opened Text
  import opened Http
  import opened PlayerUrl
  import opened FrameResolver
  import opened ManifestResolver
  import opened TitleSanitizer
  import opened Subtitle
  import opened Seqs

  /** The answer to a `session.get`: a status and the parsed page, or an exception. */
  datatype Fetched<T> = Fetched(status: int, body: T) | FetchRaised

  /** The parts of the player page used: the title element's text (None without one) and the rest. */
  datatype PlayerDoc = PlayerDoc(title: Option<string>, page: PlayerPage)

  /** The dictionary `extract_video_info` returns. */
  datatype VideoInfo = VideoInfo(
    url: string,
    videoId: string,
    subId: string,
    title: string,
    safeTitle: string,
    playerDataUrl: string,
    frameUrl: string,
    m3u8Url: string,
    subtitleUrl: Option<string>,
    filename: string)

  predicate FetchOk<T>(f: Fetched<T>) {
    f.Fetched? && !RaisesForStatus(f.status)
  }

  /** How far the extraction gets before the subtitle: everything but the subtitle URL. */
  datatype Partial = Partial(
    videoId: string, subId: string, title: string, dataId: string, frameUrl: string,
    frame: FramePage, m3u8Url: string, constructed: bool, domain: string)

  /** The steps up to and including the manifest URL; None on every exit the source takes before it. */
  function Resolve(url: string, player: Fetched<PlayerDoc>, frames: string -> Fetched<FramePage>, head: string -> Head): (r: Option<Partial>)
    ensures r.Some? ==> ValidateUrl(url) && FetchOk(player) && DataId(r.value.frameUrl) == Some(r.value.dataId)
    ensures r.Some? ==> r.value.m3u8Url != ""
    ensures r.Some? ==> r.value.title == player.body.title.GetOr(FallbackTitle(r.value.videoId, r.value.subId))
    ensures r.Some? && r.value.constructed ==> DomainField(r.value.frameUrl) == Some(r.value.domain)
    ensures r.Some? && !r.value.constructed ==> PageManifest(r.value.frame) == Some(r.value.m3u8Url)
  {
    if !ValidateUrl(url) || !FetchOk(player) then None
    else match SearchIds(url)
    case None => None
    case Some(ids) =>
      var title := player.body.title.GetOr(FallbackTitle(ids.0, ids.1));
      match ResolveFrameSpec(player.body.page, ids.0, ids.1, head)
      case None => None
      case Some(frameUrl) =>
        match DataId(frameUrl)
        case None => None
        case Some(dataId) =>
          var fetched := frames(frameUrl);
          if !FetchOk(fetched) then None
          else
            var fp := fetched.body;
            match PageManifest(fp)
            case Some(m3u8) => Some(Partial(ids.0, ids.1, title, dataId, frameUrl, fp, m3u8, false, ""))
            case None =>
              match DomainField(frameUrl)
              case None => None
              case Some(domain) =>
                match ProbeManifests(ManifestCandidates(domain, dataId), head)
                case None => None
                case Some(m3u8) =>
                  if m3u8 == "" then None
                  else Some(Partial(ids.0, ids.1, title, dataId, frameUrl, fp, m3u8, true, domain))
  }

  function Info(url: string, p: Partial, subtitle: Option<string>): VideoInfo {
    var safe := SafeTitle(p.title);
    VideoInfo(url, p.videoId, p.subId, p.title, safe, p.dataId, p.frameUrl, p.m3u8Url, subtitle, safe + ".mp4")
  }

  /**
    The subtitle step as the source has it: the fallback reads the frame
    domain, but that variable is bound only on the path that constructs the
    manifest URL; on the other path the read raises and the extraction fails.
   */
  function FinishAsWritten(url: string, p: Partial, head: string -> Head): Option<VideoInfo> {
    var track := TrackSubtitle(p.frameUrl, p.frame.trackSrc);
    if track.Some? then Some(Info(url, p, track))
    else if !p.constructed then None
    else Some(Info(url, p, ProbeSubtitles(SubtitleCandidates(p.domain, p.dataId), head)))
  }

  function ExtractAsWritten(url: string, player: Fetched<PlayerDoc>, frames: string -> Fetched<FramePage>, head: string -> Head): Option<VideoInfo> {
    var q := Resolve(url, player, frames, head);
    if q.None? then None else FinishAsWritten(url, q.value, head)
  }

  /** The frame domain on either path: the one already computed, or the same expression evaluated now. */
  function DomainFor(p: Partial): Option<string> {
    if p.constructed then Some(p.domain) else DomainField(p.frameUrl)
  }

  /** The subtitle step of the corrected extraction, once the manifest URL is known. */
  function Finish(url: string, p: Partial, head: string -> Head): (r: Option<VideoInfo>)
    ensures r.Some? ==> r.value.url == url && r.value.frameUrl == p.frameUrl && r.value.playerDataUrl == p.dataId
    ensures r.Some? ==> r.value.m3u8Url == p.m3u8Url && r.value.title == p.title
    ensures r.Some? ==> r.value.videoId == p.videoId && r.value.subId == p.subId
    ensures r.Some? ==> r.value.safeTitle == SafeTitle(p.title) && r.value.filename == r.value.safeTitle + ".mp4"
    ensures TrackSubtitle(p.frameUrl, p.frame.trackSrc).Some? ==> r == Some(Info(url, p, TrackSubtitle(p.frameUrl, p.frame.trackSrc)))
  {
    var track := TrackSubtitle(p.frameUrl, p.frame.trackSrc);
    if track.Some? then Some(Info(url, p, track))
    else
      match DomainFor(p)
      case None => None
      case Some(domain) => Some(Info(url, p, ProbeSubtitles(SubtitleCandidates(domain, p.dataId), head)))
  }

  /**
    The extraction with the frame domain available wherever the subtitle
    fallback needs it, which is what the source evidently intends.
   */
  function Extract(url: string, player: Fetched<PlayerDoc>, frames: string -> Fetched<FramePage>, head: string -> Head): (r: Option<VideoInfo>)
    ensures r.Some? ==> ValidateUrl(url) && FetchOk(player) && r.value.url == url
    ensures r.Some? ==> DataId(r.value.frameUrl) == Some(r.value.playerDataUrl)
    ensures r.Some? ==> r.value.m3u8Url != "" && r.value.filename == r.value.safeTitle + ".mp4"
    ensures r.Some? ==> r.value.safeTitle == SafeTitle(r.value.title)
    ensures r.Some? ==> r.value.title == player.body.title.GetOr(FallbackTitle(r.value.videoId, r.value.subId))
  {
    var q := Resolve(url, player, frames, head);
    if q.None? then None else Finish(url, q.value, head)
  }

  /**
    The source's failure: a manifest found on the frame page, with no usable
    `<track>`, makes the extraction fail, although the manifest is there and
    the corrected extraction returns it.
   */
  lemma DirectManifestWithoutTrackFails(url: string, player: Fetched<PlayerDoc>, frames: string -> Fetched<FramePage>, head: string -> Head)
    requires Resolve(url, player, frames, head).Some?
    requires var p := Resolve(url, player, frames, head).value;
      !p.constructed && TrackSubtitle(p.frameUrl, p.frame.trackSrc).None? && DomainField(p.frameUrl).Some?
    ensures ExtractAsWritten(url, player, frames, head).None?
    ensures Extract(url, player, frames, head).Some?
    ensures Extract(url, player, frames, head).value.m3u8Url == PageManifest(Resolve(url, player, frames, head).value.frame).value
  {
    var p := Resolve(url, player, frames, head).value;
    assert Extract(url, player, frames, head) == Finish(url, p, head);
  }

  /** A frame page with a `<source>` and nothing else: no video tags, no scripts, no `<track>`. */
  const DirectSourcePage: FramePage := FramePage(Some("https://cdn.example/v.m3u8"), [], [], None)

  /** An absolute frame URL on a player host, with the data id `abc`. */
  const DirectFrameUrl: string := "https://g.myani.app/player.php?url=abc"

  /** A player page with no scripts and one `<iframe>` pointing at that frame. */
  const DirectPlayer: Fetched<PlayerDoc> := Fetched(200, PlayerDoc(None, PlayerPage([], [Some(DirectFrameUrl)])))

  /** Every frame URL fetches the page with only a `<source>`. */
  function DirectFrames(frameUrl: string): Fetched<FramePage> {
    Fetched(200, DirectSourcePage)
  }

  /**
    The finding end to end: for every valid player URL, a player page whose
    only `<iframe>` is the absolute frame URL above and a frame page with a
    `<source>` and no `<track>` make the source's extraction give None,
    while the corrected one returns the video with that manifest.
   */
  lemma DirectSourcePageFails(url: string, head: string -> Head)
    requires ValidateUrl(url)
    ensures ExtractAsWritten(url, DirectPlayer, DirectFrames, head).None?
    ensures Extract(url, DirectPlayer, DirectFrames, head).Some?
    ensures Extract(url, DirectPlayer, DirectFrames, head).value.m3u8Url == "https://cdn.example/v.m3u8"
  {
    DirectResolves(url, head);
    DirectDomain();
    DirectManifest();
    DirectManifestWithoutTrackFails(url, DirectPlayer, DirectFrames, head);
  }

  /** The direct pages resolve to the `<source>` manifest, found on the frame page. */
  lemma DirectResolves(url: string, head: string -> Head)
    requires ValidateUrl(url)
    ensures var r := Resolve(url, DirectPlayer, DirectFrames, head);
      && r.Some? && !r.value.constructed && r.value.frameUrl == DirectFrameUrl
      && r.value.frame == DirectSourcePage && r.value.m3u8Url == "https://cdn.example/v.m3u8"
  {
    ValidUrlHasIds(url);
    var ids := SearchIds(url).value;
    DirectFrameFound(ids.0, ids.1, head);
    DirectDataId();
    DirectManifest();
  }

  /** The frame page's manifest is its `<source>`, and it offers no subtitle track. */
  lemma DirectManifest()
    ensures PageManifest(DirectSourcePage) == Some("https://cdn.example/v.m3u8")
    ensures TrackSubtitle(DirectFrameUrl, DirectSourcePage.trackSrc).None?
  {
  }

  /** The frame resolver takes the `<iframe>` of the direct player page. */
  lemma DirectFrameFound(videoId: string, subId: string, head: string -> Head)
    ensures ResolveFrameSpec(DirectPlayer.body.page, videoId, subId, head) == Some(DirectFrameUrl)
  {
    var page := DirectPlayer.body.page;
    FirstIndexNone(page.scripts, HasPlayerPost);
    assert DirectFrameUrl == "https://g." + "myani.app" + "/player.php?url=abc";
    OccursInside("https://g.", "myani.app", "/player.php?url=abc");
    ContainsAt(DirectFrameUrl, "myani.app", 10);
    assert IframeSrcOk(page.iframeSrcs[0]);
    FirstIndexIs(page.iframeSrcs, IframeSrcOk, 0);
  }

  /** The direct frame URL's data id is `abc`. */
  lemma DirectDataId()
    ensures DataId(DirectFrameUrl) == Some("abc")
  {
    var page := "https://g.myani.app/player.php";
    assert page + "?url=" + "abc" + "" == DirectFrameUrl;
    DataIdOfQuery(page, "abc", "");
  }

  /** The direct frame URL's domain field is its host. */
  lemma DirectDomain()
    ensures DomainField(DirectFrameUrl) == Some("g.myani.app")
  {
    assert "https:" + "//" + "g.myani.app" + "/" + "player.php?url=abc" == DirectFrameUrl;
    DomainFieldOfUrl("https:", "g.myani.app", "player.php?url=abc");
  }

  /**
    On every other path the two agree: whenever a `<track>` is used or the
    manifest URL was constructed, the corrected extraction is the source's.
   */
  lemma ExtractAgrees(url: string, player: Fetched<PlayerDoc>, frames: string -> Fetched<FramePage>, head: string -> Head)
    requires var r := Resolve(url, player, frames, head);
      r.Some? ==> r.value.constructed || TrackSubtitle(r.value.frameUrl, r.value.frame.trackSrc).Some?
    ensures ExtractAsWritten(url, player, frames, head) == Extract(url, player, frames, head)
  {
  }

  /** An invalid player URL is rejected before anything is fetched. */
  lemma InvalidUrlRejected(url: string, player: Fetched<PlayerDoc>, frames: string -> Fetched<FramePage>, head: string -> Head)
    requires !ValidateUrl(url)
    ensures Extract(url, player, frames, head).None?
    ensures ExtractAsWritten(url, player, frames, head).None?
  {
  }

  /** The extraction's steps with the source's loops, taking the corrected subtitle fallback. */
  method ExtractVideoInfo(url: string, player: Fetched<PlayerDoc>, frames: string -> Fetched<FramePage>, head: string -> Head)
    returns (info: Option<VideoInfo>)
    ensures info == Extract(url, player, frames, head)
  {
    info := None;
    if !ValidateUrl(url) || !FetchOk(player) { return; }
    var ids := SearchIds(url);
    if ids.None? { return; }
    var videoId, subId := ids.value.0, ids.value.1;
    var title := player.body.title.GetOr(FallbackTitle(videoId, subId));
    var frameUrl := ResolveFrame(player.body.page, videoId, subId, head);
    if frameUrl.None? { return; }
    var dataId := DataId(frameUrl.value);
    if dataId.None? { return; }
    var fetched := frames(frameUrl.value);
    if !FetchOk(fetched) { return; }
    var fp := fetched.body;
    var m3u8 := FindPageManifest(fp);
    var constructed := m3u8.None?;
    var domain := "";
    if constructed {
      var field := DomainField(frameUrl.value);
      if field.None? { return; }
      domain := field.value;
      m3u8 := ProbeManifestCandidates(ManifestCandidates(domain, dataId.value), head);
      if m3u8.None? || m3u8.value == "" { return; }
    }
    var p := Partial(videoId, subId, title, dataId.value, frameUrl.value, fp, m3u8.value, constructed, domain);
    assert Resolve(url, player, frames, head) == Some(p);
    var subtitle := TrackSubtitle(frameUrl.value, fp.trackSrc);
    if subtitle.None? {
      if !constructed {
        var field := DomainField(frameUrl.value);
        if field.None? { return; }
        domain := field.value;
      }
      subtitle := ProbeSubtitleCandidates(SubtitleCandidates(domain, dataId.value), head);
    }
    info := Some(Info(url, p, subtitle));
  }
}
