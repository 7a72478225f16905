/**
  The subtitle: the frame page's `<track>` source made absolute, otherwise
  a domain-keyed list of `.vtt` URLs probed with `HEAD`; and the name of the
  file it is saved under next to the video.
 */
module Subtitle {
  import opened Wrappers
  import opened Text
  import opened Seqs
  import opened Http

  /**
    The `<track src>` made absolute: kept when it starts with `http`, else
    put after `https://` and the third `/`-field of the frame URL. A frame URL
    with fewer than two slashes makes that index raise, which the source
    catches, leaving no subtitle.
   */
  function TrackSubtitle(frameUrl: string, trackSrc: Option<string>): (r: Option<string>)
    ensures !Truthy(trackSrc) ==> r.None?
    ensures Truthy(trackSrc) && StartsWith(trackSrc.value, "http") ==> r == trackSrc
    ensures r.Some? && !StartsWith(trackSrc.value, "http") ==>
      |Split(frameUrl, '/')| > 2 && r.value == "https://" + Split(frameUrl, '/')[2] + trackSrc.value
  {
    if !Truthy(trackSrc) then None
    else if StartsWith(trackSrc.value, "http") then trackSrc
    else
      var parts := Split(frameUrl, '/');
      if |parts| > 2 then Some("https://" + parts[2] + trackSrc.value) else None
  }

  function Vtt(prefix: string, id: string): (u: string)
    ensures EndsWith(u, id + ".vtt")
  {
    assert (prefix + id + ".vtt")[|prefix|..] == id + ".vtt";
    prefix + id + ".vtt"
  }

  /** The subtitle URLs tried when the track gave none, keyed by the frame host. */
  function SubtitleCandidates(domain: string, id: string): (r: seq<string>)
    ensures Contains(domain, "myani.app") ==> |r| == 3
    ensures !Contains(domain, "myani.app") && Contains(domain, "sub3.top") ==> |r| == 4
    ensures !Contains(domain, "myani.app") && !Contains(domain, "sub3.top") ==> |r| == 5
    ensures forall k :: 0 <= k < |r| ==> EndsWith(r[k], id + ".vtt")
  {
    if Contains(domain, "myani.app") then
      [ Vtt("https://k1.sub1.top/s/", id),
        Vtt("https://k2.sub1.top/s/", id),
        Vtt("https://sub1.top/s/", id) ]
    else if Contains(domain, "sub3.top") then
      [ Vtt("https://2.sub2.top/s/", id),
        Vtt("https://1.sub2.top/s/", id),
        Vtt("https://sub2.top/s/", id),
        Vtt("https://k1.sub1.top/s/", id) ]
    else
      [ Vtt("https://k1.sub1.top/s/", id),
        Vtt("https://2.sub2.top/s/", id),
        Vtt("https://1.sub2.top/s/", id),
        Vtt("https://sub1.top/s/", id),
        Vtt("https://sub2.top/s/", id) ]
  }

  /** The subtitle probe accepts a 200 answer only; redirects are not followed. */
  predicate SubtitleHit(head: string -> Head, url: string) {
    head(url).Head? && head(url).status == 200
  }

  /** The first candidate answering 200. */
  function ProbeSubtitles(candidates: seq<string>, head: string -> Head): (r: Option<string>)
    ensures r.Some? ==> r.value in candidates && SubtitleHit(head, r.value)
    ensures r.None? ==> forall k :: 0 <= k < |candidates| ==> !SubtitleHit(head, candidates[k])
  {
    match FirstIndex(candidates, u => SubtitleHit(head, u))
    case None => None
    case Some(k) => Some(candidates[k])
  }

  /** The source's subtitle probe loop. */
  method ProbeSubtitleCandidates(candidates: seq<string>, head: string -> Head) returns (found: Option<string>)
    ensures found == ProbeSubtitles(candidates, head)
  {
    found := None;
    var i := 0;
    while i < |candidates|
      invariant 0 <= i <= |candidates|
      invariant forall j :: 0 <= j < i ==> !SubtitleHit(head, candidates[j])
    {
      var answer := head(candidates[i]);
      if answer.Head? && answer.status == 200 {
        found := Some(candidates[i]);
        FirstIndexIs(candidates, u => SubtitleHit(head, u), i);
        return;
      }
      i := i + 1;
    }
    FirstIndexNone(candidates, u => SubtitleHit(head, u));
  }

  /** `PurePath.suffix` of a file name: from its last dot, when that dot is neither first nor last. */
  function Suffix(name: string): (r: string)
    ensures |r| <= |name| && r == name[|name| - |r|..]
  {
    var i := LastIndexOf(name, '.');
    if 0 < i < |name| - 1 then name[i..] else ""
  }

  /** `PurePath.with_suffix(suffix)` on the file name; the source never passes an empty name. */
  function WithSuffix(name: string, suffix: string): string
    requires name != ""
  {
    name[..|name| - |Suffix(name)|] + suffix
  }

  /** The subtitle file name: `with_suffix('.vtt')` of the video file `{safe_title}.mp4`. */
  function SubtitleFileName(safeTitle: string): string {
    WithSuffix(safeTitle + ".mp4", ".vtt")
  }

  /**
    The subtitle file sits beside the video under the same title with `.vtt`
    for `.mp4`; an empty title gives the hidden name `.mp4.vtt`, since for
    `.mp4` the dot is the first character and there is no suffix to replace.
   */
  lemma SubtitleFileNameIs(safeTitle: string)
    ensures safeTitle != "" ==> SubtitleFileName(safeTitle) == safeTitle + ".vtt"
    ensures safeTitle == "" ==> SubtitleFileName(safeTitle) == ".mp4.vtt"
  {
    var name := safeTitle + ".mp4";
    assert name[|name| - 4] == '.';
    assert forall i :: |name| - 4 < i < |name| ==> name[i] != '.';
    assert LastIndexOf(name, '.') == |name| - 4;
    assert name[..|name| - 4] == safeTitle;
  }
}
