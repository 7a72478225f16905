/**
  `download_segment_advanced`: one segment, tried with each of the first
  three browser profiles until one gets a non-HTML answer whose body lands
  in a non-empty file. The answers are an oracle indexed by profile.
 */
module SegmentDownload {
  import opened Wrappers
  import opened Text
  import opened Http
  import opened Seqs
  import opened ManifestFetch
  import opened Playlist

  /**
    What one profile's try comes to: the final status, the Content-Type
    header if any, and whether the file exists and is non-empty after
    writing; or an exception anywhere in the try.
   */
  datatype SegmentReply = SegmentReply(status: int, contentType: Option<string>, written: bool) | SegmentRaised

  /** The try that returns the file: no exception, no error status, no HTML, a non-empty file. */
  predicate SegmentOk(r: SegmentReply) {
    r.SegmentReply? && !RaisesForStatus(r.status) && !Contains(Lower(r.contentType.GetOr("")), "html") && r.written
  }

  /** `browser_profiles[:3]`. */
  const SegmentProfiles: nat := 3

  function Replies(fetch: nat -> SegmentReply): (r: seq<SegmentReply>)
    ensures |r| == SegmentProfiles && forall p :: 0 <= p < SegmentProfiles ==> r[p] == fetch(p)
  {
    [fetch(0), fetch(1), fetch(2)]
  }

  /** The tuple the worker returns: the file and its duration, or the error text. */
  datatype Outcome<D> = Saved(name: string, duration: D) | Failed(error: string)

  /** The headers of profile `p`'s try: the playlist headers with a random six-digit request id. */
  function RequestHeaders(p: nat, referer: Option<string>, m3u8Url: string, requestId: nat -> nat): Headers
    requires p < SegmentProfiles
  {
    AdvancedHeaders(BrowserProfiles[p], referer, m3u8Url)[XRequestId := Decimal(100000 + requestId(p) % 900000)]
  }

  /** A segment request carries a six-digit request id, the profile's User-Agent, the origin, and a Referer exactly when one is given. */
  lemma RequestHeadersFields(p: nat, referer: Option<string>, m3u8Url: string, requestId: nat -> nat)
    requires p < SegmentProfiles
    ensures var h := RequestHeaders(p, referer, m3u8Url, requestId);
      XRequestId in h && |h[XRequestId]| == 6 &&
      UserAgent in h && h[UserAgent] == BrowserProfiles[p].userAgent &&
      Origin in h && h[Origin] == Urls.Origin(m3u8Url) &&
      (Referer in h <==> Truthy(referer))
  {
    SixDigits(100000 + requestId(p) % 900000);
    AdvancedHeadersFields(BrowserProfiles[p], referer, m3u8Url);
  }

  lemma {:induction false} DecimalLength(n: nat, w: nat)
    requires Pow10(w) <= n < Pow10(w + 1)
    ensures |Decimal(n)| == w + 1
  {
    if w > 0 {
      assert Pow10(w - 1) <= n / 10 < Pow10(w);
      DecimalLength(n / 10, w - 1);
    }
  }

  lemma SixDigits(n: nat)
    requires 100000 <= n <= 999999
    ensures |Decimal(n)| == 6
  {
    assert Pow10(5) == 100000 && Pow10(6) == 1000000;
    DecimalLength(n, 5);
  }

  /** The outcome of one segment's download. */
  function Download<D>(index: nat, segmentUrl: string, durations: seq<D>, fetch: nat -> SegmentReply): (r: Outcome<D>)
    requires index < |durations|
    ensures r.Saved? <==> exists p :: 0 <= p < SegmentProfiles && SegmentOk(fetch(p))
    ensures r.Saved? ==> r.name == SegmentFileName(index, segmentUrl) && r.duration == durations[index]
    ensures r.Failed? ==> r.error == "All profiles failed for segment " + Decimal(index)
  {
    match FirstIndex(Replies(fetch), SegmentOk)
    case Some(_) => Saved(SegmentFileName(index, segmentUrl), durations[index])
    case None =>
      assert forall p :: 0 <= p < SegmentProfiles ==> !SegmentOk(Replies(fetch)[p]);
      Failed("All profiles failed for segment " + Decimal(index))
  }

  /** How many profiles are tried: up to the first that succeeds, or all three. */
  function TriesMade(fetch: nat -> SegmentReply): (n: nat)
    ensures 1 <= n <= SegmentProfiles
  {
    match FirstIndex(Replies(fetch), SegmentOk)
    case Some(p) => p + 1
    case None => SegmentProfiles
  }

  /**
    The worker, try by try; `tried` is the profiles tried, in order, and try
    `p` sends `RequestHeaders(p, ...)`.
   */
  method DownloadSegment<D>(index: nat, segmentUrl: string, durations: seq<D>, fetch: nat -> SegmentReply)
    returns (outcome: Outcome<D>, tried: seq<Profile>)
    requires index < |durations|
    ensures outcome == Download(index, segmentUrl, durations, fetch)
    ensures |tried| == TriesMade(fetch)
    ensures tried == BrowserProfiles[..|tried|]
  {
    tried := [];
    var p := 0;
    while p < SegmentProfiles
      invariant p <= SegmentProfiles && tried == BrowserProfiles[..p]
      invariant forall q :: 0 <= q < p ==> !SegmentOk(Replies(fetch)[q])
    {
      assert BrowserProfiles[..p + 1] == BrowserProfiles[..p] + [BrowserProfiles[p]];
      tried := tried + [BrowserProfiles[p]];
      var reply := fetch(p);
      if reply.SegmentReply? && !RaisesForStatus(reply.status) {
        var contentType := Lower(reply.contentType.GetOr(""));
        if !Contains(contentType, "html") && reply.written {
          FirstIndexIs(Replies(fetch), SegmentOk, p);
          outcome := Saved(SegmentFileName(index, segmentUrl), durations[index]);
          return;
        }
      }
      p := p + 1;
    }
    FirstIndexNone(Replies(fetch), SegmentOk);
    outcome := Failed("All profiles failed for segment " + Decimal(index));
  }
}
