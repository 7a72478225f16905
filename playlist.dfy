/**
  Reading the segment list out of an M3U8 playlist: each `#EXTINF:` line sets
  the duration of the segments after it, each other non-comment line is a
  segment URI, resolved against the playlist URL. Durations are of any type
  `D`: `parse` is the source's `float(...)` (None where it raises) and `dflt`
  its default 5.0.
 */
module Playlist {
  import opened Wrappers
  import opened Text
  import Urls
  import opened Seqs

  /** `m3u8_url.rsplit('/', 1)[0] + '/'`: the URL up to its last slash, or the URL and a slash without one. */
  function BasePath(url: string): (r: string)
    ensures EndsWith(r, "/")
  {
    var k := LastIndexOf(url, '/');
    if k < 0 then url + "/" else url[..k + 1]
  }

  /** The base of a playlist in a directory is that directory. */
  lemma BasePathOf(dir: string, name: string)
    requires '/' !in name
    ensures BasePath(dir + "/" + name) == dir + "/"
  {
    var u := dir + "/" + name;
    assert u[|dir|] == '/';
    forall i | |dir| < i < |u| ensures u[i] != '/' { assert u[i] == name[i - |dir| - 1]; }
    assert LastIndexOf(u, '/') == |dir| by {
      var k := LastIndexOf(u, '/');
      assert k >= 0 by { assert u[|dir|] == '/'; }
    }
    assert u[..|dir| + 1] == dir + "/";
  }

  /** A URL without a slash keeps all of it as its base. */
  lemma BasePathNoSlash(url: string)
    requires '/' !in url
    ensures BasePath(url) == url + "/"
  {
  }

  predicate IsExtinf(line: string) {
    StartsWith(line, "#EXTINF:")
  }

  /** An `#EXTINF:` line is a tag line, so never a segment line. */
  lemma ExtinfIsTag(line: string)
    requires IsExtinf(line)
    ensures StartsWith(line, "#")
  {
    assert line[..1] == line[..8][..1];
  }

  /** A stripped line that names a segment: not empty and not a tag or comment. */
  predicate IsSegmentLine(line: string) {
    line != "" && !StartsWith(line, "#")
  }

  /** `line.split(':')[1].split(',')[0]`: the duration text of an `#EXTINF:` line. */
  function ExtinfToken(line: string): (r: string)
    requires IsExtinf(line)
    ensures ':' !in r && ',' !in r
  {
    SplitAt(line, "#EXTINF", line[8..], ':');
    Split(Split(line, ':')[1], ',')[0]
  }

  /** The token is read from what follows the tag's colon. */
  lemma ExtinfTokenTail(line: string)
    requires IsExtinf(line)
    ensures ExtinfToken(line) == Split(Split(line[8..], ':')[0], ',')[0]
  {
    SplitAt(line, "#EXTINF", line[8..], ':');
  }

  /** The text before the first comma of `d,rest`, with neither separator in `d`, is `d`. */
  lemma FirstField(d: string, rest: string)
    requires ':' !in d && ',' !in d
    ensures Split(Split(d + "," + rest, ':')[0], ',')[0] == d
  {
    var tail := d + "," + rest;
    forall i | 0 <= i < |d| + 1 ensures tail[i] != ':' {
      if i < |d| { assert tail[i] == d[i]; } else { assert tail[i] == ','; }
    }
    SplitHead(tail, ':', |d| + 1);
    var head := Split(tail, ':')[0];
    assert head == d + [','] + head[|d| + 1..] by {
      assert head == tail[..|head|];
    }
    SplitAt(head, d, head[|d| + 1..], ',');
  }

  /** The token of `#EXTINF:<d>,<title>` is `d` whenever `d` holds neither separator. */
  lemma ExtinfTokenOf(d: string, rest: string)
    requires ':' !in d && ',' !in d
    ensures IsExtinf("#EXTINF:" + d + "," + rest)
    ensures ExtinfToken("#EXTINF:" + d + "," + rest) == d
  {
    var line := "#EXTINF:" + d + "," + rest;
    assert line[..8] == "#EXTINF:" && line[8..] == d + "," + rest;
    ExtinfTokenTail(line);
    FirstField(d, rest);
  }

  /** The duration an `#EXTINF:` line sets: its parsed token, or the default where parsing fails. */
  function ExtinfDuration<D>(line: string, parse: string -> Option<D>, dflt: D): D
    requires IsExtinf(line)
  {
    parse(ExtinfToken(line)).GetOr(dflt)
  }

  /**
    `urljoin` for the three kinds of URI a playlist holds: absolute ones are
    kept, root-relative ones go to the playlist's scheme and host, the rest
    to its directory.
   */
  function SegmentUrl(url: string, line: string): (r: string)
    ensures StartsWith(line, "http") ==> r == line
    ensures !StartsWith(line, "http") && StartsWith(line, "/") ==> r == Urls.Origin(url) + line
    ensures !StartsWith(line, "http") && !StartsWith(line, "/") ==> r == BasePath(url) + line
    ensures EndsWith(r, line)
  {
    if StartsWith(line, "http") then line
    else if StartsWith(line, "/") then Urls.Origin(url) + line
    else BasePath(url) + line
  }

  /** A relative segment line of a playlist in a directory names a file in that directory. */
  lemma SegmentUrlRelative(dir: string, name: string, line: string)
    requires '/' !in name && !StartsWith(line, "http") && !StartsWith(line, "/")
    ensures SegmentUrl(dir + "/" + name, line) == dir + "/" + line
  {
    BasePathOf(dir, name);
  }

  /** A root-relative segment line of an `https` playlist keeps the playlist's host and replaces its path. */
  lemma SegmentUrlRootRelative(host: string, rest: string, path: string)
    requires forall i :: 0 <= i < |host| ==> !Urls.EndsNetloc(host[i])
    ensures SegmentUrl("https://" + host + "/" + rest, "/" + path) == "https://" + host + "/" + path
  {
    var url := "https://" + host + "/" + rest;
    var line := "/" + path;
    assert !StartsWith(line, "http") by { assert line[0] == '/'; }
    assert StartsWith(line, "/") by { assert line[..1] == "/"; }
    assert SegmentUrl(url, line) == Urls.Origin(url) + line;
    Urls.HttpsOrigin(host, rest);
    assert ("https://" + host) + line == "https://" + host + "/" + path;
  }

  /** What the loop has built so far: the segments, their durations and the current duration. */
  datatype Parsed<D> = Parsed(segments: seq<string>, durations: seq<D>, current: D)

  /** One turn of the loop, on one raw line. */
  function Step<D>(p: Parsed<D>, raw: string, url: string, parse: string -> Option<D>, dflt: D): Parsed<D> {
    var line := Strip(raw);
    var cur := if IsExtinf(line) then ExtinfDuration(line, parse, dflt) else p.current;
    if IsSegmentLine(line) then Parsed(p.segments + [SegmentUrl(url, line)], p.durations + [cur], cur)
    else Parsed(p.segments, p.durations, cur)
  }

  /** The loop over `lines`, from the start. */
  function ParseLines<D>(lines: seq<string>, url: string, parse: string -> Option<D>, dflt: D): Parsed<D>
    decreases |lines|
  {
    if |lines| == 0 then Parsed([], [], dflt)
    else Step(ParseLines(lines[..|lines| - 1], url, parse, dflt), lines[|lines| - 1], url, parse, dflt)
  }

  /** The stripped segment lines, in order: the reference the parse is measured against. */
  function SegmentLines(lines: seq<string>): (r: seq<string>)
    ensures |r| <= |lines|
    ensures forall k :: 0 <= k < |r| ==> IsSegmentLine(r[k])
    decreases |lines|
  {
    if |lines| == 0 then []
    else
      var line := Strip(lines[|lines| - 1]);
      SegmentLines(lines[..|lines| - 1]) + (if IsSegmentLine(line) then [line] else [])
  }

  /** The raw line, stripped, is an `#EXTINF:` tag. */
  predicate ExtinfLine(raw: string) {
    IsExtinf(Strip(raw))
  }

  /** The duration in force after `lines`: the last `#EXTINF:` line's, or the default before any. */
  ghost predicate DurationAfter<D>(lines: seq<string>, parse: string -> Option<D>, dflt: D, d: D) {
    (NoneIn(lines, ExtinfLine, 0, |lines|) ==> d == dflt) &&
    forall j :: 0 <= j < |lines| && ExtinfLine(lines[j]) && NoneIn(lines, ExtinfLine, j + 1, |lines|) ==>
      d == ExtinfDuration(Strip(lines[j]), parse, dflt)
  }

  /** One segment and one duration per segment line, each segment its line resolved. */
  lemma {:induction false} ParseLinesSegments<D>(lines: seq<string>, url: string, parse: string -> Option<D>, dflt: D)
    ensures var p := ParseLines(lines, url, parse, dflt);
      |p.segments| == |p.durations| == |SegmentLines(lines)| &&
      forall k :: 0 <= k < |p.segments| ==> p.segments[k] == SegmentUrl(url, SegmentLines(lines)[k])
    decreases |lines|
  {
    if |lines| > 0 {
      var n := |lines| - 1;
      ParseLinesSegments(lines[..n], url, parse, dflt);
    }
  }

  /** After the loop the current duration is the one in force after the last line read. */
  lemma {:induction false} ParseLinesCurrent<D>(lines: seq<string>, url: string, parse: string -> Option<D>, dflt: D)
    ensures DurationAfter(lines, parse, dflt, ParseLines(lines, url, parse, dflt).current)
    decreases |lines|
  {
    if |lines| > 0 {
      var n := |lines| - 1;
      var init := lines[..n];
      ParseLinesCurrent(init, url, parse, dflt);
      var q := ParseLines(init, url, parse, dflt);
      var cur := ParseLines(lines, url, parse, dflt).current;
      var line := Strip(lines[n]);
      assert cur == if IsExtinf(line) then ExtinfDuration(line, parse, dflt) else q.current;
      if IsExtinf(line) {
        DurationAfterExtinf(lines, parse, dflt);
      } else {
        DurationAfterOther(lines, parse, dflt, q.current);
      }
    }
  }

  /** An `#EXTINF:` line sets the duration in force after it. */
  lemma DurationAfterExtinf<D>(lines: seq<string>, parse: string -> Option<D>, dflt: D)
    requires |lines| > 0 && ExtinfLine(lines[|lines| - 1])
    ensures DurationAfter(lines, parse, dflt, ExtinfDuration(Strip(lines[|lines| - 1]), parse, dflt))
  {
    var n := |lines| - 1;
    var d := ExtinfDuration(Strip(lines[n]), parse, dflt);
    LastMarked(lines, ExtinfLine);
    forall j | 0 <= j < |lines| && ExtinfLine(lines[j]) && NoneIn(lines, ExtinfLine, j + 1, |lines|)
      ensures d == ExtinfDuration(Strip(lines[j]), parse, dflt)
    {
      assert j == n;
    }
  }

  /** Any other line leaves the duration in force as it was. */
  lemma DurationAfterOther<D>(lines: seq<string>, parse: string -> Option<D>, dflt: D, d: D)
    requires |lines| > 0 && !ExtinfLine(lines[|lines| - 1])
    requires DurationAfter(lines[..|lines| - 1], parse, dflt, d)
    ensures DurationAfter(lines, parse, dflt, d)
  {
    var n := |lines| - 1;
    LastUnmarked(lines, ExtinfLine);
    forall j | 0 <= j < |lines| && ExtinfLine(lines[j]) && NoneIn(lines, ExtinfLine, j + 1, |lines|)
      ensures d == ExtinfDuration(Strip(lines[j]), parse, dflt)
    {
      assert lines[..n][j] == lines[j];
    }
  }

  /** Parsing more lines only adds to the segments and durations already found. */
  lemma {:induction false} ParseLinesPrefix<D>(lines: seq<string>, i: nat, url: string, parse: string -> Option<D>, dflt: D)
    requires i <= |lines|
    ensures var p := ParseLines(lines, url, parse, dflt);
      var q := ParseLines(lines[..i], url, parse, dflt);
      q.segments <= p.segments && q.durations <= p.durations
    decreases |lines|
  {
    if i < |lines| {
      var init := lines[..|lines| - 1];
      assert init[..i] == lines[..i];
      ParseLinesPrefix(init, i, url, parse, dflt);
    } else {
      assert lines[..i] == lines;
    }
  }

  /**
    The duration recorded for the segment on line `i` is the one set by the
    last `#EXTINF:` line above it, or the default when there is none.
   */
  lemma SegmentDuration<D>(lines: seq<string>, i: nat, url: string, parse: string -> Option<D>, dflt: D)
    requires i < |lines| && IsSegmentLine(Strip(lines[i]))
    ensures var p := ParseLines(lines, url, parse, dflt);
      var k := |SegmentLines(lines[..i])|;
      k < |p.durations| && DurationAfter(lines[..i], parse, dflt, p.durations[k])
  {
    var before := lines[..i];
    ParseLinesCounts(before, url, parse, dflt);
    ParseLinesCurrent(before, url, parse, dflt);
    RecordedDuration(lines, i, url, parse, dflt);
  }

  /** The segment and duration counts both equal the number of segment lines. */
  lemma {:induction false} ParseLinesCounts<D>(lines: seq<string>, url: string, parse: string -> Option<D>, dflt: D)
    ensures var p := ParseLines(lines, url, parse, dflt);
      |p.segments| == |p.durations| == |SegmentLines(lines)|
    decreases |lines|
  {
    if |lines| > 0 {
      ParseLinesCounts(lines[..|lines| - 1], url, parse, dflt);
    }
  }

  /** The whole parse keeps, at the next index, the duration in force before segment line `i`. */
  lemma RecordedDuration<D>(lines: seq<string>, i: nat, url: string, parse: string -> Option<D>, dflt: D)
    requires i < |lines| && IsSegmentLine(Strip(lines[i]))
    ensures var p := ParseLines(lines, url, parse, dflt);
      var q := ParseLines(lines[..i], url, parse, dflt);
      |q.durations| < |p.durations| && p.durations[|q.durations|] == q.current
  {
    var q := ParseLines(lines[..i], url, parse, dflt);
    var r := ParseLines(lines[..i + 1], url, parse, dflt);
    SegmentLineRecords(lines, i, url, parse, dflt);
    ParseLinesPrefix(lines, i + 1, url, parse, dflt);
    assert r.durations[|q.durations|] == q.current;
  }

  /** Reading a segment line records the duration in force before it. */
  lemma SegmentLineRecords<D>(lines: seq<string>, i: nat, url: string, parse: string -> Option<D>, dflt: D)
    requires i < |lines| && IsSegmentLine(Strip(lines[i]))
    ensures var q := ParseLines(lines[..i], url, parse, dflt);
      ParseLines(lines[..i + 1], url, parse, dflt).durations == q.durations + [q.current]
  {
    var upto := lines[..i + 1];
    assert upto[..i] == lines[..i] && upto[i] == lines[i];
    var q := ParseLines(lines[..i], url, parse, dflt);
    assert ParseLines(upto, url, parse, dflt) == Step(q, lines[i], url, parse, dflt);
    if IsExtinf(Strip(lines[i])) { ExtinfIsTag(Strip(lines[i])); }
  }

  /** The segment loop of `download_m3u8_advanced`, over `playlist.split('\n')`. */
  method ParsePlaylist<D>(content: string, url: string, parse: string -> Option<D>, dflt: D)
    returns (segments: seq<string>, durations: seq<D>)
    ensures var p := ParseLines(Split(content, '\n'), url, parse, dflt);
      segments == p.segments && durations == p.durations
  {
    var lines := Split(content, '\n');
    segments, durations := [], [];
    var current := dflt;
    var i := 0;
    while i < |lines|
      invariant i <= |lines|
      invariant Parsed(segments, durations, current) == ParseLines(lines[..i], url, parse, dflt)
    {
      assert lines[..i + 1][..i] == lines[..i];
      var line := Strip(lines[i]);
      if IsExtinf(line) {
        current := ExtinfDuration(line, parse, dflt);
      }
      if IsSegmentLine(line) {
        segments := segments + [SegmentUrl(url, line)];
        durations := durations + [current];
      }
      i := i + 1;
    }
    assert lines[..i] == lines;
  }

  /** The first segment, lowered, ends in an image extension: the stream is a slideshow. */
  predicate IsImageBased(segments: seq<string>) {
    |segments| > 0 &&
    var first := Lower(segments[0]);
    EndsWith(first, ".jpg") || EndsWith(first, ".png") || EndsWith(first, ".jpeg")
  }

  /** The file extension a segment is saved under. */
  function SegmentExtension(segmentUrl: string): (ext: string)
    ensures ext == ".jpg" || ext == ".png" || ext == ".ts"
  {
    var u := Lower(segmentUrl);
    if EndsWith(u, ".jpg") || EndsWith(u, ".jpeg") then ".jpg"
    else if EndsWith(u, ".png") then ".png"
    else ".ts"
  }

  /** In a slideshow the first segment is saved as an image; otherwise it is saved as a transport stream. */
  lemma ImageBasedExtension(segments: seq<string>)
    requires |segments| > 0
    ensures IsImageBased(segments) <==> SegmentExtension(segments[0]) != ".ts"
  {
  }

  /** `f"segment_{index:05d}{ext}"`. */
  function SegmentFileName(index: nat, segmentUrl: string): (r: string)
    ensures StartsWith(r, "segment_") && EndsWith(r, SegmentExtension(segmentUrl))
  {
    "segment_" + Format05d(index) + SegmentExtension(segmentUrl)
  }

  /** Below 100000 every name has the same shape: the prefix, five digits, the extension. */
  lemma SegmentFileNameFixed(index: nat, segmentUrl: string)
    requires index < 100000
    ensures SegmentFileName(index, segmentUrl) == "segment_" + Fixed(index, 5) + SegmentExtension(segmentUrl)
    ensures |SegmentFileName(index, segmentUrl)| == 13 + |SegmentExtension(segmentUrl)|
  {
    Format05dFixed(index);
  }
}
