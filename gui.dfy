/**
  The GUI's own logic: filtering the URLs typed into the text box, tagging
  the downloader's printed lines for the log, and the counters of the
  download worker. The widgets are outside the model; the log queue and the
  download statistics are fields of the `LinkKFGui` object.
 */
module Gui {
  import opened Wrappers
  import opened Text
  import opened PlayerUrl
  import opened Seqs

  datatype Tag = Info | Success | Error | Warning

  type LogEntry = (string, Tag)

  /**
    `re.match(r'https://linkkf\.live/player/v\d+-sub-\d+/?', url)`: the
    trailing `/?` may match nothing, so the match succeeds exactly when the
    stem does.
   */
  predicate GuiMatches(url: string) {
    StemEnd(url).Some?
  }

  /** A stripped line the filter passes over without a word: blank or a comment. */
  predicate Skipped(u: string) {
    |u| == 0 || u[0] == '#'
  }

  /** `u.endswith('/')`. */
  predicate EndsInSlash(u: string) {
    |u| > 0 && u[|u| - 1] == '/'
  }

  /** The URL with its trailing slash, added if missing. */
  function WithSlash(u: string): (r: string)
    ensures EndsInSlash(u) ==> r == u
    ensures !EndsInSlash(u) ==> r == u + "/"
  {
    if EndsInSlash(u) then u else u + "/"
  }

  /** The result always ends in a slash, only a slash is ever added, and adding it twice changes nothing. */
  lemma WithSlashEnds(u: string)
    ensures EndsInSlash(WithSlash(u))
    ensures WithSlash(u) == u || WithSlash(u) == u + "/"
    ensures StartsWith(WithSlash(u), u)
    ensures WithSlash(WithSlash(u)) == WithSlash(u)
  {
    assert WithSlash(u)[..|u|] == u;
  }

  /** `s + t` ends with `t`. */
  lemma EndsWithAppended(s: string, t: string)
    ensures EndsWith(s + t, t)
  {
    assert (s + t)[|s + t| - |t|..] == t;
  }

  const InvalidPrefix: string := "█ 잘못된 대상: "

  /** What `validate_urls` makes of one line: the URL it keeps, if any. */
  function Kept(raw: string): (r: Option<string>)
    ensures r.Some? <==> !Skipped(Strip(raw)) && GuiMatches(Strip(raw))
  {
    var u := Strip(raw);
    if !Skipped(u) && GuiMatches(u) then Some(WithSlash(u)) else None
  }

  /** What `validate_urls` logs for one line: a warning exactly when it is neither skipped nor matched. */
  function Complaint(raw: string): (r: seq<LogEntry>)
    ensures |r| <= 1
    ensures |r| == 1 <==> !Skipped(Strip(raw)) && !GuiMatches(Strip(raw))
  {
    var u := Strip(raw);
    if !Skipped(u) && !GuiMatches(u) then [(InvalidPrefix + u, Warning)] else []
  }

  function KeptList(raw: string): seq<string> {
    match Kept(raw)
    case Some(v) => [v]
    case None => []
  }

  /** What `validate_urls` returns. */
  function ValidUrls(urls: seq<string>): (r: seq<string>)
    ensures |r| <= |urls|
    decreases |urls|
  {
    if |urls| == 0 then [] else ValidUrls(urls[..|urls| - 1]) + KeptList(urls[|urls| - 1])
  }

  /** What `validate_urls` puts on the log queue: one warning per rejected line. */
  function Warnings(urls: seq<string>): (r: seq<LogEntry>)
    ensures forall k :: 0 <= k < |r| ==> r[k].1 == Warning && StartsWith(r[k].0, InvalidPrefix)
    decreases |urls|
  {
    if |urls| == 0 then [] else Warnings(urls[..|urls| - 1]) + Complaint(urls[|urls| - 1])
  }

  /** The number of blank and comment lines. */
  function SkippedCount(urls: seq<string>): (c: nat)
    ensures c <= |urls|
    decreases |urls|
  {
    if |urls| == 0 then 0
    else SkippedCount(urls[..|urls| - 1]) + (if Skipped(Strip(urls[|urls| - 1])) then 1 else 0)
  }

  /** Every line is accounted for exactly once: kept, warned about, or passed over. */
  lemma {:induction false} EveryLineAccounted(urls: seq<string>)
    ensures |ValidUrls(urls)| + |Warnings(urls)| + SkippedCount(urls) == |urls|
    decreases |urls|
  {
    if |urls| > 0 { EveryLineAccounted(urls[..|urls| - 1]); }
  }

  /** A blank or comment line changes neither the result nor the log. */
  lemma SkippedSilently(urls: seq<string>, i: nat)
    requires i < |urls| && Skipped(Strip(urls[i]))
    ensures ValidUrls(urls[..i + 1]) == ValidUrls(urls[..i])
    ensures Warnings(urls[..i + 1]) == Warnings(urls[..i])
  {
    assert urls[..i + 1][..i] == urls[..i];
  }

  /** A matching line comes out stripped, with its slash, after the ones before it, and is not logged. */
  lemma KeptLine(urls: seq<string>, i: nat)
    requires i < |urls| && !Skipped(Strip(urls[i])) && GuiMatches(Strip(urls[i]))
    ensures ValidUrls(urls[..i + 1]) == ValidUrls(urls[..i]) + [WithSlash(Strip(urls[i]))]
    ensures Warnings(urls[..i + 1]) == Warnings(urls[..i])
  {
    assert urls[..i + 1][..i] == urls[..i];
  }

  /** Any other line is dropped with one warning that names it. */
  lemma RejectedLine(urls: seq<string>, i: nat)
    requires i < |urls| && !Skipped(Strip(urls[i])) && !GuiMatches(Strip(urls[i]))
    ensures ValidUrls(urls[..i + 1]) == ValidUrls(urls[..i])
    ensures Warnings(urls[..i + 1]) == Warnings(urls[..i]) + [(InvalidPrefix + Strip(urls[i]), Warning)]
  {
    assert urls[..i + 1][..i] == urls[..i];
  }

  /** Adding the slash keeps the stem where it was. */
  lemma StemEndSlash(u: string)
    requires StemEnd(u).Some?
    ensures StemEnd(u + "/") == StemEnd(u)
  {
    StemEndShape(u);
    var m: nat, n: nat :| StemShape(u, m, n);
    var a := |PlayerPrefix|;
    var v := u + "/";
    assert v[..|u|] == u;
    assert StartsWith(v, PlayerPrefix) by { assert v[..a] == u[..a]; }
    assert v[a + m..a + m + 5] == u[a + m..a + m + 5];
    assert StemShape(v, m, n);
    StemEndOfShape(v, m, n);
  }

  /** A kept URL is in its final form: no surrounding whitespace, the stem, a trailing slash. */
  predicate Normalised(v: string) {
    Strip(v) == v && !Skipped(v) && GuiMatches(v) && EndsInSlash(v)
  }

  lemma WithSlashNormalised(u: string)
    requires Strip(u) == u && !Skipped(u) && GuiMatches(u)
    ensures Normalised(WithSlash(u))
  {
    if !EndsInSlash(u) {
      StemEndSlash(u);
      SlashKeepsStripped(u);
      assert (u + "/")[0] == u[0];
    }
  }

  /** A stripped URL stays stripped when the slash is added. */
  lemma SlashKeepsStripped(u: string)
    requires Strip(u) == u && |u| > 0
    ensures Strip(u + "/") == u + "/"
  {
    var v := u + "/";
    assert !IsSpace(u[0]) && !IsSpace(u[|u| - 1]) by {
      var lo, hi := StripByShape(u, IsSpace);
      assert u[lo..hi] == u;
    }
    assert v[0] == u[0] && v[|v| - 1] == '/';
    StripByUnchanged(v, IsSpace);
  }

  lemma KeptNormalised(raw: string)
    requires Kept(raw).Some?
    ensures Normalised(Kept(raw).value)
  {
    StripIdempotent(raw);
    WithSlashNormalised(Strip(raw));
  }

  /** Every URL `validate_urls` returns is in final form. */
  lemma {:induction false} ValidUrlsNormalised(urls: seq<string>)
    ensures forall k :: 0 <= k < |ValidUrls(urls)| ==> Normalised(ValidUrls(urls)[k])
    decreases |urls|
  {
    if |urls| > 0 {
      var init := urls[..|urls| - 1];
      var last := urls[|urls| - 1];
      ValidUrlsNormalised(init);
      if Kept(last).Some? { KeptNormalised(last); }
      var r := ValidUrls(urls);
      assert r == ValidUrls(init) + KeptList(last);
      forall k | 0 <= k < |r| ensures Normalised(r[k]) {
        if k >= |ValidUrls(init)| { assert r[k] == Kept(last).value; }
      }
    }
  }

  /** A URL in final form passes the filter unchanged and silently. */
  lemma NormalisedKept(v: string)
    requires Normalised(v)
    ensures Kept(v) == Some(v) && Complaint(v) == []
  {
  }

  /** Filtering a filtered list changes nothing and logs nothing. */
  lemma ValidUrlsIdempotent(urls: seq<string>)
    ensures ValidUrls(ValidUrls(urls)) == ValidUrls(urls)
    ensures Warnings(ValidUrls(urls)) == []
  {
    ValidUrlsNormalised(urls);
    FilteredUnchanged(ValidUrls(urls));
  }

  lemma {:induction false} FilteredUnchanged(vs: seq<string>)
    requires forall k :: 0 <= k < |vs| ==> Normalised(vs[k])
    ensures ValidUrls(vs) == vs && Warnings(vs) == []
    decreases |vs|
  {
    if |vs| > 0 {
      var init := vs[..|vs| - 1];
      var v := vs[|vs| - 1];
      SplitLast(vs);
      assert forall k :: 0 <= k < |init| ==> Normalised(init[k]) by {
        forall k | 0 <= k < |init| ensures Normalised(init[k]) { assert init[k] == vs[k]; }
      }
      FilteredUnchanged(init);
      NormalisedKept(v);
    }
  }

  const Placeholder: string := "# 대상 URL"

  /** `[line.strip() for line in text.split('\n') if line.strip()]`. */
  function NonBlankLines(lines: seq<string>): (r: seq<string>)
    ensures forall k :: 0 <= k < |r| ==> r[k] != ""
    decreases |lines|
  {
    if |lines| == 0 then []
    else
      var u := Strip(lines[|lines| - 1]);
      NonBlankLines(lines[..|lines| - 1]) + (if u != "" then [u] else [])
  }

  /** Whether the text box still shows its placeholder. */
  predicate ShowsPlaceholder(text: string) {
    StartsWith(Strip(text), Placeholder)
  }

  /** What `get_urls_from_text` returns. */
  function UrlsFromText(text: string): (r: seq<string>)
    ensures ShowsPlaceholder(text) ==> r == []
  {
    if ShowsPlaceholder(text) then [] else ValidUrls(NonBlankLines(Split(text, '\n')))
  }

  /** What `get_urls_from_text` logs. */
  function TextWarnings(text: string): (r: seq<LogEntry>)
    ensures ShowsPlaceholder(text) ==> r == []
  {
    if ShowsPlaceholder(text) then [] else Warnings(NonBlankLines(Split(text, '\n')))
  }

  /** Every URL taken from the text box is in final form. */
  lemma UrlsFromTextNormalised(text: string)
    ensures forall k :: 0 <= k < |UrlsFromText(text)| ==> Normalised(UrlsFromText(text)[k])
  {
    if !ShowsPlaceholder(text) { ValidUrlsNormalised(NonBlankLines(Split(text, '\n'))); }
  }

  /** The tag `custom_print` gives a printed message: the first rule that matches wins. */
  function LogTag(message: string): (t: Tag)
    ensures t == Success <==> Contains(message, "✅") || Contains(message, "🎉")
    ensures t == Error <==>
      (!(Contains(message, "✅") || Contains(message, "🎉")) &&
       (Contains(message, "❌") || Contains(message, "Error") || Contains(message, "Failed")))
  {
    if Contains(message, "✅") || Contains(message, "🎉") then Success
    else if Contains(message, "❌") || Contains(message, "Error") || Contains(message, "Failed") then Error
    else if Contains(message, "⚠️") || Contains(message, "Warning") then Warning
    else Info
  }

  /** Warning and Info split what is left: a warning sign or word makes a warning. */
  lemma LogTagWarning(message: string)
    requires LogTag(message) != Success && LogTag(message) != Error
    ensures LogTag(message) == Warning <==> Contains(message, "⚠️") || Contains(message, "Warning")
    ensures LogTag(message) == Info <==> !Contains(message, "⚠️") && !Contains(message, "Warning")
  {
  }

  /** A success mark wins over everything, even an error word in the same message. */
  lemma SuccessWins(a: string, b: string)
    ensures LogTag(a + "✅" + b) == Success
  {
    ContainsAt(a + "✅" + b, "✅", |a|);
    assert (a + "✅" + b)[|a|..|a| + 1] == "✅";
  }

  /** `' '.join(str(arg) for arg in args)`, tagged. */
  function Printed(args: seq<string>): LogEntry {
    var message := Join(args, ' ');
    (message, LogTag(message))
  }

  function PrintedAll(lines: seq<string>): (r: seq<LogEntry>)
    ensures |r| == |lines| && forall k :: 0 <= k < |lines| ==> r[k] == Printed([lines[k]])
  {
    seq(|lines|, k requires 0 <= k < |lines| => (lines[k], LogTag(lines[k])))
  }

  /**
    What one call of `download_with_logging` comes to: the lines the
    downloader printed, then its answer or the exception's text.
   */
  datatype Attempt = Finished(printed: seq<string>, ok: bool) | Raised(printed: seq<string>, error: string)

  predicate Succeeded(a: Attempt) {
    a.Finished? && a.ok
  }

  /** `대상_{id}_{sub}` from the URL, or `대상_{i}` with the one-based position. */
  function WorkerTitle(url: string, i: nat): string {
    match SearchIds(url)
    case Some(ids) => "대상_" + ids.0 + "_" + ids.1
    case None => "대상_" + Decimal(i)
  }

  /** The verdict line that closes one item's entries. */
  function Outcome(title: string, a: Attempt): LogEntry {
    match a
    case Finished(_, ok) => if ok then ("█ 해킹 성공: " + title, Success) else ("█ 해킹 실패: " + title, Error)
    case Raised(_, e) => ("█ 시스템 오류 " + title + ": " + e, Error)
  }

  /** The line that opens item `j` (zero-based) of `n`. */
  function StartLine(title: string, j: nat, n: nat): string {
    "█ 해킹 시작 " + Decimal(j + 1) + "/" + Decimal(n) + ": " + title
  }

  /** The queue entries of item `j` (zero-based) of `n`. */
  function ItemLog(url: string, j: nat, n: nat, a: Attempt): seq<LogEntry> {
    var title := WorkerTitle(url, j + 1);
    [(StartLine(title, j, n), Info), ("█ 대상 URL: " + url, Info)] + PrintedAll(a.printed) + [Outcome(title, a)]
  }

  lemma StartLineShape(title: string, j: nat, n: nat)
    ensures StartsWith(StartLine(title, j, n), "█ 해킹 시작 ") && EndsWith(StartLine(title, j, n), title)
  {
    var start := "█ 해킹 시작 " + Decimal(j + 1) + "/" + Decimal(n) + ": ";
    assert StartLine(title, j, n) == start + title;
    assert (start + title)[..|"█ 해킹 시작 "|] == "█ 해킹 시작 ";
    EndsWithAppended(start, title);
  }

  lemma OutcomeShape(title: string, a: Attempt)
    ensures Outcome(title, a).1 == Success <==> Succeeded(a)
    ensures Outcome(title, a).1 == Success || Outcome(title, a).1 == Error
    ensures a.Finished? ==> EndsWith(Outcome(title, a).0, title)
    ensures a.Raised? ==> EndsWith(Outcome(title, a).0, ": " + a.error)
  {
    match a {
      case Finished(_, ok) =>
        EndsWithAppended(if ok then "█ 해킹 성공: " else "█ 해킹 실패: ", title);
      case Raised(_, e) =>
        assert "█ 시스템 오류 " + title + ": " + e == ("█ 시스템 오류 " + title) + (": " + e);
        EndsWithAppended("█ 시스템 오류 " + title, ": " + e);
    }
  }

  /**
    One item's entries: the start line naming its title, the URL line, each
    printed line with its own tag and in its order, and last the verdict,
    tagged success exactly when the download succeeded and error otherwise.
   */
  lemma ItemLogShape(url: string, j: nat, n: nat, a: Attempt)
    ensures var item := ItemLog(url, j, n, a);
      var m := |a.printed|;
      var title := WorkerTitle(url, j + 1);
      && |item| == m + 3
      && item[0].1 == Info && StartsWith(item[0].0, "█ 해킹 시작 ") && EndsWith(item[0].0, title)
      && item[1] == ("█ 대상 URL: " + url, Info)
      && (forall k :: 0 <= k < m ==> item[2 + k] == (a.printed[k], LogTag(a.printed[k])))
      && (item[m + 2].1 == Success <==> Succeeded(a))
      && (item[m + 2].1 == Success || item[m + 2].1 == Error)
      && (a.Finished? ==> EndsWith(item[m + 2].0, title))
      && (a.Raised? ==> EndsWith(item[m + 2].0, ": " + a.error))
  {
    var title := WorkerTitle(url, j + 1);
    var printed := PrintedAll(a.printed);
    EntriesAt((StartLine(title, j, n), Info), ("█ 대상 URL: " + url, Info), printed, Outcome(title, a));
    StartLineShape(title, j, n);
    OutcomeShape(title, a);
  }

  /** Where the four parts of an item's entries land. */
  lemma EntriesAt(first: LogEntry, second: LogEntry, middle: seq<LogEntry>, last: LogEntry)
    ensures var all := [first, second] + middle + [last];
      && |all| == |middle| + 3 && all[0] == first && all[1] == second && all[|middle| + 2] == last
      && forall k :: 0 <= k < |middle| ==> all[2 + k] == middle[k]
  {
  }

  /** The queue entries of the first `k` items. */
  function WorkerLog(urls: seq<string>, attempts: nat -> Attempt, k: nat): seq<LogEntry>
    requires k <= |urls|
    decreases k
  {
    if k == 0 then [] else WorkerLog(urls, attempts, k - 1) + ItemLog(urls[k - 1], k - 1, |urls|, attempts(k - 1))
  }

  /** How many of the first `k` items succeeded. */
  function Successes(attempts: nat -> Attempt, k: nat): (c: nat)
    ensures c <= k
  {
    if k == 0 then 0 else Successes(attempts, k - 1) + (if Succeeded(attempts(k - 1)) then 1 else 0)
  }

  /** How many items the worker starts: it stops at the first check that finds the flag cleared. */
  function RunLength(running: bool, stopRequested: nat -> bool, n: nat, i: nat): (r: nat)
    requires i <= n
    ensures i <= r <= n || (!running && r == i)
    decreases n - i
  {
    if !running || i == n then i
    else if stopRequested(i) then i
    else RunLength(running, stopRequested, n, i + 1)
  }

  /** The worker starts item `j` exactly when no stop came before or at its check. */
  lemma {:induction false} RunLengthFirst(running: bool, stopRequested: nat -> bool, n: nat, i: nat)
    requires i <= n
    ensures var r := RunLength(running, stopRequested, n, i);
      (forall j :: i <= j < r ==> running && !stopRequested(j)) &&
      (r < n ==> !running || stopRequested(r))
    decreases n - i
  {
    if running && i < n && !stopRequested(i) { RunLengthFirst(running, stopRequested, n, i + 1); }
  }

  /**
    The entries one item puts on the queue, in the order they are put: the
    two announcements, whatever the download printed, then the verdict.
   */
  method ReportAttempt(url: string, j: nat, n: nat, a: Attempt) returns (item: seq<LogEntry>)
    ensures item == ItemLog(url, j, n, a)
  {
    var title := WorkerTitle(url, j + 1);
    item := [("█ 해킹 시작 " + Decimal(j + 1) + "/" + Decimal(n) + ": " + title, Info)];
    item := item + [("█ 대상 URL: " + url, Info)];
    item := item + PrintedAll(a.printed);
    match a {
      case Finished(_, ok) =>
        if ok {
          item := item + [("█ 해킹 성공: " + title, Success)];
        } else {
          item := item + [("█ 해킹 실패: " + title, Error)];
        }
      case Raised(_, e) =>
        item := item + [("█ 시스템 오류 " + title + ": " + e, Error)];
    }
  }

  lemma RunLengthStep(running: bool, stopRequested: nat -> bool, n: nat, i: nat)
    requires running && i < n && !stopRequested(i)
    ensures RunLength(running, stopRequested, n, i) == RunLength(running, stopRequested, n, i + 1)
  {
  }

  lemma RunLengthHere(running: bool, stopRequested: nat -> bool, n: nat, i: nat)
    requires i <= n && (!running || i == n || stopRequested(i))
    ensures RunLength(running, stopRequested, n, i) == i
  {
  }

  class LinkKFGui {
    var isDownloading: bool
    var logQueue: seq<LogEntry>
    var total: nat
    var completed: nat
    var failed: nat
    var current: string

    /** The counters never count more items than there are. */
    predicate CountersValid()
      reads this
    {
      completed + failed <= total
    }

    constructor ()
      ensures !isDownloading && logQueue == [] && total == 0 && completed == 0 && failed == 0 && current == ""
      ensures CountersValid()
    {
      isDownloading := false;
      logQueue := [];
      total, completed, failed := 0, 0, 0;
      current := "";
    }

    /** `validate_urls`. */
    method ValidateUrls(urls: seq<string>) returns (valid: seq<string>)
      modifies this`logQueue
      ensures valid == ValidUrls(urls)
      ensures logQueue == old(logQueue) + Warnings(urls)
    {
      var log: seq<LogEntry> := [];
      valid := [];
      var i := 0;
      while i < |urls|
        invariant i <= |urls|
        invariant valid == ValidUrls(urls[..i])
        invariant log == Warnings(urls[..i])
        invariant logQueue == old(logQueue)
      {
        var url := Strip(urls[i]);
        if |url| == 0 || url[0] == '#' {
          SkippedSilently(urls, i);
        } else if GuiMatches(url) {
          KeptLine(urls, i);
          if !EndsInSlash(url) {
            url := url + "/";
          }
          valid := valid + [url];
        } else {
          RejectedLine(urls, i);
          log := log + [(InvalidPrefix + url, Warning)];
        }
        i := i + 1;
      }
      assert urls[..i] == urls;
      logQueue := logQueue + log;
    }

    /** `get_urls_from_text`, on the text box's content. */
    method GetUrlsFromText(text: string) returns (urls: seq<string>)
      modifies this`logQueue
      ensures urls == UrlsFromText(text)
      ensures logQueue == old(logQueue) + TextWarnings(text)
    {
      if StartsWith(Strip(text), Placeholder) {
        return [];
      }
      var lines := Split(text, '\n');
      var kept := [];
      var i := 0;
      while i < |lines|
        invariant i <= |lines|
        invariant kept == NonBlankLines(lines[..i])
      {
        assert lines[..i + 1][..i] == lines[..i];
        if Strip(lines[i]) != "" {
          kept := kept + [Strip(lines[i])];
        }
        i := i + 1;
      }
      assert lines[..i] == lines;
      urls := ValidateUrls(kept);
    }

    /** `custom_print`: the message joined, tagged, queued. */
    method CustomPrint(args: seq<string>)
      modifies this`logQueue
      ensures logQueue == old(logQueue) + [Printed(args)]
    {
      var message := Join(args, ' ');
      var tag: Tag;
      if Contains(message, "✅") || Contains(message, "🎉") {
        tag := Success;
      } else if Contains(message, "❌") || Contains(message, "Error") || Contains(message, "Failed") {
        tag := Error;
      } else if Contains(message, "⚠️") || Contains(message, "Warning") {
        tag := Warning;
      } else {
        tag := Info;
      }
      logQueue := logQueue + [(message, tag)];
    }

    /**
      `download_worker`: every started item is counted once, as completed or
      failed, and nothing is started after a check finds the flag cleared.
      `stopRequested(j)` says whether the stop button cleared the flag before
      the check of item `j`; `attempts(j)` is that item's download.
     */
    method DownloadWorker(urls: seq<string>, attempts: nat -> Attempt, stopRequested: nat -> bool)
      returns (processed: nat)
      modifies this
      ensures processed == RunLength(old(isDownloading), stopRequested, |urls|, 0)
      ensures total == |urls| && completed == Successes(attempts, processed) && completed + failed == processed
      ensures CountersValid()
      ensures logQueue == old(logQueue) + WorkerLog(urls, attempts, processed)
      ensures isDownloading == (old(isDownloading) && processed == |urls|)
      ensures current == ""
    {
      ghost var running := isDownloading;
      var entries: seq<LogEntry> := [];
      total, completed, failed := |urls|, 0, 0;
      processed := 0;
      while processed < |urls|
        invariant processed <= |urls| && total == |urls|
        invariant RunLength(running, stopRequested, |urls|, 0) == RunLength(running, stopRequested, |urls|, processed)
        invariant isDownloading == running
        invariant completed == Successes(attempts, processed) && completed + failed == processed
        invariant entries == WorkerLog(urls, attempts, processed)
        invariant logQueue == old(logQueue)
      {
        if stopRequested(processed) {
          isDownloading := false;
        }
        if !isDownloading {
          RunLengthHere(running, stopRequested, |urls|, processed);
          break;
        }
        RunLengthStep(running, stopRequested, |urls|, processed);
        var url := urls[processed];
        var title := WorkerTitle(url, processed + 1);
        current := title;
        var a := attempts(processed);
        var item := ReportAttempt(url, processed, |urls|, a);
        if Succeeded(a) {
          completed := completed + 1;
        } else {
          failed := failed + 1;
        }
        assert completed == Successes(attempts, processed + 1) && completed + failed == processed + 1;
        entries := entries + item;
        processed := processed + 1;
      }
      if processed == |urls| {
        RunLengthHere(running, stopRequested, |urls|, processed);
      }
      logQueue := logQueue + entries;
      current := "";
    }
  }
}
