# LinkKF downloader — a Dafny model

This project models the decision logic of the LinkKF downloader. The
downloader is a Python program. It takes a LinkKF player-page URL, works out
where the page's video frame lives, finds the frame's HLS manifest
(`.m3u8`), downloads the playlist and its segments, and asks ffmpeg to join
them into an MP4. A Tkinter front end filters a list of URLs, runs the
downloader on each one and colours its log lines.

The model keeps each step's strings, lists and branches: the URL patterns,
the frame and manifest templates, the title sanitiser, the header sets, the
playlist parser, the result aggregation and the ffmpeg inputs, along with the
GUI's URL filter, log classifier and worker loop. The network, the file
system and the random numbers are parameters. A HEAD answer per URL, a GET
answer per attempt, a segment reply per browser profile, a random request id
and an `onDisk` test (standing for `Path.exists()`) stand for them. Python floats are a type parameter `D`,
with a `parse` and a `show` function and the default duration `dflt`.

Modules, in pipeline order:

- `Wrappers`, `Text`, `Seqs`, `Scan`, `Http`, `Urls` model Python's string
  operations (`find`, slicing, `strip`, `split`, `join`, `lower`, `%05d`),
  the quoted-string scans behind the regexes, the HTTP status tests, and
  `urlparse`'s scheme and netloc.
- `PlayerUrl` covers URL validation, the id search, the fallback title and
  the `url=` parameter of a frame URL.
- `FrameResolver` finds the frame URL: the `player_post` slice, then
  iframes, then script literals, then the probed templates.
- `ManifestResolver` finds the manifest URL: the page's `source`, then
  `video`, then scripts, then the domain templates, the suffix mutations and
  the redirect-checked probe.
- `TitleSanitizer` is the file-name sanitiser.
- `Subtitle` covers the subtitle track, the candidates and the `.vtt` path.
- `Extraction` is `extract_video_info` as a whole.
- `ManifestFetch` covers headers, content classification and the nine
  playlist attempts.
- `Playlist` covers the base path, segment resolution, durations and segment
  file names.
- `SegmentDownload`, `Aggregation` and `Assembly` cover one segment's
  download, the pool's results, the success gate and sort, and the ffmpeg
  inputs.
- `Gui` holds the front end's pure helpers and the `LinkKFGui` class with
  its log queue and download counters.

## Model

| member | source | states |
|---|---|---|
| PlayerUrl.StemEndShape | linkkf_downloader.py:64-65 | the pattern's stem matches exactly when the URL is `https://linkkf.live/player/v`, a run of digits, `-sub-` and a run of digits, and the match ends after the second digit run |
| PlayerUrl.ValidateUrlIff | linkkf_downloader.py:64-65 | `validate_url` accepts a URL if and only if the stem is followed directly by `/` |
| PlayerUrl.ValidateUrlExtends | linkkf_downloader.py:64-65 | `re.match` anchors only at the start: anything appended to a valid URL leaves it valid |
| PlayerUrl.ValidUrlHasIds | linkkf_downloader.py:90-96 | on a valid URL the `v(\d+)-sub-(\d+)` search succeeds, and its two groups are the stem's two digit runs |
| PlayerUrl.FallbackTitle | linkkf_downloader.py:104 | the title used without a title element is `video_`, then the video id at offset 6, then `_` and the sub id |
| PlayerUrl.DataIdOfQuery | linkkf_downloader.py:237-239 | the `url=` value of a query is read back up to the next `&` or the end of the string |
| FrameResolver.PlayerPostSlice | linkkf_downloader.py:128-135 | the slice exists exactly when the script contains `.click`, and is stripped of quotes at both ends |
| FrameResolver.PlayerPostSliceWellFormed | linkkf_downloader.py:131-135 | with the first `.click`, the first `player_post` after it and the first comma after that in place, the frame URL is the text from 13 past `player_post` to the character before the comma |
| FrameResolver.PlayerPostSliceMissingMarkers | linkkf_downloader.py:131-135 | when both `player_post` and the comma are missing, `find`'s -1 makes the slice `[12:-2]`, or empty for short scripts |
| FrameResolver.PlayerPostSliceNoPost | linkkf_downloader.py:131-135 | when `player_post` is missing but a comma follows position 12, the slice runs from 12 to the character before that comma |
| FrameResolver.PlayerPostSliceNoComma | linkkf_downloader.py:131-135 | when `player_post` is found but no comma follows it, the slice runs from 13 past `player_post` to two before the end |
| FrameResolver.ScriptsFrame | linkkf_downloader.py:152-173 | a frame URL found in a script literal is non-empty and names `myani.app`, `sub3.top` or `.php` |
| FrameResolver.FrameTemplatesDataIds | linkkf_downloader.py:180-186 | the five guessed frame URLs carry `url=` values `<id>n<sub>`, `<id>s<sub>`, `<id>s<sub>`, `<id>s<sub>` and `<id>n<sub>` in that order |
| FrameResolver.ResolveFrameNonEmpty | linkkf_downloader.py:128-212 | a frame URL the four strategies produce is never empty |
| FrameResolver.FrameRedirectUnchecked | linkkf_downloader.py:202-207 | when every earlier strategy fails, whatever Location the first template redirects to becomes the frame URL |
| FrameResolver.ResolveFrame | linkkf_downloader.py:110-212 | the strategy-by-strategy search returns what the reference definition of the four strategies gives |
| FrameResolver.FirstIframe | linkkf_downloader.py:143-149 | the iframe scan returns the source of the first iframe whose source names an accepted host |
| FrameResolver.ScanScripts | linkkf_downloader.py:154-173 | the script scan returns the reference script-literal result |
| FrameResolver.ProbeTemplates | linkkf_downloader.py:188-210 | the probing loop returns the first successful probe of the templates |
| ManifestResolver.VideoSource | linkkf_downloader.py:269-281 | a manifest taken from a `video` element is a non-empty source containing `.m3u8` or starting with `http` |
| ManifestResolver.ScriptsManifest | linkkf_downloader.py:284-305 | a manifest taken from a script contains `.m3u8` |
| ManifestResolver.PageManifest | linkkf_downloader.py:261-305 | a truthy `source` element wins outright, and any manifest found on the frame page is non-empty |
| ManifestResolver.FindPageManifest | linkkf_downloader.py:261-305 | the loops over `source`, `video` and script elements return the reference page result |
| ManifestResolver.DomainFieldOfUrl | linkkf_downloader.py:315 | for `scheme//host/rest` the domain is the host |
| ManifestResolver.Sub3BaseIdStrips | linkkf_downloader.py:330 | an id ending in `n1`, `s1`, `n2` or `s2` loses exactly that suffix |
| ManifestResolver.Sub3BaseIdKeeps | linkkf_downloader.py:330 | an id whose last character is neither `1` nor `2` is kept whole |
| ManifestResolver.Sub3Alternate | linkkf_downloader.py:330-343 | the ninth and tenth `sub3.top` templates use the base id (stripped when it ends in `n1`, `s1`, `n2` or `s2`) with `s1` when the id contains `n1` anywhere, and with `n1` otherwise; each of the five id shapes is stated |
| ManifestResolver.MyaniTemplatesEmbedId | linkkf_downloader.py:319-326 | every `myani.app` template embeds the data id |
| ManifestResolver.Sub3TemplatesEmbedId | linkkf_downloader.py:332-340 | the first eight `sub3.top` templates embed the data id |
| ManifestResolver.GenericTemplatesEmbedId | linkkf_downloader.py:347-355 | every generic template embeds the data id |
| ManifestResolver.SuffixMutations | linkkf_downloader.py:358-377 | ids ending in `n1`..`n6` get seven extra candidates, ids ending in `s1`..`s6` get three, and all others get none |
| ManifestResolver.EndsWithLetterDigitIff | linkkf_downloader.py:358-372 | the suffix test is the same as the id ending in the letter followed by a digit from 1 to 6 |
| ManifestResolver.NMutationsEmbedTwin | linkkf_downloader.py:358-369 | every `n` mutation embeds the id with its `n` swapped for `s` |
| ManifestResolver.SMutationsEmbedTwin | linkkf_downloader.py:370-377 | every `s` mutation embeds the id with its `s` swapped for `n` |
| ManifestResolver.ManifestCandidatesOrder | linkkf_downloader.py:312-421 | probing the full list gives the first domain template that answers, and reaches the suffix variants only when no domain template answers |
| ManifestResolver.ManifestProbe | linkkf_downloader.py:380-421 | 200 accepts the candidate; a redirect is accepted only when its target avoids the deny list, looks like a manifest and answers 200 itself |
| ManifestResolver.VettedRedirectAccepted | linkkf_downloader.py:394-412 | conversely, a redirect whose target avoids the deny list, looks like a manifest and answers 200 is accepted as that target |
| ManifestResolver.ProbeManifestsSafe | linkkf_downloader.py:380-421 | a probed manifest is a candidate, or else a vetted redirect target that answers 200 |
| ManifestResolver.DeniedRedirectRejected | linkkf_downloader.py:401-404 | a redirect to any host containing `google.com` (in any letter case) is never accepted |
| ManifestResolver.ProbeManifestCandidates | linkkf_downloader.py:380-421 | the probing loop returns the reference probe result |
| TitleSanitizer.ReplaceIllegal | linkkf_downloader.py:428 | each of `< > : " / \ | ? *` becomes `_`, and every other character is kept in place |
| TitleSanitizer.Collapse | linkkf_downloader.py:429 | collapsing leaves no two adjacent run characters, introduces no new characters, and is empty only for empty input |
| TitleSanitizer.CollapseRun | linkkf_downloader.py:429 | a non-empty run of space or underscore characters becomes the single replacement character |
| TitleSanitizer.CollapseAround | linkkf_downloader.py:429 | a character outside the run class is kept in place, and the text on either side is collapsed on its own |
| TitleSanitizer.CollapseUnchanged | linkkf_downloader.py:429 | a title with no two adjacent run characters, each already the replacement, is unchanged |
| TitleSanitizer.CollapseIdempotent | linkkf_downloader.py:439 | collapsing twice gives the same result as collapsing once |
| TitleSanitizer.RemoveApostrophes | linkkf_downloader.py:438 | the result has no apostrophe, keeps only characters of the input, and leaves an apostrophe-free title unchanged |
| TitleSanitizer.RemoveApostrophesAppend | linkkf_downloader.py:438 | removal distributes over concatenation, so every other character is kept in order |
| TitleSanitizer.RemoveApostrophesChar | linkkf_downloader.py:438 | a single apostrophe is dropped and any other single character is kept |
| TitleSanitizer.DropLinkkfRemoves | linkkf_downloader.py:430-431 | a trailing `linkkf`, in any case and with its surrounding spaces, is removed and the rest is kept exactly |
| TitleSanitizer.DropLinkkfKeeps | linkkf_downloader.py:430 | a title that does not end in `linkkf` (in any case) before its trailing whitespace is returned unchanged |
| TitleSanitizer.DropSubtitleMark | linkkf_downloader.py:434 | a trailing `-자막` is removed, and every other title is unchanged |
| TitleSanitizer.Truncate | linkkf_downloader.py:440 | the result is a prefix of at most 100 characters, exactly 100 for longer titles, and a short title is unchanged |
| TitleSanitizer.SafeTitleIsSafe | linkkf_downloader.py:428-441 | a sanitised title has no illegal character and no apostrophe, no two adjacent spaces, no edge spaces, and at most 100 characters |
| TitleSanitizer.FinishIsSafe | linkkf_downloader.py:438-441 | the last three steps keep a legal string legal and make it safe in the same sense |
| Subtitle.TrackSubtitle | linkkf_downloader.py:445-457 | a `track` source starting with `http` is taken as is; a relative one is prefixed with `https://` and the third `/`-piece of the frame URL; if there is no such piece, there is no subtitle |
| Subtitle.SubtitleCandidates | linkkf_downloader.py:464-487 | three, four or five candidates by frame domain, each ending in `<data id>.vtt` |
| Subtitle.ProbeSubtitles | linkkf_downloader.py:489-506 | a found subtitle is a candidate answering 200; none is found only when no candidate answers 200 |
| Subtitle.ProbeSubtitleCandidates | linkkf_downloader.py:489-506 | the probing loop returns the reference probe result |
| Subtitle.SubtitleFileNameIs | linkkf_downloader.py:1150 | the subtitle file is the video name with `.mp4` replaced by `.vtt` |
| Extraction.Resolve | linkkf_downloader.py:78-421 | a resolved video has a valid URL, a player page that loaded, a frame URL whose `url=` value is the data id, a non-empty manifest URL and the page title or the fallback title |
| Extraction.Finish | linkkf_downloader.py:443-519 | the info record copies the resolved fields, its file name is the safe title plus `.mp4`, and a track subtitle wins |
| Extraction.Extract | linkkf_downloader.py:67-539 | video info is returned only for a valid URL and a loaded page; its manifest URL is non-empty, its `url=` value agrees and its file name is sanitised |
| Extraction.InvalidUrlRejected | linkkf_downloader.py:78-80 | an invalid URL yields no video info |
| Extraction.ExtractAgrees | linkkf_downloader.py:308-519 | the code as written and the corrected definition agree whenever the manifest was constructed or a track subtitle exists |
| Extraction.DirectManifestWithoutTrackFails | linkkf_downloader.py:315 | a manifest found on the frame page with no track subtitle makes the code as written return nothing, while the corrected definition returns the info |
| Extraction.DirectSourcePageFails | linkkf_downloader.py:466 | for every valid player URL, a player page whose only iframe is `https://g.myani.app/player.php?url=abc` and whose frame page has a direct `source` element and no track makes the as-written extraction fail, while the corrected one returns that manifest |
| Extraction.ExtractVideoInfo | linkkf_downloader.py:67-539 | the extraction method computes the corrected `Extract` |
| ManifestFetch.BaseHeadersFields | linkkf_downloader.py:588-600 | the base headers are exactly the eleven fixed names, with the profile's User-Agent and Accept-Language |
| ManifestFetch.AdvancedHeadersFields | linkkf_downloader.py:586-610 | the profile's User-Agent and Accept-Language are kept; Referer is present, with the given value, exactly when a referer is given; Origin is the manifest's `scheme://netloc` |
| ManifestFetch.AdvancedHeadersKeys | linkkf_downloader.py:586-610 | the header names are the fixed eleven plus Origin, plus Referer when one is given |
| ManifestFetch.CountryOverlayFields | linkkf_downloader.py:680-685 | the overlay adds the four bypass headers, sets the country and its language, and keeps every other header |
| ManifestFetch.BypassHeadersFields | linkkf_downloader.py:676-685 | a bypass attempt sends the profile's User-Agent and the Origin with the country and its language, and a Referer exactly when one is given |
| ManifestFetch.BypassHeadersKeys | linkkf_downloader.py:676-685 | a bypass request names the fixed headers, Origin, Referer when given, and the four bypass headers, and nothing else |
| ManifestFetch.ClassifyIgnoresCase | linkkf_downloader.py:612-623 | classification does not depend on letter case |
| ManifestFetch.ClassifyPlaylist | linkkf_downloader.py:614-617 | content that starts with `#EXTM3U` after leading whitespace, in any case, is a playlist |
| ManifestFetch.ClassifyPage | linkkf_downloader.py:618-619 | content that starts with `<html` or `<!doctype html` is HTML |
| ManifestFetch.ClassifyBlockedIff | linkkf_downloader.py:620-623 | content that is neither a playlist nor HTML is blocked if and only if it mentions `google.com` or `cloudflare` |
| ManifestFetch.FirstAcceptedFirst | linkkf_downloader.py:631-710 | the attempt chosen is accepted, and all earlier attempts were rejected; with none chosen, every attempt was rejected |
| ManifestFetch.FetchSpecFirst | linkkf_downloader.py:631-714 | the playlist comes from the first of the nine attempts that returns 200 with playlist content |
| ManifestFetch.BypassOnlyAfterProfiles | linkkf_downloader.py:670 | the CloudFlare bypass is used only when all five profiles failed |
| ManifestFetch.BypassUsesChrome | linkkf_downloader.py:672-685 | bypass attempt `k` uses the Chrome profile and country `KR`, `US`, `JP` or `SG` in order |
| ManifestFetch.ProfileAttemptIs | linkkf_downloader.py:631-634 | profile attempt `k` sends the advanced headers of the `k`-th browser profile |
| ManifestFetch.TryProfiles | linkkf_downloader.py:631-667 | the profile loop stops at the first accepted attempt; it makes the first attempts in order, one per profile tried |
| ManifestFetch.TryBypass | linkkf_downloader.py:670-710 | the country loop finds the first accepted bypass attempt, making the bypass attempts in order, one per country tried |
| ManifestFetch.FetchPlaylist | linkkf_downloader.py:625-716 | the fetched playlist is the first accepted answer and the method names it; with none, nothing is fetched after nine attempts |
| Urls.OriginAt | linkkf_downloader.py:607-608 | the origin of `scheme://netloc...` is the lowercased scheme, `://` and the netloc up to `/`, `?` or `#` |
| Urls.SchemeOf | linkkf_downloader.py:607 | a leading letter-started scheme before `:` is recognised and lowercased |
| Playlist.BasePath | linkkf_downloader.py:720 | the base path always ends in `/` |
| Playlist.BasePathOf | linkkf_downloader.py:720 | the base path of `dir/name` is `dir/` |
| Playlist.BasePathNoSlash | linkkf_downloader.py:720 | a URL without `/` gets `/` appended |
| Playlist.ExtinfTokenOf | linkkf_downloader.py:731-734 | the duration text of `#EXTINF:<d>,<rest>` is `d` |
| Playlist.ExtinfTokenTail | linkkf_downloader.py:733 | the token is the first `,`-piece of the second `:`-piece |
| Playlist.SegmentUrlRelative | linkkf_downloader.py:741-753 | a relative line is joined to the manifest URL's directory |
| Playlist.SegmentUrlRootRelative | linkkf_downloader.py:741-753 | a line starting with `/` is joined to the manifest URL's `https` origin |
| Playlist.ParseLinesSegments | linkkf_downloader.py:724-756 | one segment and one duration per non-blank, non-`#` line, each segment that line resolved |
| Playlist.ParseLinesCurrent | linkkf_downloader.py:725-736 | the duration in force is that of the last `#EXTINF:` line (5.0 if it fails to parse), or 5.0 before any |
| Playlist.SegmentDuration | linkkf_downloader.py:724-756 | each segment's duration is the one in force on the line that names it |
| Playlist.ParsePlaylist | linkkf_downloader.py:724-756 | the parsing loop over `split('\n')` computes the reference parse |
| Playlist.SegmentExtension | linkkf_downloader.py:790-795 | a segment file is `.jpg`, `.png` or `.ts` |
| Playlist.ImageBasedExtension | linkkf_downloader.py:764-768 | a stream is image based exactly when its first segment would be saved as an image |
| Playlist.SegmentFileNameFixed | linkkf_downloader.py:797 | below index 100000 the segment file is `segment_`, five zero-padded digits and the extension |
| SegmentDownload.RequestHeadersFields | linkkf_downloader.py:802-805 | each try sends the profile's User-Agent, the Origin, a Referer exactly when one is given, and a six-digit `X-Request-ID` |
| SegmentDownload.Download | linkkf_downloader.py:786-842 | a segment is saved exactly when one of the first three profiles gets a non-HTML answer and a non-empty file; the result carries the segment's own name and duration, or the fixed error text |
| SegmentDownload.DownloadSegment | linkkf_downloader.py:800-842 | the try loop computes `Download` and tries the browser profiles in order, as many as `Download` needed |
| Aggregation.CollectResults | linkkf_downloader.py:853-862 | the `as_completed` loop keeps the saved pairs in arrival order and counts the failures; together these cover every result |
| Aggregation.SavedPlusFailed | linkkf_downloader.py:853-862 | saved plus failed is the number of segments |
| Aggregation.PassesIff | linkkf_downloader.py:876-885 | with at least one segment the merge goes ahead exactly when at least 60% were saved |
| Aggregation.SavedOfPermutation | linkkf_downloader.py:853-858 | the arrival order changes the order of the saved pairs but never which pairs are saved |
| Aggregation.SortByNameCorrect | linkkf_downloader.py:888-891 | sorting by file name gives a name-ordered permutation of the pairs |
| Aggregation.SortedUnique | linkkf_downloader.py:888-891 | when names are distinct there is only one name-ordered arrangement |
| Aggregation.SortRestoresOrder | linkkf_downloader.py:853-891 | below 100000 segments, sorting by name restores the playlist order of the saved files and keeps each duration with its file, in whatever order they arrived |
| Aggregation.NameOrderBreaks | linkkf_downloader.py:797 | at 100000 segments the names stop following the indices: `segment_100000` sorts before `segment_99999` |
| Assembly.FfmpegCommandFirst | linkkf_downloader.py:930-941 | the command is the first existing executable in the order beside the script, then the working directory, and plain `ffmpeg` from the PATH otherwise |
| Assembly.FfmpegCommandExists | linkkf_downloader.py:1030-1041 | the chosen command exists, or it is the bare `ffmpeg` |
| Assembly.WriteFileList | linkkf_downloader.py:946-950 | the concat list is one `file '<path>'` line per segment, in order |
| Assembly.FileListReadBack | linkkf_downloader.py:946-950 | read back, the list holds exactly those lines, when no path contains a newline |
| Assembly.ImageNamesDistinct | linkkf_downloader.py:1054 | below 100000 images, no two copies share a name |
| Assembly.ImageScriptNamesCopies | linkkf_downloader.py:1052-1073 | image `i` is copied from its own file, the script names exactly the copy of image `i` on line `2i`, in order, and its closing line names the last copy again |
| Assembly.ImageScriptShape | linkkf_downloader.py:1064-1073 | the script names image `i` on line `2i` with its own duration on the next line, and repeats the last image at the end |
| Assembly.WriteImageScript | linkkf_downloader.py:1064-1073 | the writing loop produces the script's lines, each followed by a newline |
| Assembly.ImageScriptReadBack | linkkf_downloader.py:1064-1073 | read back, the script holds exactly its lines |
| Gui.WithSlashEnds | linkkf_gui.py:502-503 | the result ends in `/`, extends the URL by at most that `/`, and adding it again changes nothing |
| Gui.Warnings | linkkf_gui.py:505-506 | every warning is tagged `warning` and starts with `█ 잘못된 대상: ` |
| Gui.EveryLineAccounted | linkkf_gui.py:496-506 | every line is kept, warned about or skipped, and only one of these |
| Gui.SkippedSilently | linkkf_gui.py:498-499 | blank and comment lines change neither the result nor the log |
| Gui.KeptLine | linkkf_gui.py:501-504 | a matching line is appended in its place with the slash, and nothing is logged |
| Gui.RejectedLine | linkkf_gui.py:505-506 | a non-matching line adds exactly one warning naming it, and no URL |
| Gui.ValidUrlsNormalised | linkkf_gui.py:491-508 | every returned URL is stripped, not a comment, matches the pattern and ends in `/` |
| Gui.NormalisedKept | linkkf_gui.py:496-504 | a normalised URL passes the filter unchanged and silently |
| Gui.ValidUrlsIdempotent | linkkf_gui.py:491-508 | filtering the filtered list changes nothing and logs nothing |
| Gui.FilteredUnchanged | linkkf_gui.py:491-508 | a list of normalised URLs is its own filtered list |
| Gui.UrlsFromText | linkkf_gui.py:510-520 | a box that still shows the `# 대상 URL` placeholder yields no URLs |
| Gui.TextWarnings | linkkf_gui.py:514-515 | the placeholder box yields no warnings either |
| Gui.UrlsFromTextNormalised | linkkf_gui.py:510-520 | every URL taken from the box is normalised |
| Gui.LogTag | linkkf_gui.py:594-601 | a message is `success` exactly when it holds ✅ or 🎉, and `error` exactly when it holds none of those but ❌, `Error` or `Failed` |
| Gui.LogTagWarning | linkkf_gui.py:598-601 | otherwise it is `warning` exactly when it holds ⚠️ or `Warning`, and `info` exactly when it does not |
| Gui.SuccessWins | linkkf_gui.py:594-595 | a ✅ anywhere makes the line a success, whatever else it says |
| Gui.PrintedAll | linkkf_gui.py:590-603 | each printed line becomes one queue entry, classified on its own |
| Gui.RunLengthFirst | linkkf_gui.py:548-550 | the worker processes items up to, and not including, the first item at which it is no longer running |
| Gui.ItemLogShape | linkkf_gui.py:552-576 | one item's log has a start line naming the item, its URL line, the downloader's lines with their tags, and one final line tagged success exactly when the download succeeded |
| Gui.LinkKFGui.constructor | linkkf_gui.py:64-72 | a new window is idle with an empty queue and zeroed counters |
| Gui.LinkKFGui.ValidateUrls | linkkf_gui.py:491-508 | returns the filtered list and appends exactly its warnings to the queue |
| Gui.LinkKFGui.GetUrlsFromText | linkkf_gui.py:510-520 | returns the filtered non-blank lines of the box and appends exactly their warnings |
| Gui.LinkKFGui.CustomPrint | linkkf_gui.py:590-603 | appends the joined message with its tag, and nothing else |
| Gui.LinkKFGui.DownloadWorker | linkkf_gui.py:540-584 | processes up to the first stop; total is the list length; completed counts successes; completed plus failed is the number of items processed; the queue gets each item's log in order; `current` is cleared |

## Left out

- Network, file system, clocks, sleeps, threads and `random` are parameters
  or left out. Each HTTP answer is an oracle value, and `random.randint` is
  an oracle over naturals reduced to the source's range.
- HTML parsing (BeautifulSoup) is not modelled. A page is the list of what
  the code asks of it: script strings, iframe sources, `source`/`video`
  sources, the `track` source and the title text.
- `re` patterns are written out as string scans. Digits and letter case are
  ASCII only, while Python's `\d` and `.lower()` are Unicode. The second and
  third iframe patterns (linkkf_downloader.py:159-160) and the second
  manifest pattern (linkkf_downloader.py:292) are left out: any text they
  match already matches the first pattern of their list.
- `urljoin` is modelled only for plain relative names (base path plus line).
  `..`, `./` and query-only references are not resolved. `urlparse` leaves
  out control-character stripping and IPv6 brackets.
- Floats are a type parameter with `parse` and `show` oracles. The 60% gate
  is exact rational arithmetic (`5 * saved >= 3 * total`), not float
  division.
- The image-based check at linkkf_downloader.py:764-768 is modelled on the
  first segment only (`IsImageBased`). The empty-playlist exit at
  linkkf_downloader.py:758-761 is a plain emptiness test and gets no member
  of its own.
- The download stages (extraction, playlist fetch, parse, segment download,
  aggregation, assembly) are modelled separately and not chained into one
  `download_video`. The modules compose through shared types.
- FrameResolver.ResolveFrameSpec: frame probing accepts any `Location`
  (linkkf_downloader.py:202-207). The code is followed here, and
  FrameRedirectUnchecked states this.
- PlayerUrl.ValidateUrl: the downloader's pattern requires the final `/`,
  while the GUI's pattern makes it optional (`Gui.GuiMatches`). Both are
  modelled as written.
- ManifestFetch: the `X-Forwarded-For` octets and the `CF-RAY` number are
  taken from an oracle as naturals. Their 1–254 and six-digit ranges are not
  constrained.
- ManifestFetch.FetchPlaylist, SegmentDownload.DownloadSegment: the loops
  record what each attempt was (a profile, or a bypass country) rather than
  the header dictionary it sent. The headers of attempt `k` are
  `AttemptHeaders(k, ...)` and those of a segment try are `RequestHeaders`;
  lemmas state their fields.
- SegmentDownload: the chunked write is a single `written` flag per try.
  Timeouts and streaming are not modelled.
- Aggregation.SortRestoresOrder: holds only below 100000 segments. At
  100000 and above, `%05d` widens and name order breaks (NameOrderBreaks).
- Aggregation.SortByName: a functional insertion sort, stable like
  `list.sort`; it is not the in-place sort itself.
- Assembly: ffmpeg's run, its exit code and its stderr are not modelled;
  nor are the temporary directories and their cleanup. The concat list
  writes paths unescaped, as the code does.
- Gui.LinkKFGui.DownloadWorker: the queue entries of one run are built up
  and appended once at the end of the call. The order is the same, but
  another thread could not see them arrive one by one. Gui.LinkKFGui.ValidateUrls
  and Gui.LinkKFGui.GetUrlsFromText likewise append their warnings once at the
  end. The stop button is
  modelled as a per-item oracle for the `is_downloading` flag.
- Gui: widgets, `update_progress`, `root.after`, `process_logs`,
  `start_download`, `stop_download`, `download_finished`, the 25-URL
  confirmation and the message boxes are Tkinter plumbing and are left out.
  So are custom_print's encoding-error branch (linkkf_gui.py:604-606) and
  the swapping of `print`.

## Findings

| source | as written | input that shows it | evidently intended | confidence | as-written member | corrected member |
|---|---|---|---|---|---|---|
| linkkf_downloader.py:315 | `iframe_domain` is bound only inside `if not m3u8_url:` (line 308), yet line 466 reads it whenever there is no track subtitle; the `NameError` is caught at line 535 and the whole extraction returns `None` | any valid player URL whose player page has the single iframe `https://g.myani.app/player.php?url=abc`, whose frame page has a `source` element giving the manifest and no `track` element (Extraction.DirectSourcePageFails) | the subtitle fallback uses the frame URL's domain whichever way the manifest was found, and the video info is returned | high, not executed | Extraction.ExtractAsWritten (Extraction.DirectManifestWithoutTrackFails) | Extraction.Extract |
