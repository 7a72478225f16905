/**
  What is handed to ffmpeg: which executable, the concat list of transport
  stream segments, and the concat script of a slideshow. Running ffmpeg
  itself is outside the model.
 */
module Assembly {
  import opened Text
  import opened Wrappers
  import opened Seqs

  /**
    The ffmpeg executable: `ffmpeg.exe` beside the script, then in the
    working directory, then `ffmpeg` from the PATH. `onDisk` stands for
    `Path.exists()` on the file system.
   */
  function FfmpegCommand(scriptDirExe: string, cwdExe: string, onDisk: string -> bool): (cmd: string)
    ensures onDisk(scriptDirExe) ==> cmd == scriptDirExe
    ensures !onDisk(scriptDirExe) && onDisk(cwdExe) ==> cmd == cwdExe
    ensures !onDisk(scriptDirExe) && !onDisk(cwdExe) ==> cmd == "ffmpeg"
  {
    if onDisk(scriptDirExe) then scriptDirExe
    else if onDisk(cwdExe) then cwdExe
    else "ffmpeg"
  }

  /** The chosen command is always one that exists, unless it is the bare name left to the PATH. */
  lemma FfmpegCommandExists(scriptDirExe: string, cwdExe: string, onDisk: string -> bool)
    ensures var cmd := FfmpegCommand(scriptDirExe, cwdExe, onDisk);
      cmd == "ffmpeg" || onDisk(cmd)
    ensures FfmpegCommand(scriptDirExe, cwdExe, onDisk) in {scriptDirExe, cwdExe, "ffmpeg"}
  {
  }

  /**
    The choice is the first of the two local candidates, in preference order,
    that exists, and the PATH name when neither does.
   */
  lemma FfmpegCommandFirst(scriptDirExe: string, cwdExe: string, onDisk: string -> bool)
    ensures var local := [scriptDirExe, cwdExe];
      FfmpegCommand(scriptDirExe, cwdExe, onDisk) ==
        match FirstIndex(local, onDisk)
        case None => "ffmpeg"
        case Some(k) => local[k]
  {
    var local := [scriptDirExe, cwdExe];
    if onDisk(scriptDirExe) {
      FirstIndexIs(local, onDisk, 0);
    } else if onDisk(cwdExe) {
      FirstIndexIs(local, onDisk, 1);
    } else {
      FirstIndexNone(local, onDisk);
    }
  }

  /** The text of a file written line by line: each line followed by a newline. */
  function Unlines(lines: seq<string>): (r: string)
    ensures |r| >= |lines|
    decreases |lines|
  {
    if |lines| == 0 then "" else lines[0] + "\n" + Unlines(lines[1..])
  }

  lemma {:induction false} UnlinesSnoc(lines: seq<string>, line: string)
    ensures Unlines(lines + [line]) == Unlines(lines) + line + "\n"
    decreases |lines|
  {
    if |lines| == 0 {
      assert lines + [line] == [line];
    } else {
      assert (lines + [line])[1..] == lines[1..] + [line];
      UnlinesSnoc(lines[1..], line);
    }
  }

  lemma SplitUnlinesCons(lines: seq<string>)
    requires |lines| > 0 && '\n' !in lines[0]
    ensures Split(Unlines(lines), '\n') == [lines[0]] + Split(Unlines(lines[1..]), '\n')
  {
    SplitAt(Unlines(lines), lines[0], Unlines(lines[1..]), '\n');
  }

  /** Reading the file back with `split('\n')` gives its lines and an empty last piece. */
  lemma {:induction false} SplitUnlines(lines: seq<string>)
    requires forall k :: 0 <= k < |lines| ==> '\n' !in lines[k]
    ensures Split(Unlines(lines), '\n') == lines + [""]
    decreases |lines|
  {
    if |lines| == 0 {
      assert IndexOf("", '\n') == -1;
    } else {
      var rest := lines[1..];
      RestNoNewline(lines);
      SplitUnlines(rest);
      SplitUnlinesCons(lines);
      ConsLast(lines, "");
    }
  }

  lemma RestNoNewline(lines: seq<string>)
    requires |lines| > 0 && forall k :: 0 <= k < |lines| ==> '\n' !in lines[k]
    ensures forall k :: 0 <= k < |lines[1..]| ==> '\n' !in lines[1..][k]
  {
    forall k | 0 <= k < |lines[1..]| ensures '\n' !in lines[1..][k] { assert lines[1..][k] == lines[k + 1]; }
  }

  lemma ConsLast(lines: seq<string>, last: string)
    requires |lines| > 0
    ensures lines + [last] == [lines[0]] + (lines[1..] + [last])
  {
  }

  /** `f"file '{path}'"`. */
  function FileLine(path: string): string {
    "file '" + path + "'"
  }

  lemma FileLineNoNewline(path: string)
    requires '\n' !in path
    ensures '\n' !in FileLine(path)
  {
    var l := FileLine(path);
    forall i | 0 <= i < |l| ensures l[i] != '\n' {
      if 6 <= i < 6 + |path| { assert l[i] == path[i - 6]; }
    }
  }

  /** The concat list of `_merge_segments_with_ffmpeg`: one `file '...'` line per segment, in order. */
  function FileListLines(paths: seq<string>): (r: seq<string>)
    ensures |r| == |paths| && forall k :: 0 <= k < |paths| ==> r[k] == FileLine(paths[k])
  {
    seq(|paths|, k requires 0 <= k < |paths| => FileLine(paths[k]))
  }

  /** Writing the concat list, path by path. */
  method WriteFileList(paths: seq<string>) returns (text: string)
    ensures text == Unlines(FileListLines(paths))
  {
    text := "";
    var i := 0;
    while i < |paths|
      invariant i <= |paths|
      invariant text == Unlines(FileListLines(paths[..i]))
    {
      assert FileListLines(paths[..i + 1]) == FileListLines(paths[..i]) + [FileLine(paths[i])];
      UnlinesSnoc(FileListLines(paths[..i]), FileLine(paths[i]));
      text := text + FileLine(paths[i]) + "\n";
      i := i + 1;
    }
    assert paths[..i] == paths;
  }

  /** Read back, the concat list names each segment once, in order, and nothing else. */
  lemma FileListReadBack(paths: seq<string>)
    requires forall k :: 0 <= k < |paths| ==> '\n' !in paths[k]
    ensures Split(Unlines(FileListLines(paths)), '\n') == FileListLines(paths) + [""]
  {
    var lines := FileListLines(paths);
    forall k | 0 <= k < |lines| ensures '\n' !in lines[k] { FileLineNoNewline(paths[k]); }
    SplitUnlines(lines);
  }

  /** `f"img_{i:05d}.jpg"`: the name image `i` is copied to. */
  function ImageName(i: nat): (r: string)
    ensures StartsWith(r, "img_") && EndsWith(r, ".jpg")
  {
    "img_" + Format05d(i) + ".jpg"
  }

  /** Two images below index 100000 never share a name, so no copy overwrites another. */
  lemma ImageNamesDistinct(i: nat, j: nat)
    requires i < j < 100000
    ensures ImageName(i) != ImageName(j)
  {
    Format05dFixed(i);
    Format05dFixed(j);
    assert Pow10(5) == 100000;
    FixedOrdered(i, j, 5);
    LexLessIrreflexive(Fixed(i, 5));
    assert ImageName(i)[4..9] == Fixed(i, 5) && ImageName(j)[4..9] == Fixed(j, 5);
  }

  lemma ImageNameNoNewline(i: nat)
    ensures '\n' !in ImageName(i)
  {
    var d := Decimal(i);
    var f := Format05d(i);
    forall k | 0 <= k < |f| ensures f[k] != '\n' {
      if |d| < 5 && k >= 5 - |d| { assert f[k] == d[k - (5 - |d|)]; }
    }
    var n := ImageName(i);
    forall k | 0 <= k < |n| ensures n[k] != '\n' {
      if 4 <= k < 4 + |f| { assert n[k] == f[k - 4]; }
    }
  }

  /** `shutil.copy2(image_file, temp_dir / f"img_{i:05d}.jpg")` for each image: where each one goes. */
  function ImageCopies(files: seq<string>): (r: seq<(string, string)>)
    ensures |r| == |files| && forall i :: 0 <= i < |files| ==> r[i] == (files[i], ImageName(i))
  {
    seq(|files|, i requires 0 <= i < |files| => (files[i], ImageName(i)))
  }

  /** `f"duration {duration}"`, where `show` is Python's formatting of the float. */
  function DurationLine(text: string): string {
    "duration " + text
  }

  /** The `file`/`duration` pairs of the first `n` images. */
  function ImageEntries<D>(durations: seq<D>, show: D -> string, n: nat): (r: seq<string>)
    requires n <= |durations|
    ensures |r| == 2 * n
    decreases n
  {
    if n == 0 then []
    else ImageEntries(durations, show, n - 1) + [FileLine(ImageName(n - 1)), DurationLine(show(durations[n - 1]))]
  }

  lemma {:induction false} ImageEntriesAt<D>(durations: seq<D>, show: D -> string, n: nat, i: nat)
    requires i < n <= |durations|
    ensures ImageEntries(durations, show, n)[2 * i] == FileLine(ImageName(i))
    ensures ImageEntries(durations, show, n)[2 * i + 1] == DurationLine(show(durations[i]))
    decreases n
  {
    if i < n - 1 { ImageEntriesAt(durations, show, n - 1, i); }
  }

  /** The lines of the image concat script: every image with its duration, then the last image again. */
  function ImageScriptLines<D>(durations: seq<D>, show: D -> string): (r: seq<string>)
    ensures |durations| == 0 ==> r == []
    ensures |durations| > 0 ==> |r| == 2 * |durations| + 1
  {
    var n := |durations|;
    ImageEntries(durations, show, n) + (if n > 0 then [FileLine(ImageName(n - 1))] else [])
  }

  /**
    The script names image `i` on line `2i` with its own duration on the
    next line; its last line names the last image once more.
   */
  lemma ImageScriptShape<D>(durations: seq<D>, show: D -> string)
    requires |durations| > 0
    ensures var r := ImageScriptLines(durations, show);
      var n := |durations|;
      r[2 * n] == r[2 * n - 2] == FileLine(ImageName(n - 1)) &&
      forall i :: 0 <= i < n ==> r[2 * i] == FileLine(ImageName(i)) && r[2 * i + 1] == DurationLine(show(durations[i]))
  {
    var n := |durations|;
    var r := ImageScriptLines(durations, show);
    forall i | 0 <= i < n ensures r[2 * i] == FileLine(ImageName(i)) && r[2 * i + 1] == DurationLine(show(durations[i])) {
      ImageEntriesAt(durations, show, n, i);
    }
  }

  /**
    The script names exactly the files the images were copied to, in copy
    order, and its closing line names the last copy again.
   */
  lemma ImageScriptNamesCopies<D>(files: seq<string>, durations: seq<D>, show: D -> string)
    requires |files| == |durations| > 0
    ensures var r := ImageScriptLines(durations, show);
      var copies := ImageCopies(files);
      r[2 * |files|] == FileLine(copies[|files| - 1].1) &&
      forall i :: 0 <= i < |files| ==> r[2 * i] == FileLine(copies[i].1) && copies[i].0 == files[i]
  {
    ImageScriptShape(durations, show);
  }

  /** Writing the image script, image by image, then the closing repetition. */
  method WriteImageScript<D>(durations: seq<D>, show: D -> string) returns (text: string)
    ensures text == Unlines(ImageScriptLines(durations, show))
  {
    text := "";
    var i := 0;
    while i < |durations|
      invariant i <= |durations|
      invariant text == Unlines(ImageEntries(durations, show, i))
    {
      var name := ImageName(i);
      var entries := ImageEntries(durations, show, i);
      UnlinesSnoc(entries, FileLine(name));
      UnlinesSnoc(entries + [FileLine(name)], DurationLine(show(durations[i])));
      assert entries + [FileLine(name)] + [DurationLine(show(durations[i]))] == ImageEntries(durations, show, i + 1);
      text := text + FileLine(name) + "\n";
      text := text + DurationLine(show(durations[i])) + "\n";
      i := i + 1;
    }
    if |durations| > 0 {
      var last := ImageName(|durations| - 1);
      UnlinesSnoc(ImageEntries(durations, show, |durations|), FileLine(last));
      text := text + FileLine(last) + "\n";
    }
  }

  lemma DurationLineNoNewline(text: string)
    requires '\n' !in text
    ensures '\n' !in DurationLine(text)
  {
    var l := DurationLine(text);
    forall c | 0 <= c < |l| ensures l[c] != '\n' {
      if c >= 9 { assert l[c] == text[c - 9]; }
    }
  }

  lemma ImageScriptLineNoNewline<D>(durations: seq<D>, show: D -> string, k: nat)
    requires forall i :: 0 <= i < |durations| ==> '\n' !in show(durations[i])
    requires k < |ImageScriptLines(durations, show)|
    ensures '\n' !in ImageScriptLines(durations, show)[k]
  {
    var n := |durations|;
    var r := ImageScriptLines(durations, show);
    var e := ImageEntries(durations, show, n);
    if k < 2 * n {
      assert r[k] == e[k];
      ImageEntryNoNewline(durations, show, k);
    } else {
      assert r[k] == FileLine(ImageName(n - 1));
      ImageNameNoNewline(n - 1);
      FileLineNoNewline(ImageName(n - 1));
    }
  }

  lemma ImageEntryNoNewline<D>(durations: seq<D>, show: D -> string, k: nat)
    requires forall i :: 0 <= i < |durations| ==> '\n' !in show(durations[i])
    requires k < 2 * |durations|
    ensures '\n' !in ImageEntries(durations, show, |durations|)[k]
  {
    var i, odd := Halve(k);
    if odd {
      DurationEntryNoNewline(durations, show, i, k);
    } else {
      FileEntryNoNewline(durations, show, i, k);
    }
  }

  lemma FileEntryNoNewline<D>(durations: seq<D>, show: D -> string, i: nat, k: nat)
    requires i < |durations| && k == 2 * i
    ensures '\n' !in ImageEntries(durations, show, |durations|)[k]
  {
    ImageEntriesAt(durations, show, |durations|, i);
    ImageNameNoNewline(i);
    FileLineNoNewline(ImageName(i));
  }

  lemma DurationEntryNoNewline<D>(durations: seq<D>, show: D -> string, i: nat, k: nat)
    requires i < |durations| && k == 2 * i + 1 && '\n' !in show(durations[i])
    ensures '\n' !in ImageEntries(durations, show, |durations|)[k]
  {
    ImageEntriesAt(durations, show, |durations|, i);
    DurationLineNoNewline(show(durations[i]));
  }

  /** `k` is `2i` or `2i + 1`. */
  lemma Halve(k: nat) returns (i: nat, odd: bool)
    ensures k == 2 * i + (if odd then 1 else 0)
  {
    if k < 2 {
      i, odd := 0, k == 1;
    } else {
      var j, o := Halve(k - 2);
      i, odd := j + 1, o;
    }
  }

  /** Read back, the script has exactly its lines, when no formatted duration holds a newline. */
  lemma ImageScriptReadBack<D>(durations: seq<D>, show: D -> string)
    requires forall i :: 0 <= i < |durations| ==> '\n' !in show(durations[i])
    ensures Split(Unlines(ImageScriptLines(durations, show)), '\n') == ImageScriptLines(durations, show) + [""]
  {
    var r := ImageScriptLines(durations, show);
    forall k | 0 <= k < |r| ensures '\n' !in r[k] { ImageScriptLineNoNewline(durations, show, k); }
    SplitUnlines(r);
  }
}
