/**
  What happens to the segment outcomes: they are collected in the order the
  downloads finish, the run is abandoned below a 60% success rate, and the
  saved files are sorted by name before merging.
 */
module Aggregation {
  import opened Text
  import opened Playlist
  import opened SegmentDownload

  /** The saved files and their durations among `rs`, in the order of `rs`. */
  function SavedOf<D>(rs: seq<Outcome<D>>): (r: seq<(string, D)>)
    ensures |r| <= |rs|
    decreases |rs|
  {
    if |rs| == 0 then []
    else
      var last := rs[|rs| - 1];
      SavedOf(rs[..|rs| - 1]) + (if last.Saved? then [(last.name, last.duration)] else [])
  }

  /** How many of `rs` failed. */
  function FailedOf<D>(rs: seq<Outcome<D>>): nat
    decreases |rs|
  {
    if |rs| == 0 then 0
    else FailedOf(rs[..|rs| - 1]) + (if rs[|rs| - 1].Failed? then 1 else 0)
  }

  /** Every outcome is counted once: as a saved file or as a failure. */
  lemma {:induction false} SavedPlusFailed<D>(rs: seq<Outcome<D>>)
    ensures |SavedOf(rs)| + FailedOf(rs) == |rs|
    decreases |rs|
  {
    if |rs| > 0 { SavedPlusFailed(rs[..|rs| - 1]); }
  }

  /**
    The `as_completed` loop: `arrived` is the workers' results in the order
    they finish. The files and durations are kept as one list of pairs.
   */
  method CollectResults<D>(arrived: seq<Outcome<D>>) returns (pairs: seq<(string, D)>, failed: nat)
    ensures pairs == SavedOf(arrived) && failed == FailedOf(arrived)
    ensures |pairs| + failed == |arrived|
  {
    pairs, failed := [], 0;
    var t := 0;
    while t < |arrived|
      invariant t <= |arrived|
      invariant pairs == SavedOf(arrived[..t]) && failed == FailedOf(arrived[..t])
    {
      assert arrived[..t + 1][..t] == arrived[..t];
      var r := arrived[t];
      if r.Saved? {
        pairs := pairs + [(r.name, r.duration)];
      } else {
        failed := failed + 1;
      }
      t := t + 1;
    }
    assert arrived[..t] == arrived;
    SavedPlusFailed(arrived);
  }

  /**
    The two checks after the downloads: a success rate of at least 60%
    (`saved / total < 0.6` fails, taken exactly) and at least one file.
   */
  predicate Passes(saved: nat, total: nat) {
    !(5 * saved < 3 * total) && saved != 0
  }

  /** With at least one segment the second check never decides anything: 60% of a non-empty list is a file. */
  lemma PassesIff(saved: nat, total: nat)
    requires total > 0
    ensures Passes(saved, total) <==> 5 * saved >= 3 * total
  {
  }

  /** How often each saved pair occurs is how often its outcome occurs. */
  lemma {:induction false} SavedOfCount<D>(rs: seq<Outcome<D>>, e: (string, D))
    ensures multiset(SavedOf(rs))[e] == multiset(rs)[Saved(e.0, e.1)]
    decreases |rs|
  {
    if |rs| > 0 {
      var init := rs[..|rs| - 1];
      SavedOfCount(init, e);
      assert rs == init + [rs[|rs| - 1]];
    }
  }

  /** Two lists of pairs hold the same pairs when every pair occurs as often in both. */
  lemma SameMultiset<D>(a: seq<(string, D)>, b: seq<(string, D)>)
    requires forall e: (string, D) :: multiset(a)[e] == multiset(b)[e]
    ensures multiset(a) == multiset(b)
  {
  }

  /** Whatever order the downloads finish in, the same files are saved. */
  lemma SavedOfPermutation<D>(xs: seq<Outcome<D>>, ys: seq<Outcome<D>>)
    requires multiset(xs) == multiset(ys)
    ensures multiset(SavedOf(xs)) == multiset(SavedOf(ys))
  {
    var a, b := SavedOf(xs), SavedOf(ys);
    forall e: (string, D) ensures multiset(a)[e] == multiset(b)[e] {
      SavedOfCount(xs, e);
      SavedOfCount(ys, e);
    }
    SameMultiset(a, b);
  }

  /** `sort(key=lambda x: x[0].name)`, stable: each pair goes after the ones whose name is not greater. */
  function Insert<D>(x: (string, D), s: seq<(string, D)>): (r: seq<(string, D)>)
    ensures |r| == |s| + 1
    decreases |s|
  {
    if |s| == 0 then [x]
    else if LexLess(x.0, s[0].0) then [x] + s
    else [s[0]] + Insert(x, s[1..])
  }

  function SortByName<D>(s: seq<(string, D)>): (r: seq<(string, D)>)
    ensures |r| == |s|
    decreases |s|
  {
    if |s| == 0 then [] else Insert(s[|s| - 1], SortByName(s[..|s| - 1]))
  }

  /** No pair has a smaller name than one before it. */
  ghost predicate SortedByName<D>(s: seq<(string, D)>) {
    forall i, j :: 0 <= i < j < |s| ==> !LexLess(s[j].0, s[i].0)
  }

  /** Each name is smaller than the next. */
  ghost predicate StrictlyByName<D>(s: seq<(string, D)>) {
    forall i, j :: 0 <= i < j < |s| ==> LexLess(s[i].0, s[j].0)
  }

  lemma {:induction false} InsertPermutes<D>(x: (string, D), s: seq<(string, D)>)
    ensures multiset(Insert(x, s)) == multiset(s) + multiset{x}
    decreases |s|
  {
    if |s| > 0 && !LexLess(x.0, s[0].0) {
      InsertPermutes(x, s[1..]);
      assert s == [s[0]] + s[1..];
    }
  }

  lemma {:induction false} InsertSorted<D>(x: (string, D), s: seq<(string, D)>)
    requires SortedByName(s)
    ensures SortedByName(Insert(x, s))
    decreases |s|
  {
    var r := Insert(x, s);
    if |s| == 0 {
    } else if LexLess(x.0, s[0].0) {
      assert r == [x] + s;
      forall i, j | 0 <= i < j < |r| ensures !LexLess(r[j].0, r[i].0) {
        if i == 0 {
          if j == 1 {
            if LexLess(s[0].0, x.0) { LexLessAsymmetric(x.0, s[0].0); }
          } else if LexLess(s[j - 1].0, x.0) {
            LexLessTransitive(s[j - 1].0, x.0, s[0].0);
          }
        } else {
          assert r[i] == s[i - 1] && r[j] == s[j - 1];
        }
      }
    } else {
      InsertSorted(x, s[1..]);
      InsertPermutes(x, s[1..]);
      var t := Insert(x, s[1..]);
      assert r == [s[0]] + t;
      forall i, j | 0 <= i < j < |r| ensures !LexLess(r[j].0, r[i].0) {
        if i == 0 {
          assert r[j] in multiset(t);
          assert r[j] in multiset(s[1..]) + multiset{x};
          if r[j] != x {
            assert r[j] in s[1..];
            var k :| 0 <= k < |s[1..]| && s[1..][k] == r[j];
            assert s[k + 1] == r[j];
          }
        } else {
          assert r[i] == t[i - 1] && r[j] == t[j - 1];
        }
      }
    }
  }

  /** Sorting gives a sorted rearrangement of the pairs. */
  lemma {:induction false} SortByNameCorrect<D>(s: seq<(string, D)>)
    ensures SortedByName(SortByName(s))
    ensures multiset(SortByName(s)) == multiset(s)
    decreases |s|
  {
    if |s| > 0 {
      var init := s[..|s| - 1];
      SortByNameCorrect(init);
      InsertSorted(s[|s| - 1], SortByName(init));
      InsertPermutes(s[|s| - 1], SortByName(init));
      assert s == init + [s[|s| - 1]];
    }
  }

  /** A sorted list and a strictly ordered list with the same pairs are the same list. */
  lemma {:induction false} SortedUnique<D>(a: seq<(string, D)>, b: seq<(string, D)>)
    requires SortedByName(a) && StrictlyByName(b) && multiset(a) == multiset(b)
    ensures a == b
    decreases |b|
  {
    if |b| == 0 {
      assert |multiset(a)| == 0;
    } else {
      assert |a| == |multiset(a)| == |multiset(b)| == |b|;
      SameHead(a, b);
      MultisetTail(a, b);
      SortedTail(a, b);
      SortedUnique(a[1..], b[1..]);
    }
  }

  /** Both lists start with the smallest pair. */
  lemma SameHead<D>(a: seq<(string, D)>, b: seq<(string, D)>)
    requires SortedByName(a) && StrictlyByName(b) && multiset(a) == multiset(b) && |a| > 0 && |b| > 0
    ensures a[0] == b[0]
  {
    assert a[0] in multiset(b);
    var k :| 0 <= k < |b| && b[k] == a[0];
    assert b[0] in multiset(a);
    var m :| 0 <= m < |a| && a[m] == b[0];
    LexLessIrreflexive(b[0].0);
  }

  /** Equal lists of pairs with equal heads have equal tails as multisets. */
  lemma MultisetTail<D>(a: seq<(string, D)>, b: seq<(string, D)>)
    requires multiset(a) == multiset(b) && |a| > 0 && |b| > 0 && a[0] == b[0]
    ensures multiset(a[1..]) == multiset(b[1..])
  {
    assert a == [a[0]] + a[1..] && b == [b[0]] + b[1..];
    assert multiset(a) == multiset{a[0]} + multiset(a[1..]);
    assert multiset(b) == multiset{b[0]} + multiset(b[1..]);
    forall e: (string, D) ensures multiset(a[1..])[e] == multiset(b[1..])[e] {
      assert multiset(a)[e] == multiset{a[0]}[e] + multiset(a[1..])[e];
      assert multiset(b)[e] == multiset{b[0]}[e] + multiset(b[1..])[e];
    }
    SameMultiset(a[1..], b[1..]);
  }

  /** Dropping the head keeps both orders. */
  lemma SortedTail<D>(a: seq<(string, D)>, b: seq<(string, D)>)
    requires SortedByName(a) && StrictlyByName(b) && |a| > 0 && |b| > 0
    ensures SortedByName(a[1..]) && StrictlyByName(b[1..])
  {
    forall i, j | 0 <= i < j < |a| - 1 ensures !LexLess(a[1..][j].0, a[1..][i].0) {
      assert a[1..][j] == a[j + 1] && a[1..][i] == a[i + 1];
    }
    forall i, j | 0 <= i < j < |b| - 1 ensures LexLess(b[1..][i].0, b[1..][j].0) {
      assert b[1..][j] == b[j + 1] && b[1..][i] == b[i + 1];
    }
  }

  /** The names of two segments are ordered as their indexes, below 100000. */
  lemma NameOrder(i: nat, j: nat, u: string, v: string)
    requires i < j < 100000
    ensures LexLess(SegmentFileName(i, u), SegmentFileName(j, v))
  {
    SegmentFileNameFixed(i, u);
    SegmentFileNameFixed(j, v);
    Pow10Five();
    FixedOrdered(i, j, 5);
    PrefixedOrder("segment_", Fixed(i, 5), Fixed(j, 5), SegmentExtension(u), SegmentExtension(v));
  }

  lemma Pow10Five()
    ensures Pow10(5) == 100000
  {
  }

  /** Equally long texts in order stay in order behind a common prefix and whatever follows them. */
  lemma PrefixedOrder(p: string, a: string, b: string, x: string, y: string)
    requires |a| == |b| && LexLess(a, b)
    ensures LexLess(p + a + x, p + b + y)
  {
    LexLessEqualLengthAppend(a, b, x, y);
    LexLessCommonPrefix(p, a + x, b + y);
    assert p + a + x == p + (a + x);
    assert p + b + y == p + (b + y);
  }

  /** The outcome of segment `i` is the download of segment `i`: saved under its own name. */
  ghost predicate NamedByIndex<D>(urls: seq<string>, outcomes: seq<Outcome<D>>) {
    |outcomes| == |urls| &&
    forall i :: 0 <= i < |outcomes| && outcomes[i].Saved? ==> outcomes[i].name == SegmentFileName(i, urls[i])
  }

  /** Every name saved among the first segments is smaller than the name of any later segment. */
  lemma {:induction false} SavedBelow<D>(urls: seq<string>, outcomes: seq<Outcome<D>>, m: nat, v: string)
    requires NamedByIndex(urls, outcomes) && |outcomes| <= m < 100000
    ensures forall k :: 0 <= k < |SavedOf(outcomes)| ==> LexLess(SavedOf(outcomes)[k].0, SegmentFileName(m, v))
    decreases |outcomes|
  {
    if |outcomes| > 0 {
      var n := |outcomes| - 1;
      var init := outcomes[..n];
      assert NamedByIndex(urls[..n], init);
      SavedBelow(urls[..n], init, m, v);
      var last := outcomes[n];
      var extra := if last.Saved? then [(last.name, last.duration)] else [];
      if last.Saved? { NameOrder(n, m, urls[n], v); }
      BelowAppend(SavedOf(init), extra, SegmentFileName(m, v));
    }
  }

  /** Two lists of pairs named below `bound` are, joined, named below it. */
  lemma BelowAppend<D>(pre: seq<(string, D)>, extra: seq<(string, D)>, bound: string)
    requires forall k :: 0 <= k < |pre| ==> LexLess(pre[k].0, bound)
    requires forall k :: 0 <= k < |extra| ==> LexLess(extra[k].0, bound)
    ensures forall k :: 0 <= k < |pre + extra| ==> LexLess((pre + extra)[k].0, bound)
  {
    forall k | 0 <= k < |pre + extra| ensures LexLess((pre + extra)[k].0, bound) {
      if k < |pre| { assert (pre + extra)[k] == pre[k]; } else { assert (pre + extra)[k] == extra[k - |pre|]; }
    }
  }

  /** In index order, the saved pairs have strictly increasing names. */
  lemma {:induction false} SavedInIndexOrder<D>(urls: seq<string>, outcomes: seq<Outcome<D>>)
    requires NamedByIndex(urls, outcomes) && |outcomes| <= 100000
    ensures StrictlyByName(SavedOf(outcomes))
    decreases |outcomes|
  {
    if |outcomes| > 0 {
      var n := |outcomes| - 1;
      var init := outcomes[..n];
      assert NamedByIndex(urls[..n], init);
      SavedInIndexOrder(urls[..n], init);
      var pre := SavedOf(init);
      var last := outcomes[n];
      if last.Saved? {
        SavedBelow(urls[..n], init, n, urls[n]);
        assert SavedOf(outcomes) == pre + [(last.name, last.duration)];
        StrictlySnoc(pre, (last.name, last.duration));
      }
    }
  }

  /** A pair named above every name of a strictly ordered list extends it in order. */
  lemma StrictlySnoc<D>(pre: seq<(string, D)>, x: (string, D))
    requires StrictlyByName(pre)
    requires forall k :: 0 <= k < |pre| ==> LexLess(pre[k].0, x.0)
    ensures StrictlyByName(pre + [x])
  {
    var s := pre + [x];
    forall i, j | 0 <= i < j < |s| ensures LexLess(s[i].0, s[j].0) {
      if j < |pre| { assert s[i] == pre[i] && s[j] == pre[j]; }
    }
  }

  /**
    Sorting by name puts the saved segments back in playlist order, whatever
    order the downloads finished in, for playlists of up to 100000 segments.
   */
  lemma SortRestoresOrder<D>(urls: seq<string>, outcomes: seq<Outcome<D>>, arrived: seq<Outcome<D>>)
    requires NamedByIndex(urls, outcomes) && |outcomes| <= 100000
    requires multiset(arrived) == multiset(outcomes)
    ensures SortByName(SavedOf(arrived)) == SavedOf(outcomes)
  {
    SavedOfPermutation(arrived, outcomes);
    SortByNameCorrect(SavedOf(arrived));
    SavedInIndexOrder(urls, outcomes);
    SortedUnique(SortByName(SavedOf(arrived)), SavedOf(outcomes));
  }

  /** From 100000 segments on, a six-digit name sorts before a five-digit one. */
  lemma NameOrderBreaks(u: string)
    ensures LexLess(SegmentFileName(100000, u), SegmentFileName(99999, u))
  {
    var a := Format05d(100000);
    var b := Format05d(99999);
    assert a[0] == '1' && b[0] == '9';
    var ext := SegmentExtension(u);
    LexLessCommonPrefix("segment_", a + ext, b + ext);
    assert "segment_" + a + ext == "segment_" + (a + ext);
    assert "segment_" + b + ext == "segment_" + (b + ext);
  }
}
