/** First-success-wins search over a sequence, the shape of every fallback loop in the source. */
module Seqs {
  import opened Wrappers

  /** The index of the first element satisfying `p`, if there is one. */
  function FirstIndex<T>(s: seq<T>, p: T -> bool): (r: Option<nat>)
    ensures r.Some? ==> r.value < |s| && p(s[r.value])
    ensures r.Some? ==> forall j :: 0 <= j < r.value ==> !p(s[j])
    ensures r.None? ==> forall j :: 0 <= j < |s| ==> !p(s[j])
  {
    if |s| == 0 then None
    else if p(s[0]) then Some(0)
    else
      match FirstIndex(s[1..], p)
      case None => None
      case Some(k) => Some(k + 1)
  }

  /** The first index is the only one that satisfies `p` with nothing before it satisfying it. */
  lemma FirstIndexIs<T>(s: seq<T>, p: T -> bool, k: nat)
    requires k < |s| && p(s[k])
    requires forall j :: 0 <= j < k ==> !p(s[j])
    ensures FirstIndex(s, p) == Some(k)
  {
  }

  lemma FirstIndexNone<T>(s: seq<T>, p: T -> bool)
    requires forall j :: 0 <= j < |s| ==> !p(s[j])
    ensures FirstIndex(s, p) == None
  {
  }

  /** A non-empty sequence is its front and its last element. */
  lemma SplitLast<T>(s: seq<T>)
    requires |s| > 0
    ensures s == s[..|s| - 1] + [s[|s| - 1]]
  {
  }

  /** Appending one element after a concatenation. */
  lemma AppendSnoc<T>(a: seq<T>, b: seq<T>, x: T)
    ensures a + (b + [x]) == (a + b) + [x]
  {
  }

  /** No element of `s[lo..hi]` satisfies `p`. */
  predicate NoneIn<T>(s: seq<T>, p: T -> bool, lo: nat, hi: nat)
    requires lo <= hi <= |s|
  {
    forall m :: lo <= m < hi ==> !p(s[m])
  }

  /** When the last element satisfies `p`, it is the only one with none after it. */
  lemma LastMarked<T>(s: seq<T>, p: T -> bool)
    requires |s| > 0 && p(s[|s| - 1])
    ensures !NoneIn(s, p, 0, |s|)
    ensures forall j :: 0 <= j < |s| && p(s[j]) && NoneIn(s, p, j + 1, |s|) ==> j == |s| - 1
  {
  }

  /** When the last element does not satisfy `p`, the last one that does lies in the front. */
  lemma LastUnmarked<T>(s: seq<T>, p: T -> bool)
    requires |s| > 0 && !p(s[|s| - 1])
    ensures NoneIn(s, p, 0, |s|) ==> NoneIn(s[..|s| - 1], p, 0, |s| - 1)
    ensures forall j :: 0 <= j < |s| && p(s[j]) && NoneIn(s, p, j + 1, |s|) ==>
      j < |s| - 1 && p(s[..|s| - 1][j]) && NoneIn(s[..|s| - 1], p, j + 1, |s| - 1)
  {
    var n := |s| - 1;
    forall m | 0 <= m < n ensures s[..n][m] == s[m] { }
  }
}
