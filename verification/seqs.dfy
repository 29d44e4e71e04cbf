/** The array operations the application uses: `filter`, `findIndex`/`find`, and
    `filter` on the element index. */
module Seqs {
  import opened Wrappers

  /** `s.filter(keep)`: the elements satisfying `keep`, in their original order. */
  function Filter<T>(s: seq<T>, keep: T -> bool): (r: seq<T>)
    ensures |r| <= |s|
    ensures forall i :: 0 <= i < |r| ==> r[i] in s && keep(r[i])
    decreases |s|
  {
    if |s| == 0 then [] else (if keep(s[0]) then [s[0]] else []) + Filter(s[1..], keep)
  }

  /** Every element that passes the test is kept. */
  lemma {:induction false} FilterComplete<T>(s: seq<T>, keep: T -> bool)
    ensures forall i :: 0 <= i < |s| && keep(s[i]) ==> s[i] in Filter(s, keep)
    decreases |s|
  {
    if |s| > 0 {
      FilterComplete(s[1..], keep);
      assert forall i :: 1 <= i < |s| ==> s[i] == s[1..][i - 1];
    }
  }

  /** Filtering distributes over concatenation, so it keeps relative order. */
  lemma {:induction false} FilterAppend<T>(a: seq<T>, b: seq<T>, keep: T -> bool)
    ensures Filter(a + b, keep) == Filter(a, keep) + Filter(b, keep)
    decreases |a|
  {
    if |a| > 0 {
      assert (a + b)[0] == a[0];
      assert (a + b)[1..] == a[1..] + b;
      FilterAppend(a[1..], b, keep);
    } else {
      assert a + b == b;
    }
  }

  /** Filtering around one position: the part before it, the element, the part after it. */
  lemma {:induction false} FilterAround<T>(s: seq<T>, k: int, keep: T -> bool)
    requires 0 <= k < |s|
    ensures Filter(s, keep) == Filter(s[..k], keep) + (if keep(s[k]) then [s[k]] else []) + Filter(s[k + 1..], keep)
  {
    var tail := s[k..];
    assert s == s[..k] + tail;
    FilterAppend(s[..k], tail, keep);
    assert tail[0] == s[k] && tail[1..] == s[k + 1..];
  }

  /** A filter that rejects exactly the element at `k` removes that element only. */
  lemma {:induction false} FilterDropsOne<T>(s: seq<T>, k: int, keep: T -> bool)
    requires 0 <= k < |s| && !keep(s[k])
    requires forall j :: 0 <= j < |s| && j != k ==> keep(s[j])
    ensures Filter(s, keep) == s[..k] + s[k + 1..]
    decreases |s|
  {
    if k == 0 {
      FilterKeepsSlice(s, 1, |s|, keep);
      assert s[1..|s|] == s[1..];
      assert Filter(s, keep) == Filter(s[1..], keep);
      assert s[..0] + s[1..] == s[1..];
    } else {
      var t := s[1..];
      assert forall j :: 0 <= j < |t| ==> t[j] == s[j + 1];
      FilterDropsOne(t, k - 1, keep);
      assert [s[0]] + (t[..k - 1] + t[k..]) == s[..k] + s[k + 1..];
    }
  }

  lemma FilterKeepsSlice<T>(s: seq<T>, lo: int, hi: int, keep: T -> bool)
    requires 0 <= lo <= hi <= |s|
    requires forall j :: lo <= j < hi ==> keep(s[j])
    ensures Filter(s[lo..hi], keep) == s[lo..hi]
  {
    var t := s[lo..hi];
    forall j | 0 <= j < |t|
      ensures keep(t[j])
    {
      assert t[j] == s[lo + j];
    }
    FilterKeepsAll(t, keep);
  }

  /** A filter that keeps every element changes nothing. */
  lemma {:induction false} FilterKeepsAll<T>(s: seq<T>, keep: T -> bool)
    requires forall i :: 0 <= i < |s| ==> keep(s[i])
    ensures Filter(s, keep) == s
    decreases |s|
  {
    if |s| > 0 {
      FilterKeepsAll(s[1..], keep);
    }
  }

  /** The filter keeps everything exactly when every element passes, and nothing
      exactly when none does. */
  lemma {:induction false} FilterCountExtremes<T>(s: seq<T>, keep: T -> bool)
    ensures |Filter(s, keep)| == |s| <==> forall i :: 0 <= i < |s| ==> keep(s[i])
    ensures |Filter(s, keep)| == 0 <==> forall i :: 0 <= i < |s| ==> !keep(s[i])
    decreases |s|
  {
    if |s| > 0 {
      var rest := s[1..];
      FilterCountExtremes(rest, keep);
      assert forall i :: 1 <= i < |s| ==> s[i] == rest[i - 1];
    }
  }

  /** Filtering twice with the same test is filtering once. */
  lemma FilterIdempotent<T>(s: seq<T>, keep: T -> bool)
    ensures Filter(Filter(s, keep), keep) == Filter(s, keep)
  {
    FilterKeepsAll(Filter(s, keep), keep);
  }

  /** `s.findIndex(p)`, with `None` standing for -1; `s.find(p)` is the element at that index. */
  function FindIndex<T>(s: seq<T>, p: T -> bool): (r: Option<nat>)
    ensures r.Some? ==> r.value < |s| && p(s[r.value])
    ensures r.Some? ==> forall j :: 0 <= j < r.value ==> !p(s[j])
    ensures r.None? ==> forall j :: 0 <= j < |s| ==> !p(s[j])
    decreases |s|
  {
    if |s| == 0 then None
    else if p(s[0]) then Some(0)
    else match FindIndex(s[1..], p)
      case None => None
      case Some(k) => Some(k + 1)
  }

  /** `s.filter((_, i) => i !== index)`: removes the element at `index` when there is one. */
  function DropIndex<T>(s: seq<T>, index: int): (r: seq<T>)
    ensures 0 <= index < |s| ==> r == s[..index] + s[index + 1..]
    ensures !(0 <= index < |s|) ==> r == s
    decreases |s|
  {
    if |s| == 0 then [] else (if index == 0 then [] else [s[0]]) + DropIndex(s[1..], index - 1)
  }
}
