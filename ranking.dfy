/** `topK` and `argmax` of ar-model/app.js, over integer scores. */
module Ranking {
  import opened Wrappers

  /** One entry of the `topK` result: `{index, prob}`. */
  datatype Scored = Scored(index: nat, prob: int)

  predicate InRange(probs: seq<int>, s: seq<nat>) {
    forall i :: 0 <= i < |s| ==> s[i] < |probs|
  }

  /** Index `a` ranks before index `b`: a higher score, or the same score and a
      smaller index. */
  predicate Before(probs: seq<int>, a: nat, b: nat)
    requires a < |probs| && b < |probs|
  {
    probs[a] > probs[b] || (probs[a] == probs[b] && a < b)
  }

  /** Non-increasing scores, as the comparator `(a, b) => probs[b] - probs[a]`
      demands. */
  predicate ByScore(probs: seq<int>, s: seq<nat>)
    requires InRange(probs, s)
  {
    forall i, j :: 0 <= i < j < |s| ==> probs[s[i]] >= probs[s[j]]
  }

  /** Strictly ordered by `Before`: non-increasing scores, ties by ascending index,
      and therefore no index twice. */
  predicate Ranked(probs: seq<int>, s: seq<nat>)
    requires InRange(probs, s)
  {
    forall i, j :: 0 <= i < j < |s| ==> Before(probs, s[i], s[j])
  }

  /** The indices `0 .. n-1` in ascending order. */
  function Range(n: nat): (r: seq<nat>)
    ensures |r| == n && forall i :: 0 <= i < n ==> r[i] == i
  {
    seq(n, i requires 0 <= i < n => i)
  }

  /** Put `x` in front of the first element whose score is not higher. */
  function InsertByScore(probs: seq<int>, x: nat, s: seq<nat>): (r: seq<nat>)
    requires x < |probs| && InRange(probs, s) && ByScore(probs, s)
    ensures |r| == |s| + 1 && InRange(probs, r) && ByScore(probs, r)
    ensures multiset(r) == multiset(s) + multiset{x}
  {
    if s == [] || probs[s[0]] <= probs[x] then [x] + s
    else
      var t := InsertByScore(probs, x, s[1..]);
      assert s == [s[0]] + s[1..];
      ScoresAtMost(probs, probs[s[0]], x, s[1..], t);
      [s[0]] + t
  }

  /** A permutation of `s` and `x` has no score above a bound they all meet. */
  lemma ScoresAtMost(probs: seq<int>, b: int, x: nat, s: seq<nat>, t: seq<nat>)
    requires x < |probs| && InRange(probs, s) && InRange(probs, t)
    requires multiset(t) == multiset(s) + multiset{x}
    requires probs[x] <= b && forall i :: 0 <= i < |s| ==> probs[s[i]] <= b
    ensures forall j :: 0 <= j < |t| ==> probs[t[j]] <= b
  {
    forall j | 0 <= j < |t| ensures probs[t[j]] <= b {
      assert t[j] in multiset(t);
      if t[j] != x {
        assert t[j] in multiset(s);
      }
    }
  }

  /** `indices.sort((a, b) => probs[b] - probs[a])`: a stable sort by descending
      score, written as an insertion sort. */
  function SortByScore(probs: seq<int>, s: seq<nat>): (r: seq<nat>)
    requires InRange(probs, s)
    ensures |r| == |s| && InRange(probs, r) && ByScore(probs, r)
    ensures multiset(r) == multiset(s)
  {
    if s == [] then []
    else
      assert s == [s[0]] + s[1..];
      InsertByScore(probs, s[0], SortByScore(probs, s[1..]))
  }

  lemma {:induction false} InsertRanked(probs: seq<int>, x: nat, s: seq<nat>)
    requires x < |probs| && InRange(probs, s) && ByScore(probs, s) && Ranked(probs, s)
    requires forall i :: 0 <= i < |s| ==> x < s[i]
    ensures Ranked(probs, InsertByScore(probs, x, s))
  {
    if s != [] && probs[s[0]] > probs[x] {
      assert forall i :: 0 <= i < |s[1..]| ==> s[1..][i] == s[i + 1];
      InsertRanked(probs, x, s[1..]);
      var t := InsertByScore(probs, x, s[1..]);
      forall j | 0 <= j < |t| ensures Before(probs, s[0], t[j]) {
        assert t[j] in multiset(t);
        assert t[j] == x || t[j] in multiset(s[1..]);
        if t[j] != x {
          assert t[j] in s[1..];
        }
      }
    }
  }

  /** Sorting indices given in ascending order ranks them: because the sort is
      stable, equal scores keep their ascending index order. */
  lemma {:induction false} SortRanked(probs: seq<int>, s: seq<nat>)
    requires InRange(probs, s)
    requires forall i, j :: 0 <= i < j < |s| ==> s[i] < s[j]
    ensures Ranked(probs, SortByScore(probs, s))
  {
    if s != [] {
      SortRanked(probs, s[1..]);
      var t := SortByScore(probs, s[1..]);
      forall i | 0 <= i < |t| ensures s[0] < t[i] {
        assert t[i] in multiset(s[1..]);
      }
      InsertRanked(probs, s[0], t);
    }
  }

  /** All indices of `probs`, best first. */
  function Ranking(probs: seq<int>): (r: seq<nat>)
    ensures |r| == |probs| && InRange(probs, r) && Ranked(probs, r)
    ensures forall m :: 0 <= m < |probs| ==> m in r
  {
    var r := SortByScore(probs, Range(|probs|));
    SortRanked(probs, Range(|probs|));
    forall m | 0 <= m < |probs| ensures m in r {
      assert Range(|probs|)[m] == m;
      assert m in multiset(Range(|probs|));
      assert m in multiset(r);
    }
    r
  }

  /** What `topK(probs, k)` promises: `min(k, n)` entries (none for `k <= 0`), each
      carrying the score at its index, ranked best first with ties by ascending index,
      and no left-out index ranking before an entry. */
  ghost predicate IsTopK(probs: seq<int>, k: int, out: seq<Scored>) {
    && |out| == (if k <= 0 then 0 else if k < |probs| then k else |probs|)
    && (forall j :: 0 <= j < |out| ==> out[j].index < |probs| && out[j].prob == probs[out[j].index])
    && (forall i, j :: 0 <= i < j < |out| ==> Before(probs, out[i].index, out[j].index))
    && (forall j, m :: 0 <= j < |out| && 0 <= m < |probs| && Before(probs, m, out[j].index) ==>
          exists i :: 0 <= i < j && out[i].index == m)
  }

  /** `Math.min(k, n)`, and no entries at all for `k <= 0`. */
  function TakeCount(k: int, n: nat): (c: nat)
    ensures c <= n
    ensures k <= 0 ==> c == 0
    ensures k > 0 ==> c == k || c == n
    ensures k > 0 ==> c <= k
  {
    if k <= 0 then 0 else if k < n then k else n
  }

  /** The first `min(k, n)` indices of the ranking, each with its score. */
  function TopKSpec(probs: seq<int>, k: int): (out: seq<Scored>)
    ensures |out| == TakeCount(k, |probs|)
  {
    var r := Ranking(probs);
    seq(TakeCount(k, |probs|), i requires 0 <= i < TakeCount(k, |probs|) => Scored(r[i], probs[r[i]]))
  }

  /** The prefix of the ranking meets everything `topK` promises. */
  lemma TopKSpecIsTopK(probs: seq<int>, k: int)
    ensures IsTopK(probs, k, TopKSpec(probs, k))
  {
    var r := Ranking(probs);
    var out := TopKSpec(probs, k);
    forall j, m | 0 <= j < |out| && 0 <= m < |probs| && Before(probs, m, out[j].index)
      ensures exists i :: 0 <= i < j && out[i].index == m
    {
      assert m in r;
      var p :| 0 <= p < |r| && r[p] == m;
      RankedPosition(probs, r, p, j);
      assert out[p].index == m;
    }
  }

  /** In a ranking, an index that ranks before another sits earlier. */
  lemma RankedPosition(probs: seq<int>, r: seq<nat>, p: nat, j: nat)
    requires InRange(probs, r) && Ranked(probs, r) && p < |r| && j < |r|
    requires Before(probs, r[p], r[j])
    ensures p < j
  {
  }

  /** `topK(probs, k)`. */
  method TopK(probs: seq<int>, k: int) returns (out: seq<Scored>)
    ensures out == TopKSpec(probs, k)
    ensures IsTopK(probs, k, out)
  {
    var n := |probs|;
    var indices := new nat[n];
    for i := 0 to n
      invariant forall m :: 0 <= m < i ==> indices[m] == m
    {
      indices[i] := i;
    }
    assert indices[..] == Range(n);
    var sorted := SortByScore(probs, indices[..]);
    assert sorted == Ranking(probs);
    out := [];
    var j := 0;
    while j < k && j < n
      invariant 0 <= j <= TakeCount(k, n) && |out| == j
      invariant forall i :: 0 <= i < j ==> out[i] == Scored(sorted[i], probs[sorted[i]])
    {
      out := out + [Scored(sorted[j], probs[sorted[j]])];
      j := j + 1;
    }
    TopKSpecIsTopK(probs, k);
  }

  /** `idx` is the first index holding the largest score, or 0 when there is none. */
  ghost predicate IsFirstMax(probs: seq<int>, idx: nat) {
    if probs == [] then idx == 0
    else
      && idx < |probs|
      && (forall i :: 0 <= i < |probs| ==> probs[i] <= probs[idx])
      && (forall i :: 0 <= i < idx ==> probs[i] < probs[idx])
  }

  /** `argmax(arr)`; `best` starts at `-Infinity`, written `None`. */
  method Argmax(arr: seq<int>) returns (idx: nat)
    ensures IsFirstMax(arr, idx)
  {
    idx := 0;
    var best: Option<int> := None;
    for i := 0 to |arr|
      invariant i == 0 <==> best.None?
      invariant i > 0 ==> idx < i && best == Some(arr[idx])
      invariant i > 0 ==> forall m :: 0 <= m < i ==> arr[m] <= arr[idx]
      invariant i > 0 ==> forall m :: 0 <= m < idx ==> arr[m] < arr[idx]
      invariant i == 0 ==> idx == 0
    {
      if best.None? || arr[i] > best.value {
        best := Some(arr[i]);
        idx := i;
      }
    }
  }

  /** The head of `topK(probs, k)` for `k >= 1` is `argmax(probs)`. */
  lemma TopKHeadIsArgmax(probs: seq<int>, k: int, out: seq<Scored>, idx: nat)
    requires IsTopK(probs, k, out) && IsFirstMax(probs, idx)
    requires k >= 1 && probs != []
    ensures out != [] && out[0].index == idx
  {
    assert !Before(probs, idx, out[0].index);
  }

  /** The indices of a `topK` result. */
  function Indices(out: seq<Scored>): (r: seq<nat>)
    ensures |r| == |out| && forall j :: 0 <= j < |out| ==> r[j] == out[j].index
  {
    seq(|out|, j requires 0 <= j < |out| => out[j].index)
  }

  /** Asking for at least as many entries as there are scores lists every index. */
  lemma TopKOfAll(probs: seq<int>, k: int)
    requires k >= |probs|
    ensures |TopKSpec(probs, k)| == |probs|
    ensures forall m :: 0 <= m < |probs| ==> m in Indices(TopKSpec(probs, k))
  {
    var r := Ranking(probs);
    var ix := Indices(TopKSpec(probs, k));
    forall m | 0 <= m < |probs| ensures m in ix {
      assert m in r;
      var j :| 0 <= j < |r| && r[j] == m;
      assert ix[j] == m;
    }
  }
}
