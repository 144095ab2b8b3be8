/**
 The top-k ranker: turn a label->probability dictionary into pairs, sort them
 by probability, highest first, and keep the first k.

 Swift leaves two things open: the order in which a dictionary yields its
 entries, and how `sorted(by:)` arranges pairs of equal probability. The
 model reads the entries in an arbitrary order (`Entries` chooses each next
 key with `:|`) and sorts stably, so every arrangement of ties the Swift code can
 produce is one the model can produce. What is proved holds for all of them:
 the result satisfies the relational specification `IsTopK`, and any two
 results that satisfy it agree on every probability (`TopKProbabilitiesDetermined`).
 */
module Ranking {
  import opened Results
  import opened Predictions

  /** Why `top` would trap. */
  datatype TopError =
    | CountExceedsLabels   // `precondition(k <= prob.count)` fails
    | NegativeCount        // `prefix(through: k - 1)` takes `0..<k`, whose upper bound is below its lower one

  /** `ps` lists every entry of `m` exactly once, in some order. */
  predicate Enumerates(ps: seq<Prediction>, m: map<string, real>) {
    && DistinctLabels(ps)
    && AllEntriesOf(ps, m)
    && forall key :: key in m ==> Mentions(ps, key)
  }

  /**
   `r` is a correct answer for the k best entries of `m`: k entries of `m`
   with distinct labels, highest probability first, and no entry left out
   beats any entry kept.
   */
  predicate IsTopK(m: map<string, real>, k: int, r: seq<Prediction>) {
    && |r| == k
    && SortedDesc(r)
    && AllEntriesOf(r, m)
    && DistinctLabels(r)
    && forall key, i :: key in m && !Mentions(r, key) && 0 <= i < |r| ==> m[key] <= r[i].prob
  }

  /** An enumeration of a map has one element per key. */
  lemma EnumerationSize(ps: seq<Prediction>, m: map<string, real>)
    requires Enumerates(ps, m)
    ensures |ps| == |m|
  {
    DistinctLabelSetSize(ps);
    assert LabelSet(ps) == m.Keys;
  }

  /**
   `prob.map { x in (x.key, x.value) }`: the entries of the dictionary, in
   whatever order the dictionary yields them.
   */
  method Entries(m: map<string, real>) returns (ps: seq<Prediction>)
    ensures Enumerates(ps, m)
    ensures |ps| == |m|
  {
    ps := [];
    var rest := m.Keys;
    while rest != {}
      invariant rest <= m.Keys
      invariant AllEntriesOf(ps, m) && DistinctLabels(ps)
      invariant forall i :: 0 <= i < |ps| ==> ps[i].key !in rest
      invariant forall key :: key in m ==> key in rest || Mentions(ps, key)
      invariant |ps| + |rest| == |m|
      decreases |rest|
    {
      var key :| key in rest;
      ps := ps + [Prediction(key, m[key])];
      rest := rest - {key};
      assert Mentions(ps, key) by { assert ps[|ps| - 1].key == key; }
      forall other | other in m && other != key && other !in rest
        ensures Mentions(ps, other)
      {
        var i :| 0 <= i < |ps| - 1 && ps[..|ps| - 1][i].key == other;
        assert ps[i].key == other;
      }
    }
  }

  /** Everything drawn from a sorted tail, or below its head, stays below its head. */
  lemma BelowHead(p: Prediction, s: seq<Prediction>, tail: seq<Prediction>)
    requires SortedDesc(s) && s != [] && p.prob < s[0].prob
    requires multiset(tail) == multiset(s[1..]) + multiset{p}
    ensures forall j :: 0 <= j < |tail| ==> s[0].prob >= tail[j].prob
  {
    forall j | 0 <= j < |tail| ensures s[0].prob >= tail[j].prob {
      assert tail[j] in multiset(tail);
      if tail[j] != p {
        assert tail[j] in multiset(s[1..]);
        var a :| 0 <= a < |s[1..]| && s[1..][a] == tail[j];
        assert s[a + 1] == tail[j];
      }
    }
  }

  /** Places `p` in front of the first element it is not below. */
  function Insert(p: Prediction, s: seq<Prediction>): (r: seq<Prediction>)
    requires SortedDesc(s)
    ensures SortedDesc(r)
    ensures multiset(r) == multiset(s) + multiset{p}
    ensures |r| == |s| + 1
  {
    if s == [] || p.prob >= s[0].prob then [p] + s
    else
      var tail := Insert(p, s[1..]);
      assert s == [s[0]] + s[1..];
      BelowHead(p, s, tail);
      [s[0]] + tail
  }

  /** `sorted(by: { a, b in a.1 > b.1 })`: a rearrangement, highest probability first. */
  function SortDesc(s: seq<Prediction>): (r: seq<Prediction>)
    ensures SortedDesc(r)
    ensures multiset(r) == multiset(s)
    ensures |r| == |s|
  {
    if s == [] then []
    else
      assert s == [s[0]] + s[1..];
      Insert(s[0], SortDesc(s[1..]))
  }

  /** The sort followed by `prefix(through: k - 1)`, for a k that `top` accepts. */
  function TopOf(ps: seq<Prediction>, k: nat): (r: seq<Prediction>)
    requires k <= |ps|
    ensures |r| == k
    ensures SortedDesc(r)
    ensures forall i :: 0 <= i < |r| ==> r[i] in multiset(ps)
  {
    var sorted := SortDesc(ps);
    assert forall i :: 0 <= i < k ==> sorted[..k][i] == sorted[i];
    sorted[..k]
  }

  /** Sorting keeps every element an entry of the map. */
  lemma SortedEntries(m: map<string, real>, ps: seq<Prediction>)
    requires AllEntriesOf(ps, m)
    ensures AllEntriesOf(SortDesc(ps), m)
  {
    var sorted := SortDesc(ps);
    forall i | 0 <= i < |sorted| ensures IsEntryOf(sorted[i], m) {
      assert sorted[i] in multiset(ps);
      var a :| 0 <= a < |ps| && ps[a] == sorted[i];
    }
  }

  /** An entry the first k of a sorted rearrangement leave out is beaten by each of them. */
  lemma SortedPrefixDominates(m: map<string, real>, ps: seq<Prediction>, sorted: seq<Prediction>, k: nat, key: string)
    requires AllEntriesOf(ps, m) && Mentions(ps, key)
    requires SortedDesc(sorted) && multiset(sorted) == multiset(ps)
    requires k <= |sorted| && !Mentions(sorted[..k], key)
    ensures key in m
    ensures forall i :: 0 <= i < k ==> m[key] <= sorted[i].prob
  {
    var a :| 0 <= a < |ps| && ps[a].key == key;
    assert IsEntryOf(ps[a], m);
    assert ps[a] in multiset(sorted);
    var j :| 0 <= j < |sorted| && sorted[j] == ps[a];
    assert forall t :: 0 <= t < k ==> sorted[..k][t] == sorted[t];
    assert k <= j;
  }

  /** Whatever order the entries come in, sorting and cutting gives a correct top k. */
  lemma TopOfIsTopK(m: map<string, real>, ps: seq<Prediction>, k: nat)
    requires Enumerates(ps, m) && k <= |ps|
    ensures IsTopK(m, k, TopOf(ps, k))
  {
    var sorted := SortDesc(ps);
    var r := TopOf(ps, k);
    assert r == sorted[..k];
    SortedEntries(m, ps);
    PermutationKeepsDistinctLabels(ps, sorted, m);
    PrefixDistinctLabels(sorted, k);
    forall key | key in m && !Mentions(r, key)
      ensures forall i :: 0 <= i < k ==> m[key] <= r[i].prob
    {
      SortedPrefixDominates(m, ps, sorted, k, key);
    }
  }

  /**
   `top(k, prob)`: the k most probable entries, or the reason `top` would
   trap. The precondition on the count is checked before the prefix is taken.
   */
  method Top(k: int, prob: map<string, real>) returns (r: Result<seq<Prediction>, TopError>)
    ensures k > |prob| ==> r == Failure(CountExceedsLabels)
    ensures k < 0 ==> r == Failure(NegativeCount)
    ensures 0 <= k <= |prob| ==> r.Success? && IsTopK(prob, k, r.value)
  {
    if k > |prob| {
      return Failure(CountExceedsLabels);
    }
    if k < 0 {
      return Failure(NegativeCount);
    }
    var ps := Entries(prob);
    TopOfIsTopK(prob, ps, k);
    return Success(TopOf(ps, k));
  }

  /**
   Every entry more probable than the i-th of a correct top k is ranked ahead
   of position i.
   */
  lemma AboveRankIsAhead(m: map<string, real>, k: int, r: seq<Prediction>, i: nat)
    requires IsTopK(m, k, r) && i < k
    ensures forall key :: key in m && m[key] > r[i].prob ==> key in LabelSet(r[..i])
  {
    forall key | key in m && m[key] > r[i].prob ensures key in LabelSet(r[..i]) {
      var b :| 0 <= b < |r| && r[b].key == key;
      assert b < i;
      assert r[..i][b] == r[b];
    }
  }

  /** A prefix of a sequence with distinct labels has distinct labels. */
  lemma PrefixDistinctLabels(s: seq<Prediction>, n: nat)
    requires DistinctLabels(s) && n <= |s|
    ensures DistinctLabels(s[..n])
  {
    forall a, b | 0 <= a < b < n ensures s[..n][a].key != s[..n][b].key {
      assert s[..n][a] == s[a] && s[..n][b] == s[b];
    }
  }

  /**
   A correct top k has at most as high an i-th probability as any other
   correct top k: were it higher, its first i + 1 labels would all have to
   sit in the other's first i places.
   */
  lemma TopKPositionBound(m: map<string, real>, k: int, r1: seq<Prediction>, r2: seq<Prediction>, i: nat)
    requires IsTopK(m, k, r1) && IsTopK(m, k, r2) && i < k
    ensures r1[i].prob <= r2[i].prob
  {
    var front1 := r1[..i + 1];
    var front2 := r2[..i];
    AboveRankIsAhead(m, k, r2, i);
    if r1[i].prob > r2[i].prob {
      forall l | l in LabelSet(front1) ensures l in LabelSet(front2) {
        var a :| 0 <= a < |front1| && front1[a].key == l;
        assert front1[a] == r1[a];
      }
      SubsetSize(LabelSet(front1), LabelSet(front2));
    }
    PrefixDistinctLabels(r1, i + 1);
    DistinctLabelSetSize(front1);
    LabelSetSize(front2);
  }

  /**
   Ties leave only the labels open: any two correct top-k answers for the same
   map list the same probabilities in the same order.
   */
  lemma TopKProbabilitiesDetermined(m: map<string, real>, k: int, r1: seq<Prediction>, r2: seq<Prediction>)
    requires IsTopK(m, k, r1) && IsTopK(m, k, r2)
    ensures forall i :: 0 <= i < k ==> r1[i].prob == r2[i].prob
  {
    forall i | 0 <= i < k ensures r1[i].prob == r2[i].prob {
      TopKPositionBound(m, k, r1, r2, i);
      TopKPositionBound(m, k, r2, r1, i);
    }
  }
}
