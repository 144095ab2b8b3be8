/**
 A prediction is one (label, probability) pair as produced by the classifier.
 This module holds the vocabulary shared by the ranker and the formatter:
 orderings, entries of a label->probability map, label sets, and the
 counting facts about them.
 */
module Predictions {

  /** One classifier output: the raw label (the dictionary key) and its probability (a Swift `Double`, modelled as a real). */
  datatype Prediction = Prediction(key: string, prob: real)

  /** Non-increasing by probability, the order `sorted(by: { a.1 > b.1 })` produces. */
  predicate SortedDesc(s: seq<Prediction>) {
    forall i, j :: 0 <= i < j < |s| ==> s[i].prob >= s[j].prob
  }

  /** No label occurs twice. */
  predicate DistinctLabels(s: seq<Prediction>) {
    forall i, j :: 0 <= i < j < |s| ==> s[i].key != s[j].key
  }

  /** `p` is one of the key/value pairs of `m`. */
  predicate IsEntryOf(p: Prediction, m: map<string, real>) {
    p.key in m && m[p.key] == p.prob
  }

  /** Every element of `s` is an entry of `m`. */
  predicate AllEntriesOf(s: seq<Prediction>, m: map<string, real>) {
    forall i :: 0 <= i < |s| ==> IsEntryOf(s[i], m)
  }

  /** Some element of `s` carries `key`. */
  predicate Mentions(s: seq<Prediction>, key: string) {
    exists i :: 0 <= i < |s| && s[i].key == key
  }

  /** The labels carried by `s`. */
  function LabelSet(s: seq<Prediction>): (ls: set<string>)
    ensures forall l :: l in ls <==> Mentions(s, l)
  {
    if s == [] then {}
    else
      var rest := LabelSet(s[1..]);
      assert forall l :: Mentions(s, l) <==> l == s[0].key || Mentions(s[1..], l) by {
        forall l ensures Mentions(s, l) ==> l == s[0].key || Mentions(s[1..], l) {
          if Mentions(s, l) && l != s[0].key {
            var i :| 0 <= i < |s| && s[i].key == l;
            assert s[1..][i - 1].key == l;
          }
        }
        forall l ensures Mentions(s[1..], l) ==> Mentions(s, l) {
          if Mentions(s[1..], l) {
            var i :| 0 <= i < |s[1..]| && s[1..][i].key == l;
            assert s[i + 1].key == l;
          }
        }
        assert Mentions(s, s[0].key) by { assert s[0].key == s[0].key; }
      }
      {s[0].key} + rest
  }

  /** A sequence never carries more labels than it has elements. */
  lemma {:induction false} LabelSetSize(s: seq<Prediction>)
    ensures |LabelSet(s)| <= |s|
  {
    if s != [] {
      LabelSetSize(s[1..]);
    }
  }

  /** With distinct labels, the label set has exactly one label per element. */
  lemma {:induction false} DistinctLabelSetSize(s: seq<Prediction>)
    requires DistinctLabels(s)
    ensures |LabelSet(s)| == |s|
  {
    if s != [] {
      var t := s[1..];
      assert DistinctLabels(t) by {
        forall i, j | 0 <= i < j < |t| ensures t[i].key != t[j].key {
          assert t[i] == s[i + 1] && t[j] == s[j + 1];
        }
      }
      DistinctLabelSetSize(t);
      forall i | 0 <= i < |t| ensures t[i].key != s[0].key {
        assert t[i] == s[i + 1];
      }
      assert !Mentions(t, s[0].key);
    }
  }

  /** A set has at least as many elements as any of its subsets. */
  lemma SubsetSize(a: set<string>, b: set<string>)
    requires a <= b
    ensures |a| <= |b|
  {
    assert b == a + (b - a);
  }

  /** Distinct labels means every prediction occurs at most once. */
  lemma {:induction false} DistinctLabelsCount(s: seq<Prediction>, x: Prediction)
    requires DistinctLabels(s)
    ensures multiset(s)[x] <= 1
  {
    if s != [] {
      var t := s[1..];
      assert s == [s[0]] + t;
      assert DistinctLabels(t) by {
        forall i, j | 0 <= i < j < |t| ensures t[i].key != t[j].key {
          assert t[i] == s[i + 1] && t[j] == s[j + 1];
        }
      }
      DistinctLabelsCount(t, x);
      if x == s[0] {
        forall i | 0 <= i < |t| ensures t[i] != x {
          assert t[i] == s[i + 1];
        }
        assert x !in t;
      }
    }
  }

  /** An element found at two positions occurs at least twice. */
  lemma TwoPositionsCount(s: seq<Prediction>, a: nat, b: nat)
    requires a < b < |s| && s[a] == s[b]
    ensures multiset(s)[s[a]] >= 2
  {
    assert s == s[..b] + s[b..];
    assert s[a] in s[..b];
    assert s[b..][0] == s[b];
  }

  /**
   Rearranging entries of a map whose labels were distinct keeps the labels
   distinct: equal labels would mean equal pairs, and a pair cannot appear
   twice in a permutation of a sequence where it appears once.
   */
  lemma PermutationKeepsDistinctLabels(s: seq<Prediction>, t: seq<Prediction>, m: map<string, real>)
    requires DistinctLabels(s) && AllEntriesOf(t, m)
    requires multiset(s) == multiset(t)
    ensures DistinctLabels(t)
  {
    forall a, b | 0 <= a < b < |t| ensures t[a].key != t[b].key {
      if t[a].key == t[b].key {
        assert t[a] == t[b];
        TwoPositionsCount(t, a, b);
        DistinctLabelsCount(s, t[a]);
      }
    }
  }
}
