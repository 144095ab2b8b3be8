/**
 Worked examples: the label formats the classifier produces and the
 three-label ranking with a tie in second place.
 */
module Scenarios {
  import opened Results
  import opened Predictions
  import opened Ranking
  import opened Text
  import opened Formatting

  const Egyptian: string := "n02124075 Egyptian cat"
  const Tabby: string := "n02123045 tabby cat"
  const Lynx: string := "n02127052 lynx"

  /** Three scores with a tie between the second and third label. */
  const Scores: map<string, real> := map[Egyptian := 0.9, Tabby := 0.05, Lynx := 0.05]

  /** A word followed by a comma loses just the comma. */
  lemma TrailingCommaDropped(word: string)
    requires ',' !in word
    ensures RemoveAll(word + [','], ',') == word
  {
    RemoveAllAppend(word, [','], ',');
    RemoveAllAbsent(word, ',');
    assert RemoveAll([','], ',') == [];
  }

  /**
   A comma right after the first word, as in "n01440764 tench, Tinca tinca",
   is not shown: the name is "tench".
   */
  lemma CommaAfterFirstWordDropped(id: string, word: string, more: string)
    requires |id| == PrefixWidth
    requires |word| > 0 && ' ' !in word && ',' !in word
    requires more == [] || more[0] == ' '
    ensures ShortName(id + [' '] + word + [','] + more) == Success(word)
  {
    var raw := id + [' '] + word + [','] + more;
    assert raw[PrefixWidth..] == [' '] + (word + [',']) + more;
    ShortNameAfterOneSpace(raw, word + [','], more);
    TrailingCommaDropped(word);
  }

  /** "Egyptian" has no comma to lose. */
  lemma EgyptianUnchanged(w: string)
    requires w == "Egyptian"
    ensures RemoveAll(w, ',') == "Egyptian"
  {
    assert forall t :: 0 <= t < |w| ==> w[t] != ',';
    RemoveAllAbsent(w, ',');
  }

  /** Only the first word of a multi-word name is shown. */
  lemma EgyptianCatShortName(id: string)
    requires |id| == PrefixWidth
    ensures ShortName(id + " Egyptian cat, cat") == Success("Egyptian")
  {
    var raw := id + " Egyptian cat, cat";
    assert raw[PrefixWidth..] == [' '] + "Egyptian" + " cat, cat";
    ShortNameAfterOneSpace(raw, "Egyptian", " cat, cat");
    EgyptianUnchanged("Egyptian");
  }

  /** A label that is nothing but an identifier and spaces has no name to show. */
  lemma BlankNameRejected(id: string)
    requires |id| == PrefixWidth
    ensures ShortName(id + "   ") == Failure(NoWord)
  {
    var raw := id + "   ";
    assert raw[PrefixWidth..] == "   ";
    ShortNameErrors(raw);
  }

  /** The top-ranked row reads "1: Egyptian". */
  lemma FirstRowLabel()
    ensures RowLabel(1, "Egyptian") == "1: Egyptian"
  {
    assert DecimalString(1) == "1";
  }

  /** Either order of the tied labels is a correct top two. */
  lemma TiedSecondPlaceEitherWay()
    ensures IsTopK(Scores, 2, [Prediction(Egyptian, 0.9), Prediction(Tabby, 0.05)])
    ensures IsTopK(Scores, 2, [Prediction(Egyptian, 0.9), Prediction(Lynx, 0.05)])
  {
    var r1 := [Prediction(Egyptian, 0.9), Prediction(Tabby, 0.05)];
    var r2 := [Prediction(Egyptian, 0.9), Prediction(Lynx, 0.05)];
    assert r1[0].key == Egyptian && r1[1].key == Tabby;
    assert r2[0].key == Egyptian && r2[1].key == Lynx;
  }

  /** Every correct top two starts with the clear winner, followed by one of the tied labels. */
  lemma TopTwoOfScores(r: seq<Prediction>)
    requires IsTopK(Scores, 2, r)
    ensures r[0] == Prediction(Egyptian, 0.9)
    ensures r[1].prob == 0.05 && (r[1].key == Tabby || r[1].key == Lynx)
  {
    assert IsEntryOf(r[0], Scores) && IsEntryOf(r[1], Scores);
    var best := Scores[Egyptian];
    var first := r[0].prob;
    assert Mentions(r, Egyptian) || best <= first;
  }
}
