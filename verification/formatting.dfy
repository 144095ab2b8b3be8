/**
 The label formatter, `store(results:)`: for the i-th prediction it strips
 the 9-character synset identifier in front of the raw label (as in
 "n02124075 Egyptian cat"), keeps the first space-separated word of the rest
 with every comma deleted, and shows it as "<i + 1>: <word>"; next to it goes
 the probability rendered as a percentage. Both display lists are emptied
 before the loop, so a call replaces whatever was shown before.
 */
module Formatting {
  import opened Results
  import opened Predictions
  import opened Text

  /** Width of the synset identifier `index(startIndex, offsetBy: 9)` skips. */
  const PrefixWidth: nat := 9

  /** Why formatting one label would trap. */
  datatype LabelError =
    | LabelTooShort   // fewer than 9 characters: `index(_:offsetBy:)` runs past the end
    | NoWord          // nothing but spaces after the prefix: `resultStrArr[0]` is out of range

  /** The first prediction whose label cannot be formatted, and why. */
  datatype StoreError = StoreError(index: nat, reason: LabelError)

  /** The two display lists: `resultArray` and `resultOddsArray`. */
  datatype ResultTable = ResultTable(labels: seq<string>, odds: seq<string>)

  /** One display row label, read back into its rank and short name. */
  datatype Row = Row(rank: nat, name: string)

  /** The short display name of a raw label, or why `store(results:)` would trap on it. */
  function ShortName(raw: string): (r: Result<string, LabelError>)
    ensures r.Success? ==> ' ' !in r.value && ',' !in r.value
  {
    if |raw| < PrefixWidth then Failure(LabelTooShort)
    else
      var pieces := SplitFrom(raw, PrefixWidth);
      if pieces == [] then Failure(NoWord)
      else
        var name := RemoveAll(pieces[0], ',');
        assert pieces[0] in pieces;
        assert multiset(name)[' '] == multiset(pieces[0])[' '] == 0;
        Success(name)
  }

  /** Exactly the labels `store(results:)` traps on are rejected, each with its reason. */
  lemma ShortNameErrors(raw: string)
    ensures ShortName(raw) == Failure(LabelTooShort) <==> |raw| < PrefixWidth
    ensures ShortName(raw) == Failure(NoWord) <==> |raw| >= PrefixWidth && BlankFrom(raw, PrefixWidth)
  {
  }

  /** The short name is the first word after the prefix, with its commas deleted. */
  lemma ShortNameOfFirstWord(raw: string, i: int, j: int)
    requires |raw| >= PrefixWidth && FirstWordAt(raw, PrefixWidth, i, j)
    ensures ShortName(raw) == Success(RemoveAll(raw[i..j], ','))
  {
    FirstWordIsFirstPiece(raw, PrefixWidth, i, j);
  }

  /**
   The usual shape of a label: identifier, one space, the word to show, then
   nothing or more words after a space.
   */
  lemma ShortNameAfterOneSpace(raw: string, word: string, tail: string)
    requires |raw| >= PrefixWidth && raw[PrefixWidth..] == [' '] + word + tail
    requires |word| > 0 && ' ' !in word
    requires tail == [] || tail[0] == ' '
    ensures ShortName(raw) == Success(RemoveAll(word, ','))
  {
    FirstWordAfterOneSpace(raw, PrefixWidth, word, tail);
    ShortNameOfFirstWord(raw, PrefixWidth + 1, PrefixWidth + 1 + |word|);
  }

  /** A short name always comes from the first word after the prefix. */
  lemma ShortNameFromFirstWord(raw: string)
    requires ShortName(raw).Success?
    ensures exists i, j :: FirstWordAt(raw, PrefixWidth, i, j) && ShortName(raw).value == RemoveAll(raw[i..j], ',')
  {
    FirstPieceIsFirstWord(raw, PrefixWidth);
    var i := SkipSpaces(raw, PrefixWidth);
    var j := WordEnd(raw, i);
    assert FirstWordAt(raw, PrefixWidth, i, j);
  }

  /**
   `"\(rank): " + name`: the run of digits the label starts with is exactly the
   rank's decimal rendering, and the name follows `": "` unchanged.
   */
  function RowLabel(rank: nat, name: string): (row: string)
    ensures DigitPrefix(row) == |DecimalString(rank)|
    ensures row[..DigitPrefix(row)] == DecimalString(rank)
    ensures row[DigitPrefix(row)..] == ": " + name
  {
    var d := DecimalString(rank);
    var row := d + ": " + name;
    assert row[|d|] == ':';
    assert forall t :: 0 <= t < |d| ==> row[t] == d[t];
    DigitPrefixUnique(row, |d|);
    assert row[..|d|] == d;
    assert row[|d|..] == ": " + name;
    row
  }

  /** Splits a row label back into its rank and its short name. */
  function ParseRow(row: string): Option<Row> {
    var n := DigitPrefix(row);
    if 0 < n && n + 2 <= |row| && row[n..n + 2] == ": " then
      Some(Row(DecimalValue(row[..n]), row[n + 2..]))
    else None
  }

  /** A row label carries its rank and its name recoverably. */
  lemma RowRoundTrip(rank: nat, name: string)
    ensures ParseRow(RowLabel(rank, name)) == Some(Row(rank, name))
  {
    var d := DecimalString(rank);
    var row := RowLabel(rank, name);
    assert row[|d|..][..2] == ": " && row[|d|..][2..] == name;
    DecimalRoundTrip(rank);
  }

  /** Every one of the first `n` labels can be formatted. */
  predicate FormattableUpTo(results: seq<Prediction>, n: nat)
    requires n <= |results|
  {
    forall i :: 0 <= i < n ==> ShortName(results[i].key).Success?
  }

  /** `table` shows the first `n` predictions in order, ranked from 1. */
  predicate ShowsUpTo(table: ResultTable, results: seq<Prediction>, percent: real -> string, n: nat)
    requires n <= |results| && FormattableUpTo(results, n)
  {
    && |table.labels| == n && |table.odds| == n
    && forall i :: 0 <= i < n ==>
         && table.labels[i] == RowLabel(i + 1, ShortName(results[i].key).value)
         && table.odds[i] == percent(results[i].prob)
  }

  /**
   `table` shows one row per name, ranked from 1, each next to the
   percentage of the prediction at the same position.
   */
  predicate ShowsNames(table: ResultTable, names: seq<string>, results: seq<Prediction>, percent: real -> string) {
    && |table.labels| == |names| && |table.odds| == |names| && |names| <= |results|
    && forall i :: 0 <= i < |names| ==>
         table.labels[i] == RowLabel(i + 1, names[i]) && table.odds[i] == percent(results[i].prob)
  }

  /** The table with the row for the next name appended, still in step with the names. */
  method AddRow(table: ResultTable, names: seq<string>, results: seq<Prediction>, percent: real -> string, name: string)
    returns (next: ResultTable)
    requires ShowsNames(table, names, results, percent) && |names| < |results|
    ensures ShowsNames(next, names + [name], results, percent)
  {
    var n := |names|;
    next := ResultTable(table.labels + [RowLabel(n + 1, name)], table.odds + [percent(results[n].prob)]);
    forall i | 0 <= i < n + 1
      ensures next.labels[i] == RowLabel(i + 1, (names + [name])[i])
      ensures next.odds[i] == percent(results[i].prob)
    {
      if i < n {
        assert next.labels[i] == table.labels[i] && next.odds[i] == table.odds[i];
      }
    }
  }

  /** One more name found keeps every name so far equal to its label's short name. */
  lemma NamedOneMore(results: seq<Prediction>, names: seq<string>, name: string)
    requires |names| < |results|
    requires forall t :: 0 <= t < |names| ==> ShortName(results[t].key) == Success(names[t])
    requires ShortName(results[|names|].key) == Success(name)
    ensures forall t :: 0 <= t < |names| + 1 ==> ShortName(results[t].key) == Success((names + [name])[t])
  {
    forall t | 0 <= t < |names| + 1
      ensures ShortName(results[t].key) == Success((names + [name])[t])
    {
      if t < |names| {
        assert (names + [name])[t] == names[t];
      }
    }
  }

  /** Labels that all have short names are all formattable. */
  lemma NamedFormattable(results: seq<Prediction>, names: seq<string>)
    requires |names| <= |results|
    requires forall t :: 0 <= t < |names| ==> ShortName(results[t].key) == Success(names[t])
    ensures FormattableUpTo(results, |names|)
  {
  }

  /** Once there is a name for every prediction, the table shows all of them. */
  lemma NamesShowResults(table: ResultTable, names: seq<string>, results: seq<Prediction>, percent: real -> string)
    requires ShowsNames(table, names, results, percent) && |names| == |results|
    requires forall t :: 0 <= t < |names| ==> ShortName(results[t].key) == Success(names[t])
    ensures FormattableUpTo(results, |results|)
    ensures ShowsUpTo(table, results, percent, |results|)
  {
  }

  /**
   `store(results:)`: rebuilds both display lists from `results` alone; the
   lists shown before (`shown`) leave no trace. The Swift code traps at the first
   label it cannot format; the model reports that label instead.
   */
  method Store(shown: ResultTable, results: seq<Prediction>, percent: real -> string)
    returns (r: Result<ResultTable, StoreError>)
    ensures r.Success? <==> FormattableUpTo(results, |results|)
    ensures r.Success? ==> ShowsUpTo(r.value, results, percent, |results|)
    ensures r.Failure? ==>
      && r.error.index < |results|
      && FormattableUpTo(results, r.error.index)
      && ShortName(results[r.error.index].key) == Failure(r.error.reason)
  {
    var table := ResultTable([], []);
    var names: seq<string> := [];
    while |names| < |results|
      invariant |names| <= |results|
      invariant forall t :: 0 <= t < |names| ==> ShortName(results[t].key) == Success(names[t])
      invariant ShowsNames(table, names, results, percent)
      decreases |results| - |names|
    {
      var i := |names|;
      var name := ShortName(results[i].key);
      if name.Failure? {
        NamedFormattable(results, names);
        return Failure(StoreError(i, name.error));
      }
      table := AddRow(table, names, results, percent, name.value);
      NamedOneMore(results, names, name.value);
      names := names + [name.value];
    }
    NamesShowResults(table, names, results, percent);
    return Success(table);
  }
}
