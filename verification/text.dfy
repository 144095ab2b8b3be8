/**
 The string operations the label formatter is built from: Swift's
 `split(separator: " ")` (empty pieces omitted), Foundation's
 `replacingOccurrences(of:with: "")` for a single character, and the decimal
 rendering of a counter by string interpolation.
 */
module Text {

  /** Every character from position `i` on is a space. */
  predicate BlankFrom(s: string, i: nat) {
    forall t :: i <= t < |s| ==> s[t] == ' '
  }

  /** The first position at or after `i` that does not hold a space (or the end). */
  function SkipSpaces(s: string, i: nat): (j: nat)
    requires i <= |s|
    ensures i <= j <= |s|
    ensures forall t :: i <= t < j ==> s[t] == ' '
    ensures j < |s| ==> s[j] != ' '
    decreases |s| - i
  {
    if i == |s| || s[i] != ' ' then i else SkipSpaces(s, i + 1)
  }

  /** The first position at or after `i` that holds a space (or the end). */
  function WordEnd(s: string, i: nat): (j: nat)
    requires i <= |s|
    ensures i <= j <= |s|
    ensures forall t :: i <= t < j ==> s[t] != ' '
    ensures j < |s| ==> s[j] == ' '
    decreases |s| - i
  {
    if i == |s| || s[i] == ' ' then i else WordEnd(s, i + 1)
  }

  /**
   `split(separator: " ")` with empty pieces omitted, applied to the
   characters of `s` from position `i` on: the maximal runs of non-space
   characters, left to right.
   */
  function SplitFrom(s: string, i: nat): (pieces: seq<string>)
    requires i <= |s|
    ensures forall p :: p in pieces ==> |p| > 0 && ' ' !in p
    ensures pieces == [] <==> BlankFrom(s, i)
    decreases |s| - i
  {
    var a := SkipSpaces(s, i);
    if a == |s| then []
    else
      var b := WordEnd(s, a);
      assert forall t :: 0 <= t < b - a ==> s[a..b][t] == s[a + t];
      [s[a..b]] + SplitFrom(s, b)
  }

  /** Every occurrence of `c` deleted, everything else kept in order. */
  function RemoveAll(s: string, c: char): (r: string)
    ensures multiset(r) == multiset(s)[c := 0]
    ensures c !in r
  {
    if s == [] then []
    else
      assert s == [s[0]] + s[1..];
      if s[0] == c then RemoveAll(s[1..], c) else [s[0]] + RemoveAll(s[1..], c)
  }

  /** Deleting from a concatenation deletes from each part. */
  lemma {:induction false} RemoveAllAppend(a: string, b: string, c: char)
    ensures RemoveAll(a + b, c) == RemoveAll(a, c) + RemoveAll(b, c)
  {
    if a != [] {
      assert (a + b)[0] == a[0] && (a + b)[1..] == a[1..] + b;
      RemoveAllAppend(a[1..], b, c);
      if a[0] == c {
        assert RemoveAll(a + b, c) == RemoveAll(a[1..] + b, c);
      } else {
        assert RemoveAll(a + b, c) == [a[0]] + RemoveAll(a[1..] + b, c);
        assert RemoveAll(a, c) == [a[0]] + RemoveAll(a[1..], c);
      }
    } else {
      assert a + b == b;
    }
  }

  /** A string without `c` is left untouched. */
  lemma {:induction false} RemoveAllAbsent(s: string, c: char)
    requires c !in s
    ensures RemoveAll(s, c) == s
  {
    if s != [] {
      RemoveAllAbsent(s[1..], c);
    }
  }

  /** Deleting twice is deleting once. */
  lemma RemoveAllIdempotent(s: string, c: char)
    ensures RemoveAll(RemoveAll(s, c), c) == RemoveAll(s, c)
  {
    var r := RemoveAll(s, c);
    assert multiset(r)[c] == 0;
    RemoveAllAbsent(r, c);
  }

  /** The pieces glued back together without separators. */
  function Concat(pieces: seq<string>): string {
    if pieces == [] then [] else pieces[0] + Concat(pieces[1..])
  }

  /** Splitting loses exactly the spaces: the pieces hold every other character, in order. */
  lemma {:induction false} SplitKeepsNonSpaces(s: string, i: nat)
    requires i <= |s|
    ensures Concat(SplitFrom(s, i)) == RemoveAll(s[i..], ' ')
    decreases |s| - i
  {
    var a := SkipSpaces(s, i);
    RemoveAllCut(s, i, a, ' ');
    SpacesRemoved(s[i..a]);
    assert RemoveAll(s[i..], ' ') == RemoveAll(s[a..], ' ');
    if a < |s| {
      var b := WordEnd(s, a);
      var rest := SplitFrom(s, b);
      assert SplitFrom(s, i) == [s[a..b]] + rest;
      WordKept(s, a, b);
      SplitKeepsNonSpaces(s, b);
      ConcatCons(s[a..b], rest);
    } else {
      assert s[a..] == [];
    }
  }

  /** A word in front survives deleting spaces unchanged. */
  lemma WordKept(s: string, a: nat, b: nat)
    requires a <= b <= |s|
    requires forall t :: a <= t < b ==> s[t] != ' '
    ensures RemoveAll(s[a..], ' ') == s[a..b] + RemoveAll(s[b..], ' ')
  {
    RemoveAllCut(s, a, b, ' ');
    RemoveAllAbsent(s[a..b], ' ');
  }

  /** Gluing a piece in front of the rest. */
  lemma ConcatCons(p: string, rest: seq<string>)
    ensures Concat([p] + rest) == p + Concat(rest)
  {
    assert ([p] + rest)[1..] == rest;
  }

  /** Deleting from `s[i..]` deletes from both sides of a cut at `j`. */
  lemma RemoveAllCut(s: string, i: nat, j: nat, c: char)
    requires i <= j <= |s|
    ensures RemoveAll(s[i..], c) == RemoveAll(s[i..j], c) + RemoveAll(s[j..], c)
  {
    assert s[i..] == s[i..j] + s[j..];
    RemoveAllAppend(s[i..j], s[j..], c);
  }

  /** Deleting spaces from a run of spaces leaves nothing. */
  lemma {:induction false} SpacesRemoved(s: string)
    requires forall t :: 0 <= t < |s| ==> s[t] == ' '
    ensures RemoveAll(s, ' ') == []
  {
    if s != [] {
      SpacesRemoved(s[1..]);
    }
  }

  /**
   `s[i..j]` is the first word of `s` from position `from` on: only spaces
   between `from` and `i`, no space in it, and it ends at a space or at the
   end of `s`.
   */
  predicate FirstWordAt(s: string, from: nat, i: int, j: int) {
    && from <= i < j <= |s|
    && (forall t :: from <= t < i ==> s[t] == ' ')
    && (forall t :: i <= t < j ==> s[t] != ' ')
    && (j == |s| || s[j] == ' ')
  }

  /** After one space, a space-free word followed by nothing or a space is the first word. */
  lemma FirstWordAfterOneSpace(s: string, from: nat, word: string, tail: string)
    requires from <= |s| && s[from..] == [' '] + word + tail
    requires |word| > 0 && ' ' !in word
    requires tail == [] || tail[0] == ' '
    ensures FirstWordAt(s, from, from + 1, from + 1 + |word|)
    ensures s[from + 1..from + 1 + |word|] == word
  {
    var j := from + 1 + |word|;
    assert forall t :: from <= t < |s| ==> s[t] == s[from..][t - from];
    assert forall t :: from + 1 <= t < j ==> s[t] == word[t - from - 1];
    assert s[from + 1..j] == word;
  }

  /** The end of a run of spaces followed by a non-space is where skipping stops. */
  lemma {:induction false} SkipSpacesUnique(s: string, i: nat, j: nat)
    requires i <= j < |s| && s[j] != ' '
    requires forall t :: i <= t < j ==> s[t] == ' '
    ensures SkipSpaces(s, i) == j
    decreases j - i
  {
    if i < j {
      SkipSpacesUnique(s, i + 1, j);
    }
  }

  /** The end of a run of non-spaces followed by a space or the end is where a word ends. */
  lemma {:induction false} WordEndUnique(s: string, i: nat, j: nat)
    requires i <= j <= |s| && (j == |s| || s[j] == ' ')
    requires forall t :: i <= t < j ==> s[t] != ' '
    ensures WordEnd(s, i) == j
    decreases j - i
  {
    if i < j {
      WordEndUnique(s, i + 1, j);
    }
  }

  /** The first word is the first piece `split` returns. */
  lemma FirstWordIsFirstPiece(s: string, from: nat, i: int, j: int)
    requires FirstWordAt(s, from, i, j)
    ensures SplitFrom(s, from) != [] && SplitFrom(s, from)[0] == s[i..j]
  {
    SkipSpacesUnique(s, from, i);
    WordEndUnique(s, i, j);
  }

  /** The first piece `split` returns, if any, is the first word. */
  lemma FirstPieceIsFirstWord(s: string, from: nat)
    requires from <= |s| && SplitFrom(s, from) != []
    ensures FirstWordAt(s, from, SkipSpaces(s, from), WordEnd(s, SkipSpaces(s, from)))
    ensures SplitFrom(s, from)[0] == s[SkipSpaces(s, from)..WordEnd(s, SkipSpaces(s, from))]
  {
  }

  /** A decimal digit character. */
  predicate IsDigit(c: char) {
    '0' <= c <= '9'
  }

  /** Every character is a decimal digit. */
  predicate AllDigits(s: string) {
    forall i :: 0 <= i < |s| ==> IsDigit(s[i])
  }

  /** Length of the run of digits `s` starts with. */
  function DigitPrefix(s: string): (n: nat)
    ensures n <= |s|
    ensures forall i :: 0 <= i < n ==> IsDigit(s[i])
    ensures n < |s| ==> !IsDigit(s[n])
  {
    if s == [] || !IsDigit(s[0]) then 0 else 1 + DigitPrefix(s[1..])
  }

  /** The digits in front of the first non-digit are the leading run of digits. */
  lemma {:induction false} DigitPrefixUnique(s: string, n: nat)
    requires n < |s| && !IsDigit(s[n])
    requires forall t :: 0 <= t < n ==> IsDigit(s[t])
    ensures DigitPrefix(s) == n
  {
    if n > 0 {
      DigitPrefixUnique(s[1..], n - 1);
    }
  }

  /** The character of a digit value. */
  function DigitChar(d: nat): (c: char)
    requires d < 10
    ensures IsDigit(c)
    ensures c as int - '0' as int == d
  {
    ('0' as int + d) as char
  }

  /** `"\(n)"` for a non-negative integer: its decimal digits, no leading zero. */
  function DecimalString(n: nat): (r: string)
    ensures |r| > 0 && AllDigits(r)
    ensures r[0] == '0' ==> n == 0
  {
    if n < 10 then [DigitChar(n)]
    else DecimalString(n / 10) + [DigitChar(n % 10)]
  }

  /** The number a string of decimal digits denotes. */
  function DecimalValue(s: string): nat
    requires AllDigits(s)
  {
    if s == [] then 0
    else 10 * DecimalValue(s[..|s| - 1]) + (s[|s| - 1] as int - '0' as int)
  }

  /** Reading back the digits of `n` gives `n`. */
  lemma {:induction false} DecimalRoundTrip(n: nat)
    ensures DecimalValue(DecimalString(n)) == n
  {
    if n >= 10 {
      var r := DecimalString(n);
      assert r[..|r| - 1] == DecimalString(n / 10);
      DecimalRoundTrip(n / 10);
    }
  }
}
