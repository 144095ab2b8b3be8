# Cat camera classifier: top-k ranking and result formatting

A verified Dafny model of the two pieces of logic in the iOS demo app
`Blog-CatCameraML` that are not framework glue. Both live in `ViewController`.

- **`top(_:_:)`** takes a label→probability dictionary produced by the image
  classifier, lists its entries, sorts them by probability with the highest
  first, and keeps the first `k`.
- **`store(results:)`** turns ranked predictions into the two lists the result
  table shows. For prediction `i` it drops the 9-character WordNet synset
  identifier at the front of the raw label (`"n02124075 Egyptian cat"`), splits
  the rest on spaces, and takes the first word with every comma deleted. The
  row label is then `"<i+1>: <word>"`, shown next to a percentage. Both lists
  are emptied first, so each call replaces the previous result.

Modules:

- `results.dfy`: module `Results`, holding `Option` and `Result`.
- `predictions.dfy`: module `Predictions`. It defines the `(label, probability)`
  pair and the orderings and entry-of-a-map predicates on sequences of pairs.
  It also holds the counting lemmas about label sets and multisets.
- `ranking.dfy`: module `Ranking`. This is `top`: dictionary enumeration in an
  arbitrary order, a stable insertion sort, the prefix, and the relational
  specification `IsTopK`.
- `text.dfy`: module `Text`. It holds `split(separator: " ")` with empty pieces
  omitted, deletion of one character, and decimal rendering with its inverse.
- `formatting.dfy`: module `Formatting`. This is `store`: the short name of a
  label, the row label and its parse-back, and the list-building loop.
- `scenarios.dfy`: module `Scenarios`, holding worked examples on real
  ImageNet labels and a ranking with a tie.

Decisions taken in the model:

- **Dictionary order and ties.** Swift does not fix the order in which a
  dictionary yields its entries. `sorted(by:)` is not documented as stable
  either. `Ranking.Entries` therefore picks each next key with `:|`, so any
  order is possible. The sort is stable, so every arrangement of tied entries
  the Swift code can produce is one the model can produce. The properties are
  proved for all of them through the relational `IsTopK`. `TopKProbabilitiesDetermined`
  shows that ties only decide which labels appear: the probability column is
  the same in every correct answer.
- **Traps become errors.** The Swift code traps in four places. The model returns
  a `Failure` for each instead:
  - `k > prob.count` (the precondition) gives `CountExceedsLabels`.
  - `k < 0` (`prefix(through: k - 1)` takes the range `0..<k`, whose upper
    bound is then below its lower bound) gives `NegativeCount`. The count is
    checked first, as `top` does.
  - A label shorter than 9 characters (`index(_:offsetBy: 9)`) gives
    `LabelTooShort`.
  - A label with only spaces after the prefix (`resultStrArr[0]` on an empty
    array) gives `NoWord`.

  `Store` reports the first label it cannot format, which is where
  `store(results:)` would stop.
- **What the code leaves open or rejects.**
  - `top` fixes no order among equal probabilities: neither the dictionary's
    order nor `sorted(by:)` is specified, so the model leaves tie order open.
  - Line 132 deletes every comma in the first word, not only a trailing one
    (`"a,b"` gives `"ab"`).
  - A negative `k` traps, as well as a `k` above the label count.

## Model

| member | source | states |
|---|---|---|
| `Ranking.Top` | Blog-CatCameraML/ViewController.swift:138-144 | k above the label count fails with `CountExceedsLabels`; negative k fails with `NegativeCount`; every k in 0..count yields a result satisfying `IsTopK`: exactly k entries of the map, distinct labels, non-increasing probabilities, none of them beaten by an entry left out |
| `Ranking.Entries` | Blog-CatCameraML/ViewController.swift:141 | the listed pairs are exactly the dictionary's entries, each once, one per key, in an unconstrained order |
| `Ranking.EnumerationSize` | Blog-CatCameraML/ViewController.swift:141 | any listing of a map's entries with distinct labels that covers every key has as many elements as the map |
| `Ranking.Insert` | Blog-CatCameraML/ViewController.swift:142 | inserting into a sorted sequence gives a sorted sequence holding the old elements plus the new one |
| `Ranking.SortDesc` | Blog-CatCameraML/ViewController.swift:142 | the result is a permutation of the input (same multiset) in non-increasing order of probability |
| `Ranking.TopOf` | Blog-CatCameraML/ViewController.swift:141-143 | sort-then-prefix gives exactly k pairs, sorted, all drawn from the input |
| `Ranking.SortedPrefixDominates` | Blog-CatCameraML/ViewController.swift:142-143 | an entry the first k sorted pairs do not mention has probability at most that of each of them |
| `Ranking.TopOfIsTopK` | Blog-CatCameraML/ViewController.swift:141-143 | for every order the dictionary may yield, sort-then-prefix meets the relational top-k specification |
| `Ranking.TopKPositionBound` | Blog-CatCameraML/ViewController.swift:142-143 | in two correct top-k answers the i-th probability of one is at most the i-th of the other |
| `Ranking.TopKProbabilitiesDetermined` | Blog-CatCameraML/ViewController.swift:141-143 | any two correct top-k answers for the same map list the same probabilities in the same order, so tie order changes labels only |
| `Predictions.PermutationKeepsDistinctLabels` | Blog-CatCameraML/ViewController.swift:141-142 | rearranging entries of a map never makes a label appear twice |
| `Text.SplitFrom` | Blog-CatCameraML/ViewController.swift:127-128 | every piece is non-empty and contains no space; there are no pieces exactly when only spaces follow the start position |
| `Text.SplitKeepsNonSpaces` | Blog-CatCameraML/ViewController.swift:127-128 | gluing the pieces back together gives the input with its spaces deleted: nothing but separators is lost and order is kept |
| `Text.FirstWordIsFirstPiece` | Blog-CatCameraML/ViewController.swift:128-132 | the first maximal run of non-spaces after the start is the first piece |
| `Text.FirstPieceIsFirstWord` | Blog-CatCameraML/ViewController.swift:128-132 | conversely, the first piece sits after spaces only and ends at a space or at the end of the string |
| `Text.RemoveAll` | Blog-CatCameraML/ViewController.swift:132 | the result lacks the removed character and holds every other character exactly as often as the input |
| `Text.RemoveAllAppend` | Blog-CatCameraML/ViewController.swift:132 | deletion distributes over concatenation, so the order of the kept characters is preserved |
| `Text.RemoveAllIdempotent` | Blog-CatCameraML/ViewController.swift:132 | deleting the commas a second time changes nothing |
| `Text.DecimalString` | Blog-CatCameraML/ViewController.swift:132 | the interpolated rank is a non-empty string of decimal digits with no leading zero |
| `Text.DecimalRoundTrip` | Blog-CatCameraML/ViewController.swift:132 | reading the digits back gives the rank |
| `Formatting.ShortName` | Blog-CatCameraML/ViewController.swift:122-132 | a successful short name contains no space and no comma |
| `Formatting.ShortNameErrors` | Blog-CatCameraML/ViewController.swift:122-132 | a label fails as too short exactly when it has fewer than 9 characters, and fails for lack of a word exactly when only spaces follow the prefix |
| `Formatting.ShortNameOfFirstWord` | Blog-CatCameraML/ViewController.swift:122-132 | the short name is the first word after the 9-character prefix with every comma deleted |
| `Formatting.ShortNameFromFirstWord` | Blog-CatCameraML/ViewController.swift:122-132 | every short name arises that way from some first word after the prefix |
| `Formatting.ShortNameAfterOneSpace` | Blog-CatCameraML/ViewController.swift:122-132 | for identifier, space, word, then nothing or a space, the short name is the word without commas |
| `Formatting.RowLabel` | Blog-CatCameraML/ViewController.swift:132 | a row label is the rank's decimal digits, with the digit run ending exactly there, then `": "`, then the name unchanged |
| `Formatting.RowRoundTrip` | Blog-CatCameraML/ViewController.swift:132 | a row label `"<rank>: <name>"` parses back to the same rank and name |
| `Formatting.Store` | Blog-CatCameraML/ViewController.swift:116-136 | it succeeds exactly when every label can be formatted. On success both lists have one entry per prediction, the i-th row is `"<i+1>: "` plus the i-th short name and the i-th odds are the i-th percentage, and nothing of the previously shown table remains. On failure it names the first unformattable label and its reason |
| `Scenarios.EgyptianCatShortName` | Blog-CatCameraML/ViewController.swift:122-132 | after any 9-character identifier, `" Egyptian cat, cat"` is shown as `Egyptian` |
| `Scenarios.CommaAfterFirstWordDropped` | Blog-CatCameraML/ViewController.swift:122-132 | a comma right after the first word (`"n01440764 tench, Tinca tinca"`) is not shown |
| `Scenarios.BlankNameRejected` | Blog-CatCameraML/ViewController.swift:128-132 | an identifier followed only by spaces has no name to show |
| `Scenarios.FirstRowLabel` | Blog-CatCameraML/ViewController.swift:132 | the first row of `Egyptian` reads `1: Egyptian` |
| `Scenarios.TiedSecondPlaceEitherWay` | Blog-CatCameraML/ViewController.swift:141-143 | with two labels tied for second place, either one is a correct second entry |
| `Scenarios.TopTwoOfScores` | Blog-CatCameraML/ViewController.swift:138-144 | every correct top two of {Egyptian cat 0.9, tabby 0.05, lynx 0.05} starts with Egyptian cat, followed by one of the tied labels at 0.05 |

## Left out

- Percentage text: `String(format: "%3.2f%%", pred.1 * 100)` (line 133) is
  floating-point formatting. `Formatting.Store` takes it as a parameter,
  `percent`, and promises only that the i-th odds string is `percent` of the
  i-th probability.
- Probabilities are `real`, not `Double`. NaN, infinities and rounding are not
  modelled. Only the order of probabilities matters to `top`.
- Characters are Dafny `char`s, not Swift `Character`s (grapheme clusters).
  The 9-character offset, the split and the comma deletion are per `char`.
- Integers are unbounded. The 64-bit overflow of `k - 1` and `i + 1` in Swift
  is not modelled, because it cannot occur for counts of real predictions.
- Ranking.TopOf: models `sorted(by:)` as a stable insertion sort rather than
  Swift's own algorithm. Its contract, and every property stated about `top`,
  is relational and holds whatever order tied entries come in.
- Formatting.Store: the previously shown table is a parameter that the result
  does not read. The `removeAll()` calls of `store(results:)` (lines 118-119) mutate
  instance arrays, and the model returns a fresh table instead.
- Core ML and Vision inference (`predictUsingCoreML`, `predictUsingVision`,
  lines 70-110), including its `prefix(through: 2)`, is opaque framework work
  with an asynchronous completion handler.
- The image picker, table view data source and delegate, and view lifecycle
  (lines 26-61 and 147-178) are UIKit plumbing with no logic to model.
