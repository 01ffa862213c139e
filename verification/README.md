# Two puzzle calculators, modelled in Dafny

The repository holds two line-oriented scripts that each turn a text file into one integer.

- **`1.js`, the calibration extractor.** It rewrites each spelled-out digit word `w` (`one` … `nine`) as the sandwich `w d w`, where `d` is the word's digit. It does this word after word, in table order. It then reads the first and last decimal digit of the rewritten line as a two-digit number. Finally it adds up the numbers of all non-empty lines.
- **`2/2.js`, the cube-game checker.** It reads lines `Game <id>: <draw>; <draw>; …`, where each draw is a comma-separated list of `<count> <color>` pairs.
  - `checkCombo` tests every draw against the bag `{red: 12, green: 13, blue: 14}`, and `possibleGames` keeps the ids of games whose draws all fit.
  - `getMinCubes` keeps a running maximum per colour. A game's power is the product of the three maxima, and `sumOfAllPowers` adds the powers up and prints the sum.

The model has these modules:

| file | module | what it holds |
|---|---|---|
| `wrappers.dfy` | `Wrappers` | `Option` and `AddOpt`. `None` stands for JavaScript's `NaN` and for a thrown `TypeError`. |
| `strings.dfy` | `Strings` | The `\d` class and decimal numerals. JavaScript's `split` on one separator character, with `Join` and both round trips. `filter(Boolean)` on lines. The subsequence order. |
| `calibration.dfy` | `Calibration` | `1.js`: the word table, `replaceAll`, the `replaceAlphaDigit` fold, the digit match, the first/last value and the sum. |
| `calibration_scan.dfy` | `CalibrationScan` | What the sandwich rewrite achieves (details below). |
| `calibration_examples.dfy` | `CalibrationExamples` | The worked calibration lines. |
| `cubes.dfy` | `Cubes` | `2/2.js` on pairs that are already tokenised: limits, the `checkCombo` verdict, the `possible` loop, the minimum-cube fold, power and sums. Each has a reference definition to compare against: `DrawFits`, `MaxCount` and `Flatten`. |
| `cube_text.dfy` | `CubeText` | `2/2.js` on text. This covers the `/(?<number>\d+) (?<color>\w+)/g` scan, the game header and `;` split, both passes over the lines, and what the script prints. It also has a renderer for well-formed games whose text the passes read back exactly. |
| `cube_examples.dfy` | `CubeExamples` | The five-game example, both as pairs and as rendered text. |

`CalibrationScan` proves that the digits of `replaceAlphaDigit(line)` are exactly the digits found by reading the original line left to right. Each position contributes its digit character, or the digit of a word that starts there. So overlapping words such as `twone` and `oneight` both count, and no digit is lost or invented.

Behaviours of the code that are easy to misread:

- **Draws are scanned, not split at commas.** The `combo.split(",")` handed to `exec` is turned back into the same text. The pairs are whatever the global regular expression finds, scanning from `lastIndex`.
- **`checkCombo` has a third answer.** Besides `true` and `false`, it returns `undefined` when the scan stops before the end of the draw. This happens when a trailing space or the `\r` of a Windows line ending follows the last pair. `undefined` is falsy, so a draw that fits is still rejected; on the same text `getMinCubes` throws (`CubeText.TrailingTextUndecided`).
- **Unknown colours never reject a draw and never enter the minimum map.** For a colour other than red, green or blue, the limit or map lookup is `undefined`, and `undefined < n` is false.
- **Malformed lines throw.** A line without `:`, or whose header has no digit, throws a `TypeError`; both are modelled as `None`.

The regular expression has no anchor or look-behind. So whether it matches at a position depends only on the text from that position on. The `lastIndex`-driven recursion is therefore modelled on the remaining suffix of the draw:

- "`lastIndex >= combo.length`" is "the suffix is empty";
- `exec` is the leftmost match in the suffix (`CubeText.NextIsLeftmost`).

## Model

| member | source | states |
|---|---|---|
| `Wrappers.AddOpt` | 1.js:35 | JavaScript `+` where `NaN` stands for the failed value: a number exactly when both operands are, and then their sum. `Wrappers.AddOptAssoc` states that it is associative, so the order of the `reduce` does not matter |
| `Calibration.ReplaceAll` | 1.js:22 | `replaceAll(w, rep)`: scans from the left, replaces each occurrence of `w` by `rep` and resumes after it. That it keeps the input in order is `Calibration.ReplaceAllKeepsInput`; that the sandwich replacement leaves the positional digit reading unchanged is `CalibrationScan.ReplaceAllPreservesScan` |
| `Calibration.ReplaceAlphaDigit` | 1.js:19-26 | the nine `replaceAll` passes in table order. What they achieve is `CalibrationScan.RewriteReadsPositionally`: the digits of the result are the digits and word digits at each position of the line |
| `Calibration.Digits` | 1.js:30 | `match(/\d/g)`: the decimal digits of the text, left to right. `Calibration.DigitsExactly` states that it keeps every digit in order and nothing else; `CalibrationScan.RewriteReadsPositionally` states which digits it finds after the rewrite |
| `Calibration.DigitsExactly` | 1.js:30 | the matched digits are a subsequence of the text, and each digit character occurs in them exactly as often as in the text |
| `Calibration.CalibrationValue` | 1.js:28-33 | a line's entry in `nums`. `CalibrationScan.ValueFromPositionalReading` states it: built from the first and last positional digits, `NaN` exactly when there are none |
| `Calibration.Values` | 1.js:28-33 | the `nums` array: one `CalibrationValue` per line, in order. `Calibration.SumUndefined` and `Calibration.SumBoundsEachValue` state how its entries decide the sum |
| `Calibration.SumOpts` | 1.js:35 | the `reduce` with `+` from 0 over the entries, `NaN` as soon as one entry is. `Calibration.SumOptsUndefined` states when it is `NaN` and `Calibration.SumOptsAppend` that it adds up over concatenation |
| `Calibration.SumValues` | 1.js:28-35 | the sum of the lines' values. `Calibration.SumUndefined`, `Calibration.SumBoundsEachValue`, `Calibration.SumValuesAppend` and `Calibration.SumOfDefined` state its properties |
| `Calibration.Total` | 1.js:3-35 | the printed sum over the non-empty lines. `Calibration.TotalOfLines` and `Calibration.TotalAround` state how it splits over lines and files; `Calibration.SumUndefined` states when it is `NaN` |
| `Calibration.ReplaceAllKeepsInput` | 1.js:22 | `replaceAll(w, w + d + w)` keeps every character of its input, in order: the input is a subsequence of the result |
| `Calibration.ReplaceAlphaDigitKeepsLine` | 1.js:19-26 | the whole nine-word rewrite only inserts characters, so no earlier rewrite destroys a later word occurrence |
| `Calibration.NoWordsUnchanged` | 1.js:21-22 | a line containing none of the nine words is returned unchanged |
| `Calibration.LiteralDigitsKept` | 1.js:19-30 | every decimal digit of the original line is still matched after the rewrite, in the same relative order |
| `Calibration.FirstLastValue` | 1.js:32 | the value is `NaN` exactly when no digit was matched; otherwise its tens digit is the first digit and its units digit the last, so it is at most 99; a single digit `d` gives `11 * d` |
| `Calibration.SumUndefined` | 1.js:32-35 | the sum is `NaN` exactly when some line's value is `NaN` |
| `Calibration.SumOptsUndefined` | 1.js:35 | the `reduce` is `NaN` exactly when some entry is `NaN` |
| `Calibration.SumBoundsEachValue` | 1.js:35 | a numeric sum is at least every line's value |
| `Calibration.SumValuesAppend` | 1.js:35 | the sum over two lists of lines is the sum of the two sums, with `NaN` propagating |
| `Calibration.SumOptsAppend` | 1.js:35 | the `reduce` over two concatenated lists is the sum of the two results, with `NaN` propagating |
| `Calibration.SumOfDefined` | 1.js:28-35 | lines that all have a value sum to the sum of the values; the `reduce` never yields `NaN` for them |
| `Calibration.TotalAround` | 1.js:3 | the total of two files joined by a line break is the sum of their totals, and `NaN` if either is |
| `Calibration.TotalOfLines` | 1.js:3-35 | a file whose lines are all non-empty and break-free is read back as exactly those lines, and totals the sum of their values |
| `Strings.Split` | 2/2.js:32 | `split` on one separator character: always at least one piece. `Strings.JoinSplit` and `Strings.SplitJoin` state that it inverts `Join`; `Strings.SplitHead` and `Strings.SplitCount` describe the pieces |
| `Strings.NonEmpty` | 1.js:3 | `filter(Boolean)` on strings: keeps exactly the non-empty pieces. `Strings.LinesShape` states what the kept lines look like |
| `Strings.Lines` | 1.js:3 | `split("\n").filter(Boolean)`, shared by both scripts (also 2/2.js:3). `Strings.LinesShape` states what the lines look like and `Strings.LinesAround` how a line break separates two texts' lines |
| `Strings.ParseDecimal` | 2/2.js:68 | `parseInt` of a digit string, base 10. `Strings.ParseDecimalOfDecimal` states that it reads back the decimal numeral of every number |
| `Strings.JoinSplit` | 1.js:3 | joining the pieces of `split` with the separator gives back the text |
| `Strings.SplitJoin` | 2/2.js:41 | splitting the join of separator-free pieces gives back the pieces |
| `Strings.LinesShape` | 2/2.js:3 | every line kept by `split("\n").filter(Boolean)` is non-empty and has no line break |
| `Strings.LinesAround` | 1.js:3 | a line break separates the lines of two texts and contributes no line of its own |
| `Strings.SplitHead` | 2/2.js:32 | the first piece of `split(":")` is the text before the first `:` |
| `Strings.SplitCount` | 2/2.js:32 | `split` gives more than one piece exactly when the separator occurs |
| `Strings.ParseDecimalOfDecimal` | 2/2.js:68 | `parseInt` of a number's decimal numeral gives back the number |
| `CalibrationScan.ReplaceAllPreservesScan` | 1.js:22 | one `replaceAll` pass turns word `k` into its digit without changing what the positional reading finds |
| `CalibrationScan.ReplaceWordsFromPreservesScan` | 1.js:21-23 | after the remaining passes, the plain digit reading of the result equals the positional reading of the input |
| `CalibrationScan.RewriteReadsPositionally` | 1.js:19-30 | the digits matched in the rewritten line are exactly the digit characters and word digits at each position of the original line |
| `CalibrationScan.ValueFromPositionalReading` | 1.js:28-33 | a line's value is built from the first and last positional digits, and is `NaN` exactly when there are none |
| `CalibrationScan.WordDigitOneToNine` | 1.js:5-15 | a position contributes at most one word digit, and it lies in 1..9 |
| `CalibrationScan.RewriteAddsNoZero` | 1.js:5-22 | the rewrite inserts no zero: the rewritten line matches as many zeros as the original |
| `CalibrationExamples.ExampleTwoOneNine` | 1.js:19-33 | "two1nine" is worth 29 |
| `CalibrationExamples.ExampleEightwoThree` | 1.js:19-33 | "eightwothree" is worth 83 |
| `CalibrationExamples.ExampleAbcOneTwoThreeXyz` | 1.js:19-33 | "abcone2threexyz" is worth 13 |
| `CalibrationExamples.ExampleXTwoneThreeFour` | 1.js:19-33 | "xtwone3four" is worth 24 |
| `CalibrationExamples.ExampleFourNineEightSevenTwo` | 1.js:19-33 | "4nineeightseven2" is worth 42 |
| `CalibrationExamples.ExampleZOneightTwoThreeFour` | 1.js:19-33 | "zoneight234" is worth 14 |
| `CalibrationExamples.ExampleSevenPqrstSixteen` | 1.js:19-33 | "7pqrstsixteen" is worth 76 |
| `CalibrationExamples.ExampleTotal` | 1.js:28-35 | the seven example lines are worth 29, 83, 13, 24, 42, 14 and 76, which add up to 281 |
| `CalibrationExamples.ExampleFileTotal` | 1.js:3-35 | the file holding the seven example lines, one per line, totals 281 |
| `Cubes.Limit` | 2/2.js:5-9 | the `cubeCount` lookup: 12 red, 13 green, 14 blue, `undefined` for every other colour. `Cubes.TooManyExactly` states how it decides a pair |
| `Cubes.CheckPairs` | 2/2.js:16-26 | `checkCombo` on the pairs its scan found. `Cubes.CheckPairsExactly` states each of its three answers |
| `Cubes.TooMany` | 2/2.js:21 | `cubeCount.get(color) < number`. `Cubes.TooManyExactly` states when it holds |
| `Cubes.TooManyExactly` | 2/2.js:5-21 | a pair is rejected exactly when its colour is red, green or blue and its count is strictly above that colour's limit; a count equal to the limit passes, and other colours never fail |
| `Cubes.CheckPairsExactly` | 2/2.js:16-26 | the verdict is `false` exactly when some pair has too many cubes; `true` exactly when none does and the scan reached the end; `undefined` exactly when none does and it stopped short |
| `Cubes.PossibleAfter` | 2/2.js:41-44 | the `forEach` with early return over the verdicts of a game's draws. `Cubes.PossibleAfterExactly` and `Cubes.ImpossibleStays` state its result |
| `Cubes.PossibleAfterExactly` | 2/2.js:41-44 | `possible` ends true exactly when it started true and every verdict was `true` |
| `Cubes.GamePossible` | 2/2.js:41-46 | whether `possibleGames` keeps a game. `Cubes.GamePossibleExactly` states it holds exactly when every draw fits the bag |
| `Cubes.GamePossibleExactly` | 2/2.js:41-46 | a game is kept exactly when every one of its draws fits the bag |
| `Cubes.ImpossibleStays` | 2/2.js:42 | once a draw fails, later draws cannot make the game possible again |
| `Cubes.PossibleIds` | 2/2.js:28-48 | the ids of the possible games, in order. `Cubes.PossibleIdsExactly` states which ids it holds |
| `Cubes.PossibleIdsExactly` | 2/2.js:28-48 | an id is listed exactly when some game with that id is possible |
| `Cubes.Get` | 2/2.js:84-88 | the map has an entry exactly for blue, red and green |
| `Cubes.Raise` | 2/2.js:67-70 | one step of `getMinCubes`: raise a known colour's entry to the pair's count when it is larger. `Cubes.RaiseIsMax` and `Cubes.RaiseIgnoresUnknown` state its effect |
| `Cubes.RaiseIsMax` | 2/2.js:68-70 | one step sets a known colour's entry to the larger of its old value and the pair's count (when the colours match) |
| `Cubes.RaiseIgnoresUnknown` | 2/2.js:68 | a pair of another colour leaves the map unchanged |
| `Cubes.RaiseAll` | 2/2.js:59-76 | `getMinCubes` over the pairs of one draw. `Cubes.RaiseAllIsMax` and `Cubes.RaiseAllMonotone` state its effect |
| `Cubes.RaiseAllIsMax` | 2/2.js:59-76 | after a draw, each entry is the maximum of its prior value and every count of that colour in the draw |
| `Cubes.RaiseAllMonotone` | 2/2.js:67-70 | entries never decrease |
| `Cubes.RaiseDraws` | 2/2.js:91-93 | `getMinCubes` over every draw of a game, into the same map. `Cubes.RaiseDrawsIsMax` states its effect |
| `Cubes.RaiseDrawsIsMax` | 2/2.js:91-93 | after several draws, each entry is the maximum of its prior value and every count of that colour in all of them |
| `Cubes.MinCubes` | 2/2.js:84-93 | the map after all draws, starting from zero for blue, red and green. `Cubes.MinCubesIsMax` and `Cubes.MinCubesOrderFree` state what it holds |
| `Cubes.MinCubesIsMax` | 2/2.js:84-93 | each entry of a game's map is the largest count of that colour anywhere in the game, 0 if it never appears |
| `Cubes.MaxCountBounds` | 2/2.js:91-93 | that largest count bounds every count of the colour and is attained by one of them, unless it is 0 |
| `Cubes.MinCubesOrderFree` | 2/2.js:91-93 | two games with the same set of pairs have the same map, whatever the order of draws and pairs |
| `Cubes.Power` | 2/2.js:96 | the product over the map's three values, starting from 1. `Cubes.PowerOfMaxima` states it is the product of the game's largest red, green and blue counts |
| `Cubes.PowerOfMaxima` | 2/2.js:96 | a game's power is the product of its largest red, green and blue counts |
| `Cubes.PowerZeroExactly` | 2/2.js:96 | the power is 0 exactly when some colour never shows a positive count |
| `Cubes.SumPowers` | 2/2.js:78-100 | the `reduce` over games' powers from 0. `Cubes.SumPowersAppend` states it adds up over concatenation |
| `Cubes.SumPowersAppend` | 2/2.js:78-100 | the sum of powers over two lists of games is the sum of the two sums |
| `CubeText.DigitRun` | 2/2.js:16 | `\d+` at the head of the text takes exactly the maximal run of digits |
| `CubeText.WordRun` | 2/2.js:16 | `\w+` takes exactly the maximal run of word characters |
| `CubeText.Lead` | 2/2.js:16 | a match of `(?<number>\d+) (?<color>\w+)` at the head of the text. `CubeText.LeadOf` and `CubeText.LeadShape` state exactly which texts match and what they leave |
| `CubeText.Next` | 2/2.js:16-20 | `exec` from the current position: a match and the text after it. `CubeText.NextIsLeftmost` states it is the leftmost match |
| `CubeText.LeadOf` | 2/2.js:16 | text of the form digits, space, colour word, then a non-word character or the end matches with that number and colour, leaving exactly the rest |
| `CubeText.LeadShape` | 2/2.js:16 | every match at the head of the text has that form |
| `CubeText.NextIsLeftmost` | 2/2.js:20 | `exec` returns the leftmost match, and fails exactly when no position starts one |
| `CubeText.Tokens` | 2/2.js:16-20 | the pairs the `exec` scan finds in a draw text, and whether it reached the end. `CubeText.CheckFromTokens` and `CubeText.MinCubesScanTokens` tie both recursions to it; `CubeText.TokensRenderDraw` states what it finds in a rendered draw |
| `CubeText.CheckFrom` | 2/2.js:16-26 | `checkCombo` on draw text. `CubeText.CheckFromTokens` states it is `Cubes.CheckPairs` of the pairs the scan finds |
| `CubeText.MinCubesScan` | 2/2.js:59-76 | `getMinCubes` on draw text, `None` when it throws. `CubeText.MinCubesScanTokens` states it is the fold of the scanned pairs, and when it throws |
| `CubeText.CheckFromTokens` | 2/2.js:16-26 | `checkCombo` on text is the verdict of the pairs its scan finds, and knows whether the scan reached the end |
| `CubeText.MinCubesScanTokens` | 2/2.js:59-76 | `getMinCubes` folds the pairs its scan finds into the map, and throws exactly when the scan stops short |
| `CubeText.StuckThrows` | 2/2.js:65-67 | `getMinCubes` throws on every draw for which `checkCombo` answers `undefined`, and `checkCombo` never answers `true` where it throws |
| `CubeText.TrailingTextUndecided` | 2/2.js:18-25 | text after the last pair that holds no match makes `checkCombo` answer `undefined` (or `false` for a draw with too many cubes) and `getMinCubes` throw |
| `CubeText.FirstDigitRun` | 2/2.js:33 | `match(/\d+/)[0]`: a non-empty run of digits when there is one. `CubeText.FirstDigitRunNone` and `CubeText.FirstDigitRunFound` state when it fails and which run it finds |
| `CubeText.FirstDigitRunNone` | 2/2.js:33 | the id lookup fails exactly on a header without digits |
| `CubeText.FirstDigitRunFound` | 2/2.js:33 | the id is the maximal digit run that starts at the first digit of the header |
| `CubeText.ParseLine` | 2/2.js:32-41 | the id and the draw texts of a line; any id it returns is a non-empty numeral. `CubeText.ParseLineFails` states when it throws and `CubeText.ParseRenderedGame` what it reads from a rendered game |
| `CubeText.ParseLineFails` | 2/2.js:32-41 | a line is rejected exactly when it has no `:` or no digit before its first `:`; an accepted one has at least one draw text |
| `CubeText.KeptIds` | 2/2.js:28-48 | the `map` and `filter(Boolean)` of `possibleGames` over the parsed lines. `CubeText.KeptIdsNone` states when it throws, `CubeText.KeptIdsNumerals` that it keeps numerals and `CubeText.KeptIdsOfGames` which ids it keeps for rendered games |
| `CubeText.PossibleGames` | 2/2.js:28-48 | the first pass throws exactly when some line cannot be split into a header with a digit and draws; otherwise every kept id is a non-empty numeral |
| `CubeText.MinCubesCombos` | 2/2.js:90-93 | `getMinCubes` over each draw text of a line, into the same map, `None` if any throws. `CubeText.MinCubesCombosRendered` states its result on rendered draws |
| `CubeText.LinePower` | 2/2.js:79-96 | the power one line adds, `None` where the line throws. `CubeText.RenderedGameRead` states its value for a rendered game |
| `CubeText.SumFrom` | 2/2.js:78-100 | the `reduce` from an accumulator over the lines' powers. `CubeText.SumFromNone` states when it throws and `CubeText.SumFromAppend` that it adds up over concatenation |
| `CubeText.SumOfAllPowers` | 2/2.js:78-100 | the `reduce` over the lines' powers. `CubeText.SumFromNone` states when it throws and `CubeText.SumOfAllPowersAppend` how it adds up over lines |
| `CubeText.SumFromNone` | 2/2.js:78-100 | the `reduce` throws exactly when the power of some line cannot be computed |
| `CubeText.PossibleGamesThrowsFirst` | 2/2.js:28-100 | every file on which `possibleGames` throws also makes `sumOfAllPowers` throw |
| `CubeText.Program` | 2/2.js:28-102 | the printed number: both passes, where a throw in either ends the script. `CubeText.ProgramIsSumOfAllPowers` states it equals the second pass and `CubeText.RenderedFileRead` its value on rendered files |
| `CubeText.ProgramIsSumOfAllPowers` | 2/2.js:28-102 | the printed result is that of `sumOfAllPowers` alone: the first pass, whose list is never printed, changes nothing |
| `CubeText.SumOfAllPowersAppend` | 2/2.js:78-100 | the printed sum over two sets of lines is the sum of the two sums, and any line that throws makes the whole sum throw |
| `CubeText.TokensRenderDraw` | 2/2.js:16-20 | the scan of a rendered draw finds exactly its pairs and reaches the end |
| `CubeText.CheckComboRendered` | 2/2.js:16-26 | on a rendered draw `checkCombo` never answers `undefined`, and answers `true` exactly when the draw fits |
| `CubeText.MinCubesRendered` | 2/2.js:59-76 | on a rendered draw `getMinCubes` never throws and folds in every pair |
| `CubeText.ParseRenderedGame` | 2/2.js:32-41 | a rendered game line reads back as its id numeral and its rendered draws |
| `CubeText.RenderedGameRead` | 2/2.js:41-96 | on a rendered game line the id is kept exactly when the game is possible, and the line adds the game's power |
| `CubeText.RenderedFileRead` | 2/2.js:3-102 | for a file of rendered games, `possibleGames` lists the numerals of the possible ids and the printed number is the sum of the games' powers |
| `CubeText.IdSum` | 2/2.js:50 | the commented-out `reduce` of `parseInt(cur, 10)` over kept ids. `CubeText.IdSumOfDecimals` states that it adds up the ids themselves |
| `CubeText.IdSumOfDecimals` | 2/2.js:50 | the id sum reads each kept numeral back as its id |
| `CubeExamples.FirstGameMinimum` | 2/2.js:84-96 | "3 blue, 4 red; 1 red, 2 green, 6 blue; 2 green" needs 4 red, 2 green and 6 blue, power 48, and is possible |
| `CubeExamples.SecondGame` | 2/2.js:28-96 | the second example game is possible and has power 12 |
| `CubeExamples.ThirdGame` | 2/2.js:28-96 | the third example game is impossible (20 red) and has power 1560 |
| `CubeExamples.FourthGame` | 2/2.js:28-96 | the fourth example game is impossible (15 blue) and has power 630 |
| `CubeExamples.FifthGame` | 2/2.js:28-96 | the fifth example game is possible and has power 36 |
| `CubeExamples.PossibleGamesOfExample` | 2/2.js:28-50 | the possible games of the example are 1, 2 and 5, whose ids add up to 8 |
| `CubeExamples.PowerSumOfExample` | 2/2.js:78-100 | the powers of the example add up to 2286 |
| `CubeExamples.ExampleFileRead` | 2/2.js:28-102 | read as text, the example keeps the ids "1", "2" and "5" and prints 2286 |
| `CubeExamples.CarriageReturnExample` | 2/2.js:18-25 | the last draw of the first game, followed by `\r`, is left undecided by `checkCombo` and makes `getMinCubes` throw |

## Left out

- Reading the input (`Bun.file`, `await`) and printing (`console.log`) are left out. `Calibration.Total` and `CubeText.Program` are the number the scripts print for a given file text.
- JavaScript numbers are IEEE doubles, but counts, ids and sums are modelled as unbounded naturals. Precision loss beyond 2^53 is not modelled.
- JavaScript strings are UTF-16 code units, but the model uses Dafny characters. The patterns concerned (`\d`, `\w` and the literal words) are ASCII.
- The regular expressions' `lastIndex` is not kept as a number. The scans are modelled on the remaining suffix of the text, which is equivalent for this anchor-free pattern.
- The id sum of `2/2.js` is commented out. It is modelled as `CubeText.IdSum` but is not part of `CubeText.Program`, because it is not printed.
- `Calibration.Digits`: its own contract only says the result is made of digits. Which digits it keeps is stated by `Calibration.DigitsExactly`, and what it finds after the rewrite by `CalibrationScan.RewriteReadsPositionally`.
- `CalibrationScan.ScanDigits`: its own contract only says the result is made of digits. What it computes is stated by `CalibrationScan.RewriteReadsPositionally` and `CalibrationScan.ScanWithoutWords`.
- `CubeText.PossibleGames`: which ids it keeps is stated for rendered files only, by `CubeText.RenderedFileRead`; on pairs the same rule is `Cubes.PossibleIdsExactly`.
- `CubeText.RenderGame`: the renderer writes the spacing of the puzzle input (`Game 1: 3 blue, 4 red; …`). It covers only games with at least one draw and colours made of word characters. Other texts are covered by the general scan lemmas, not by the round trip.
