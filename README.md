# e24 scoring core in Dafny

The e24 application is a prediction game for a football tournament. Three
players (`aha`, `kkz`, `pła`) predict the score of every match. A plain-text
results file holds one match per line:

    team_1 team_2 actual pred_aha pred_kkz pred_pła

Every score token is written `goals1:goals2`. The application parses this
text into match records, scores each prediction (6, 4, 2 or 0 points), sums
each player's points and ranks the players. Ranking is competition style: a
tie shares a rank, and the rank after a tie skips places.

This project models that core (`src/App.tsx`) in five modules:

- `Text` (`text.dfy`): `String.prototype.split` on a one-character separator
  and its inverse `join`.
- `Numbers` (`numbers.dfy`): the JavaScript number semantics the scoring code
  relies on. These are `Number(string)` (unary `+`), subtraction, `===` and
  `Math.sign`. A number is an integer or NaN.
- `Results` (`results.dfy`): the `Match`/`Prediction` records, the roster,
  `parseScore` and `parseResults`. `parseResults` is modelled as its three
  stages: split each line on spaces, keep the rows of six tokens, build one
  record per row. The module also holds a formatter for results text
  and the parse/format round trip.
- `Points` (`points.dfy`): `getPoints` and the per-player sum that
  `getTotalPoints` folds over all matches.
- `Ranking` (`ranking.dfy`): `getTotalPoints` and the parse-then-score
  pipeline that feeds it. It follows the source's steps: the standings array
  is sorted in place by an insertion sort standing for `Array.prototype.sort`,
  the rank loop runs as at `src/App.tsx:91-98`, and a loop builds the map
  that `new Map(data.map(...))` builds. It is proved against a counting
  definition: a player's rank is one more than the number of players with
  a strictly greater total.

## Model

| member | source | states |
|---|---|---|
| Text.Split | src/App.tsx:39 | `split` always yields at least one piece; the empty text yields `[""]` |
| Text.JoinSplit | src/App.tsx:39 | the pieces of `split` contain no separator, and joining them back with the separator gives the original text |
| Text.SplitJoin | src/App.tsx:39 | splitting the join of non-empty separator-free pieces gives back exactly those pieces |
| Text.SplitAtFirst | src/App.tsx:60 | a text split at its first separator yields the piece before it, then the split of the rest |
| Numbers.ToNumber | src/App.tsx:61 | `Number` of a text that is empty after trimming is 0; it is NaN exactly when the trimmed text is non-empty and is not a digit run after an optional sign; a negative result comes from a leading `-` |
| Numbers.ToNumberOfDigit | src/App.tsx:61 | a single decimal digit reads as its value |
| Numbers.ToNumberOfOther | src/App.tsx:61 | a single character that is not white space, a sign or a digit reads as NaN |
| Numbers.ToNumberIgnoresCarriageReturn | src/App.tsx:61 | a trailing `\r` after a number's text does not change what it reads as |
| Numbers.ToNumberIgnoresPadding | src/App.tsx:61 | a space on either side of a number's text does not change what it reads as |
| Numbers.NatToString | src/App.tsx:60-61 | the decimal text of a natural number is a digit run without a leading zero, and its value is that number |
| Numbers.NumberOfIntToString | src/App.tsx:61 | `Number` applied to the decimal text of any integer gives back that integer |
| Numbers.Minus | src/App.tsx:69-70 | the difference is a number exactly when both operands are numbers, and then it is their difference; NaN propagates |
| Numbers.StrictEquals | src/App.tsx:65 | `===` holds exactly when both sides are the same number; NaN equals nothing, itself included |
| Numbers.Sign | src/App.tsx:76 | `Math.sign` gives -1, 0 or 1 with the sign of its operand, and NaN for NaN |
| Results.ParseScore | src/App.tsx:59-62 | a token without `:` reads as its own number and NaN (the missing second half is `undefined`) |
| Results.ParseScoreHalves | src/App.tsx:59-62 | a token `p:q` reads as `[Number(p), Number(q)]`, and any halves after a second `:` are ignored |
| Results.ParseScoreOfEmpty | src/App.tsx:59-62 | the empty token reads as 0 and NaN |
| Results.ParseScoreWithoutColon | src/App.tsx:59-62 | a single digit without `:` reads as that digit and NaN |
| Results.ParseScoreEmptySecondHalf | src/App.tsx:59-62 | a digit followed by `:` and nothing reads as that digit and 0 |
| Results.ParseScoreNotNumbers | src/App.tsx:59-62 | halves that are not numbers read as NaN |
| Results.ParseScorePadded | src/App.tsx:59-62 | spaces around the first half are ignored, since `Number` trims its operand |
| Results.ParseScoreCarriageReturn | src/App.tsx:59-62 | the `\r` a CRLF line ending leaves on a line's last score token is ignored: `p:q\r` reads as `Number(p)` and `Number(q)` |
| Results.ParseScoreRoundTrip | src/App.tsx:59-62 | `parseScore` of `a:b` written in decimal gives the pair `[a, b]` for all integers |
| Results.ToMatch | src/App.tsx:44-53 | the record built from a six-token line has exactly one prediction per roster user, filed under that user's name |
| Results.Tokenize | src/App.tsx:42 | one row per line, each with at least one token, no token containing a space, and each row joined back with spaces is its line (with Text.SplitJoin this pins each row down as the line's space-split) |
| Results.SixTokenRows | src/App.tsx:43 | the filter keeps at most as many rows as it is given, and every kept row has six tokens |
| Results.SixTokenRowsAppend | src/App.tsx:43 | the filter on two blocks of rows keeps the first block's kept rows, then the second's |
| Results.SixTokenRowsKeepsAll | src/App.tsx:43 | rows that all have six tokens pass the filter unchanged |
| Results.ToMatches | src/App.tsx:44-53 | one record per six-token row, in order, each with the row's team names and one prediction per roster user |
| Results.ParseLines | src/App.tsx:41-53 | no more records than lines, and every record has one prediction per roster user |
| Results.ParseResults | src/App.tsx:38-57 | no more records than lines of the text, and every record has one prediction per roster user |
| Results.ParsedMatchesAreRosterKeyed | src/App.tsx:49-52 | every parsed match has a prediction for every roster user, which the `!` at line 85 relies on |
| Results.ParseLinesSingle | src/App.tsx:42-53 | one line gives one record when its space-split has six tokens, and none otherwise |
| Results.ParseLinesAppend | src/App.tsx:41-53 | parsing works line by line: the records of two blocks of lines are those of the first block followed by those of the second |
| Results.DropsMalformedLine | src/App.tsx:42-43 | a line whose space-split does not have six tokens is dropped, and the lines around it parse as if it were absent |
| Results.KeepsMatchLine | src/App.tsx:42-53 | a six-token line becomes one record, placed between the records of the lines before and after it |
| Results.ParseLinesLength | src/App.tsx:41-43 | the number of records equals the number of lines with exactly six space-separated tokens |
| Results.ParseFormatLine | src/App.tsx:42-53 | a formatted line splits into six tokens that build back the same match record |
| Results.ParseFormatRoundTrip | src/App.tsx:38-57 | `parseResults` of the text formatted from printable records gives back exactly those records, in order |
| Points.GetPoints | src/App.tsx:64-80 | the points for a prediction are always 0, 2, 4 or 6 |
| Points.ExactScoreTier | src/App.tsx:65-67 | 6 points exactly when the actual score is numeric and the prediction equals it |
| Points.GoalDifferenceTier | src/App.tsx:69-73 | 4 points exactly when all halves are numeric, the score is missed and the goal difference is right |
| Points.OutcomeTier | src/App.tsx:76-77 | 2 points exactly when all halves are numeric, the goal difference is missed and the winner (or a draw) is right |
| Points.NoPointsTier | src/App.tsx:64-80 | 0 points exactly when some half is NaN or the predicted outcome is wrong |
| Points.ScoringExamples | src/App.tsx:64-80 | against 2:1, a 2:1 guess gets 6 and 3:2 gets 4; against 2:0, 1:0 gets 2; against 1:1, 2:1 gets 0 |
| Points.Total | src/App.tsx:85 | a player's total over `n` matches is even and between 0 and 6n |
| Points.TotalAppend | src/App.tsx:85 | the total over two blocks of matches is the sum of the two blocks' totals |
| Points.TotalOfOne | src/App.tsx:85 | the total over a single match is that match's points |
| Ranking.CountAbove | src/App.tsx:91-98 | the number of totals above `t` is at most the number of totals; it is 0 exactly when no total exceeds `t`, and all of them exactly when every total does |
| Ranking.Rank | src/App.tsx:91-98 | a rank lies between 1 and one more than the number of totals, and is 1 exactly when no total exceeds it |
| Ranking.RankBounds | src/App.tsx:91-98 | the rank of a total that occurs among the totals lies between 1 and the number of players |
| Ranking.CountAboveAntitone | src/App.tsx:89-98 | a lower total never has fewer totals ahead of it |
| Ranking.RankOfTop | src/App.tsx:91-98 | a total no other total exceeds has rank 1 |
| Ranking.RankStrictlyOrdered | src/App.tsx:89-98 | a total that occurs among the totals ranks strictly better (smaller) than any lower total; equal totals share a rank because the rank depends on the total alone |
| Ranking.RankExample | src/App.tsx:91-98 | totals 10, 10, 7 get ranks 1, 1, 3 |
| Ranking.UserTotals | src/App.tsx:84-87 | one total per roster user, each between 0 and 6 times the number of matches |
| Ranking.InitialStandings | src/App.tsx:84-87 | one standing per roster user, in roster order, with that user's total as points and rank 0 |
| Ranking.AheadIsCountAbove | src/App.tsx:84-98 | counting standings ahead of a total is counting the totals ahead of it |
| Ranking.AheadPermutation | src/App.tsx:89 | reordering the standings does not change how many have more points than a given total, so the order the sort leaves ties in does not matter |
| Ranking.AheadAtRunStart | src/App.tsx:91-95 | in descending standings, the first of a run of equal points has exactly its index many standings ahead of it |
| Ranking.SwapDown | src/App.tsx:89 | exchanging two neighbours changes only those two places and keeps the same standings |
| Ranking.SinkLast | src/App.tsx:89 | moving the standing at `i` left past those with fewer points puts the first `i + 1` in descending order, keeps the same standings and leaves every later place unchanged |
| Ranking.InsertLast | src/App.tsx:89 | one insertion step: the first `i + 1` are descending and a permutation of what they were, and every later place is unchanged |
| Ranking.SortByPoints | src/App.tsx:89 | after the sort the standings are in descending order of points, and they are a permutation of the standings before it |
| Ranking.AssignRanks | src/App.tsx:91-98 | on descending standings the rank loop sets each rank to one more than the number of standings with more points, and changes nothing else |
| Ranking.RankedStandingScored | src/App.tsx:89-98 | after sorting and ranking, each standing carries its user's total and that total's rank among all players' totals |
| Ranking.RankedStandingsScored | src/App.tsx:89-98 | after sorting and ranking, every standing carries its user's outcome and the users are exactly the roster |
| Ranking.RosterCovered | src/App.tsx:84-89 | every roster user still has a standing after the sort |
| Ranking.UsersOf | src/App.tsx:100-103 | every standing's user is among the users of the standings |
| Ranking.UsersOfExactly | src/App.tsx:100-103 | the users of the standings are exactly their `user` fields, no more |
| Ranking.ToResultMap | src/App.tsx:100-103 | the keys are exactly the users of the standings, and each key maps to that user's total and rank |
| Ranking.ParsedResultsArePredicted | src/App.tsx:30-31 | any parsed results have a prediction by every roster user in every match, so `getTotalPoints` can always be applied to them |
| Ranking.ScoreResults | src/App.tsx:30-31 | parsing any results text and scoring it maps exactly the roster users, each to their total over the parsed matches and its rank among all users' totals |
| Ranking.GetTotalPoints | src/App.tsx:82-104 | the result has exactly the roster as keys, and each player maps to their total and to one more than the number of players with a strictly greater total |

## Left out

- Fetching the results file and reading it (`src/App.tsx:24-36`) is I/O. The text is a parameter of `Ranking.ScoreResults` (and of `Results.ParseResults`) instead.
- React state (`src/App.tsx:21-22`) and the rendering of the tables (`src/App.tsx:106-160`) are not modelled; neither affects the results.
- Numbers.ToNumber: covers only white-space trimming, the empty string (0) and an optionally signed run of decimal digits. JavaScript's `Number` also reads fractions, exponents, `0x`/`0o`/`0b` literals and `Infinity`; the model maps those to NaN.
- Numbers.Number: integers are unbounded. The IEEE double precision beyond 2^53 and the difference between `-0` and `0` are not modelled. Neither affects goal counts.
- Ranking.SortByPoints: `Array.prototype.sort` is modelled by an insertion sort that keeps the same contract (descending order, same standings). The tie order of the engine's own algorithm is not modelled. The result does not depend on it (Ranking.AheadPermutation).
- Ranking.GetTotalPoints: requires every roster user to have a prediction in every match. `parseResults` guarantees this (Results.ParsedMatchesAreRosterKeyed). With a missing prediction, the source's `!` would hand `undefined` to `getPoints`, which throws.
- Ranking.ToResultMap: the insertion order of a JavaScript `Map` is not modelled; a Dafny `map` has no order.
- Results.ParseResults: a line is kept whenever it has six space-separated tokens. A malformed or empty score token still gives a record: an empty token reads as 0 and NaN, `3` as 3 and NaN, `2:` as 2 and 0, `x:y` as NaN and NaN (Results.ParseScoreOfEmpty, Results.ParseScoreWithoutColon, Results.ParseScoreEmptySecondHalf, Results.ParseScoreNotNumbers). A NaN half always scores 0 points (Points.NoPointsTier).
- The formatter (`Results.FormatResults`) does not exist in the source. It is here only as the inverse for the parse round trip.
