/** The match records of src/App.tsx and `parseResults`/`parseScore`, which
    read them from the results text: one match per line, tokens separated by
    single spaces, `team_1 team_2 actual pred_aha pred_kkz pred_pła`. */
module Results {
  import opened Text
  import opened Numbers

  /** `[number, number]`: the goals of team 1 and of team 2. */
  datatype Score = Score(goals1: Number, goals2: Number)

  /** One user's guess for one match. */
  datatype Prediction = Prediction(user: string, score: Score)

  /** One line of the results text: the teams, the final score and every
      user's prediction, keyed by user. */
  datatype Match = Match(team1: string, team2: string, score: Score, predictions: map<string, Prediction>)

  /** The hard-coded roster, in display order. */
  const Users: seq<string> := ["aha", "kkz", "pła"]

  /** The roster as a set of keys. */
  const Roster: set<string> := {Users[0], Users[1], Users[2]}

  /** A match carries exactly one prediction per roster user, filed under
      that user's own name. */
  predicate RosterKeyed(m: Match)
  {
    m.predictions.Keys == Roster
    && forall u :: u in m.predictions ==> m.predictions[u].user == u
  }

  /** `parseScore`: split on `:` and convert the first two halves with
      `Number`; a token without `:` has an undefined second half. */
  function ParseScore(token: string): (r: Score)
    ensures ':' !in token ==> r == Score(ToNumber(token), NaN)
  {
    var parts := Split(token, ':');
    assert ':' !in token ==> parts == [token] by {
      if ':' !in token {
        SplitNoSeparator(token, ':');
      }
    }
    Score(ToNumber(parts[0]), if |parts| > 1 then ToNumber(parts[1]) else Undefined)
  }

  /** The first two `:`-separated halves are converted; any further halves
      are ignored. */
  lemma ParseScoreHalves(p: string, q: string, t: string)
    requires ':' !in p && ':' !in q
    ensures ParseScore(p + ":" + q) == Score(ToNumber(p), ToNumber(q))
    ensures ParseScore(p + ":" + q + ":" + t) == Score(ToNumber(p), ToNumber(q))
  {
    SplitAtFirst(p, ':', q);
    SplitNoSeparator(q, ':');
    assert p + ":" + q + ":" + t == p + [':'] + (q + [':'] + t);
    SplitAtFirst(p, ':', q + [':'] + t);
    SplitAtFirst(q, ':', t);
  }

  /** The empty token reads as 0 and NaN. */
  lemma ParseScoreOfEmpty()
    ensures ParseScore("") == Score(Int(0), NaN)
  {
  }

  /** A single digit without `:` reads as that digit and NaN. */
  lemma ParseScoreWithoutColon(d: char)
    requires IsDigit(d)
    ensures ParseScore([d]) == Score(Int(DigitValue(d)), NaN)
  {
    ToNumberOfDigit(d);
  }

  /** An empty half after `:` reads as 0. */
  lemma ParseScoreEmptySecondHalf(d: char)
    requires IsDigit(d)
    ensures ParseScore([d] + ":") == Score(Int(DigitValue(d)), Int(0))
  {
    ParseScoreHalves([d], "", "");
    assert [d] + ":" + "" == [d] + ":";
    ToNumberOfDigit(d);
  }

  /** Halves that are not numbers read as NaN. */
  lemma ParseScoreNotNumbers(x: char, y: char)
    requires !IsDigit(x) && !IsJsSpace(x) && x != '-' && x != '+' && x != ':'
    requires !IsDigit(y) && !IsJsSpace(y) && y != '-' && y != '+' && y != ':'
    ensures ParseScore([x] + ":" + [y]) == Score(NaN, NaN)
  {
    ParseScoreHalves([x], [y], "");
    ToNumberOfOther(x);
    ToNumberOfOther(y);
  }

  /** Spaces around the first half are ignored. */
  lemma ParseScorePadded(p: string, q: string)
    requires ':' !in p && ':' !in q
    requires p != [] && !IsJsSpace(p[0]) && !IsJsSpace(p[|p| - 1])
    ensures ParseScore(" " + p + " :" + q) == Score(ToNumber(p), ToNumber(q))
  {
    ParseScoreHalves(" " + p + " ", q, "");
    assert " " + p + " " + ":" + q == " " + p + " :" + q;
    ToNumberIgnoresPadding(p);
  }

  /** A CRLF line ending leaves `\r` on the line's last token; the second half
      still reads as its number. */
  lemma ParseScoreCarriageReturn(p: string, q: string)
    requires ':' !in p && ':' !in q
    requires q != [] && !IsJsSpace(q[0]) && !IsJsSpace(q[|q| - 1])
    ensures ParseScore(p + ":" + q + "\r") == Score(ToNumber(p), ToNumber(q))
  {
    ParseScoreHalves(p, q + "\r", "");
    assert p + ":" + (q + "\r") == p + ":" + q + "\r";
    ToNumberIgnoresCarriageReturn(q);
  }

  /** The `{ user, score }` entry of roster user `i` on a six-token line. */
  function PredictionOf(parts: seq<string>, i: nat): Prediction
    requires |parts| == 6 && i < 3
  {
    Prediction(Users[i], ParseScore(parts[3 + i]))
  }

  /** The record built from a six-token line. */
  function ToMatch(parts: seq<string>): (m: Match)
    requires |parts| == 6
    ensures RosterKeyed(m)
  {
    Match(parts[0], parts[1], ParseScore(parts[2]),
          map[Users[0] := PredictionOf(parts, 0),
              Users[1] := PredictionOf(parts, 1),
              Users[2] := PredictionOf(parts, 2)])
  }

  /** `line.split(' ')` for each line, in order. */
  function Tokenize(lines: seq<string>): (rows: seq<seq<string>>)
    ensures |rows| == |lines|
    ensures forall k :: 0 <= k < |rows| ==>
      |rows[k]| >= 1 && Join(rows[k], ' ') == lines[k] &&
      forall j :: 0 <= j < |rows[k]| ==> ' ' !in rows[k][j]
  {
    var rows := seq(|lines|, k requires 0 <= k < |lines| => Split(lines[k], ' '));
    assert forall k :: 0 <= k < |rows| ==>
      Join(rows[k], ' ') == lines[k] &&
      forall j :: 0 <= j < |rows[k]| ==> ' ' !in rows[k][j] by {
      forall k | 0 <= k < |rows|
        ensures Join(rows[k], ' ') == lines[k]
        ensures forall j :: 0 <= j < |rows[k]| ==> ' ' !in rows[k][j]
      {
        JoinSplit(lines[k], ' ');
      }
    }
    rows
  }

  /** `.filter(parts => parts.length === 6)`: the rows of exactly six tokens,
      in their original order. */
  function SixTokenRows(rows: seq<seq<string>>): (kept: seq<seq<string>>)
    ensures |kept| <= |rows|
    ensures forall k :: 0 <= k < |kept| ==> |kept[k]| == 6
  {
    if rows == [] then []
    else (if |rows[0]| == 6 then [rows[0]] else []) + SixTokenRows(rows[1..])
  }

  /** The filter decides on the first row and then filters the rest. */
  lemma SixTokenRowsCons(row: seq<string>, rows: seq<seq<string>>)
    ensures SixTokenRows([row] + rows) == (if |row| == 6 then [row] else []) + SixTokenRows(rows)
  {
    assert ([row] + rows)[1..] == rows;
  }

  /** The filter works row by row: on two blocks it keeps the kept rows of the
      first block followed by those of the second. */
  lemma {:induction false} SixTokenRowsAppend(a: seq<seq<string>>, b: seq<seq<string>>)
    ensures SixTokenRows(a + b) == SixTokenRows(a) + SixTokenRows(b)
  {
    if a != [] {
      var h, t := a[0], a[1..];
      SixTokenRowsAppend(t, b);
      assert a + b == [h] + (t + b) by { assert a == [h] + t; }
      assert a == [h] + t;
      SixTokenRowsCons(h, t + b);
      SixTokenRowsCons(h, t);
      if |h| == 6 {
        calc {
          SixTokenRows(a + b);
          [h] + SixTokenRows(t + b);
          [h] + (SixTokenRows(t) + SixTokenRows(b));
          ([h] + SixTokenRows(t)) + SixTokenRows(b);
          SixTokenRows(a) + SixTokenRows(b);
        }
      } else {
        calc {
          SixTokenRows(a + b);
          [] + SixTokenRows(t + b);
          SixTokenRows(t + b);
          SixTokenRows(t) + SixTokenRows(b);
          ([] + SixTokenRows(t)) + SixTokenRows(b);
          SixTokenRows(a) + SixTokenRows(b);
        }
      }
    } else {
      assert a + b == b;
    }
  }

  /** Rows that all have six tokens pass the filter unchanged. */
  lemma {:induction false} SixTokenRowsKeepsAll(rows: seq<seq<string>>)
    requires forall k :: 0 <= k < |rows| ==> |rows[k]| == 6
    ensures SixTokenRows(rows) == rows
  {
    if rows != [] {
      SixTokenRowsKeepsAll(rows[1..]);
      assert rows == [rows[0]] + rows[1..];
    }
  }

  /** `.map(parts => ...)`: one record per six-token row. */
  function ToMatches(rows: seq<seq<string>>): (ms: seq<Match>)
    requires forall k :: 0 <= k < |rows| ==> |rows[k]| == 6
    ensures |ms| == |rows|
    ensures forall k :: 0 <= k < |ms| ==> RosterKeyed(ms[k]) && ms[k].team1 == rows[k][0] && ms[k].team2 == rows[k][1]
  {
    seq(|rows|, k requires 0 <= k < |rows| => ToMatch(rows[k]))
  }

  /** The three stages applied to the lines of the results text. */
  function ParseLines(lines: seq<string>): (ms: seq<Match>)
    ensures |ms| <= |lines|
    ensures forall k :: 0 <= k < |ms| ==> RosterKeyed(ms[k])
  {
    ToMatches(SixTokenRows(Tokenize(lines)))
  }

  /** `parseResults`: the text split on `\n`, then parsed line by line. */
  function ParseResults(text: string): (ms: seq<Match>)
    ensures |ms| <= |Split(text, '\n')|
    ensures forall k :: 0 <= k < |ms| ==> RosterKeyed(ms[k])
  {
    ParseLines(Split(text, '\n'))
  }

  /** Every parsed match has a prediction for every roster user, which is what
      the `!` in `match.predictions.get(user)!` takes for granted. */
  lemma ParsedMatchesAreRosterKeyed(text: string)
    ensures forall k :: 0 <= k < |ParseResults(text)| ==>
      RosterKeyed(ParseResults(text)[k]) && forall u :: u in Users ==> u in ParseResults(text)[k].predictions
  {
  }

  lemma ToMatchesAppend(x: seq<seq<string>>, y: seq<seq<string>>)
    requires forall k :: 0 <= k < |x| ==> |x[k]| == 6
    requires forall k :: 0 <= k < |y| ==> |y[k]| == 6
    ensures forall k :: 0 <= k < |x + y| ==> |(x + y)[k]| == 6
    ensures ToMatches(x + y) == ToMatches(x) + ToMatches(y)
  {
    assert forall k :: 0 <= k < |x + y| ==> |(x + y)[k]| == 6;
    var l, r := ToMatches(x + y), ToMatches(x) + ToMatches(y);
    forall k | 0 <= k < |l|
      ensures l[k] == r[k]
    {
      if k < |x| {
        assert (x + y)[k] == x[k];
      } else {
        assert (x + y)[k] == y[k - |x|];
      }
    }
  }

  /** Parsing is line by line: the records of two blocks of lines are those of
      the first block followed by those of the second. */
  lemma ParseLinesAppend(a: seq<string>, b: seq<string>)
    ensures ParseLines(a + b) == ParseLines(a) + ParseLines(b)
  {
    assert Tokenize(a + b) == Tokenize(a) + Tokenize(b);
    SixTokenRowsAppend(Tokenize(a), Tokenize(b));
    ToMatchesAppend(SixTokenRows(Tokenize(a)), SixTokenRows(Tokenize(b)));
  }

  /** A single line: one record when it has six tokens, none otherwise. */
  lemma ParseLinesSingle(line: string)
    ensures ParseLines([line]) == if |Split(line, ' ')| == 6 then [ToMatch(Split(line, ' '))] else []
  {
    assert Tokenize([line]) == [Split(line, ' ')];
    assert [Split(line, ' ')][1..] == [];
  }

  /** A line whose space-split does not give exactly six tokens is dropped and
      the lines around it are parsed as if it were absent. */
  lemma DropsMalformedLine(before: seq<string>, line: string, after: seq<string>)
    requires |Split(line, ' ')| != 6
    ensures ParseLines(before + [line] + after) == ParseLines(before) + ParseLines(after)
  {
    ParseLinesAppend(before + [line], after);
    ParseLinesAppend(before, [line]);
    ParseLinesSingle(line);
  }

  /** A six-token line becomes one record, placed between the records of the
      lines before it and those of the lines after it. */
  lemma KeepsMatchLine(before: seq<string>, line: string, after: seq<string>)
    requires |Split(line, ' ')| == 6
    ensures ParseLines(before + [line] + after)
         == ParseLines(before) + [ToMatch(Split(line, ' '))] + ParseLines(after)
  {
    ParseLinesAppend(before + [line], after);
    ParseLinesAppend(before, [line]);
    ParseLinesSingle(line);
  }

  /** The number of lines with exactly six tokens. */
  function CountMatchLines(lines: seq<string>): nat
  {
    if lines == [] then 0
    else (if |Split(lines[0], ' ')| == 6 then 1 else 0) + CountMatchLines(lines[1..])
  }

  /** The number of records is the number of six-token lines. */
  lemma {:induction false} ParseLinesLength(lines: seq<string>)
    ensures |ParseLines(lines)| == CountMatchLines(lines)
  {
    if lines != [] {
      ParseLinesLength(lines[1..]);
      assert lines == [lines[0]] + lines[1..];
      ParseLinesAppend([lines[0]], lines[1..]);
      ParseLinesSingle(lines[0]);
    }
  }

  /** Serialisation of the records, the inverse of parsing. */

  predicate IsNumeric(s: Score)
  {
    s.goals1.Int? && s.goals2.Int?
  }

  /** `a:b` in decimal. */
  function FormatScore(s: Score): (t: string)
    requires IsNumeric(s)
    ensures ' ' !in t && '\n' !in t
  {
    var t := IntToString(s.goals1.value) + ":" + IntToString(s.goals2.value);
    assert forall k :: 0 <= k < |t| ==> IsDigit(t[k]) || t[k] == '-' || t[k] == ':';
    t
  }

  /** A record that a results line can express: numeric scores, team names
      without spaces or line breaks, one prediction per roster user. */
  predicate Printable(m: Match)
  {
    && RosterKeyed(m)
    && ' ' !in m.team1 && '\n' !in m.team1
    && ' ' !in m.team2 && '\n' !in m.team2
    && IsNumeric(m.score)
    && forall u :: u in m.predictions ==> IsNumeric(m.predictions[u].score)
  }

  function LineTokens(m: Match): (tokens: seq<string>)
    requires Printable(m)
    ensures |tokens| == 6
    ensures forall k :: 0 <= k < 6 ==> ' ' !in tokens[k] && '\n' !in tokens[k]
  {
    [m.team1, m.team2, FormatScore(m.score),
     FormatScore(m.predictions[Users[0]].score),
     FormatScore(m.predictions[Users[1]].score),
     FormatScore(m.predictions[Users[2]].score)]
  }

  function FormatLine(m: Match): (line: string)
    requires Printable(m)
    ensures '\n' !in line
  {
    JoinChars(LineTokens(m), ' ', '\n');
    Join(LineTokens(m), ' ')
  }

  function FormatLines(ms: seq<Match>): seq<string>
    requires forall k :: 0 <= k < |ms| ==> Printable(ms[k])
  {
    seq(|ms|, k requires 0 <= k < |ms| => FormatLine(ms[k]))
  }

  /** The results text for a sequence of records, one line each. */
  function FormatResults(ms: seq<Match>): string
    requires forall k :: 0 <= k < |ms| ==> Printable(ms[k])
  {
    if ms == [] then "" else Join(FormatLines(ms), '\n')
  }

  /** Reading back `a:b` written in decimal yields the pair `[a, b]`. */
  lemma ParseScoreRoundTrip(a: int, b: int)
    ensures ParseScore(IntToString(a) + ":" + IntToString(b)) == Score(Int(a), Int(b))
  {
    var x, y := IntToString(a), IntToString(b);
    assert ':' !in x && ':' !in y by {
      assert forall k :: 0 <= k < |x| ==> IsDigit(x[k]) || x[k] == '-';
      assert forall k :: 0 <= k < |y| ==> IsDigit(y[k]) || y[k] == '-';
    }
    SplitJoin([x, y], ':');
    assert Join([x, y], ':') == x + ":" + y;
    NumberOfIntToString(a);
    NumberOfIntToString(b);
  }

  /** Reading back a formatted score yields that score. */
  lemma ParseFormatScore(s: Score)
    requires IsNumeric(s)
    ensures ParseScore(FormatScore(s)) == s
  {
    ParseScoreRoundTrip(s.goals1.value, s.goals2.value);
  }

  lemma PredictionsOfLineTokens(m: Match)
    requires Printable(m)
    ensures map[Users[0] := PredictionOf(LineTokens(m), 0),
                Users[1] := PredictionOf(LineTokens(m), 1),
                Users[2] := PredictionOf(LineTokens(m), 2)] == m.predictions
  {
    PredictionOfLineTokens(m, 0);
    PredictionOfLineTokens(m, 1);
    PredictionOfLineTokens(m, 2);
  }

  lemma PredictionOfLineTokens(m: Match, i: nat)
    requires Printable(m) && i < 3
    ensures PredictionOf(LineTokens(m), i) == m.predictions[Users[i]]
  {
    ParseFormatScore(m.predictions[Users[i]].score);
  }

  lemma ToMatchLineTokens(m: Match)
    requires Printable(m)
    ensures ToMatch(LineTokens(m)) == m
  {
    ParseFormatScore(m.score);
    PredictionsOfLineTokens(m);
  }

  lemma ParseFormatLine(m: Match)
    requires Printable(m)
    ensures |Split(FormatLine(m), ' ')| == 6
    ensures ToMatch(Split(FormatLine(m), ' ')) == m
  {
    SplitJoin(LineTokens(m), ' ');
    ToMatchLineTokens(m);
  }

  lemma ParseFormatLines(ms: seq<Match>)
    requires forall k :: 0 <= k < |ms| ==> Printable(ms[k])
    ensures ParseLines(FormatLines(ms)) == ms
  {
    var rows := Tokenize(FormatLines(ms));
    forall k | 0 <= k < |rows|
      ensures |rows[k]| == 6 && ToMatch(rows[k]) == ms[k]
    {
      ParseFormatLine(ms[k]);
    }
    SixTokenRowsKeepsAll(rows);
  }

  /** Parsing the text written for a sequence of records gives back exactly
      those records, in order. */
  lemma ParseFormatRoundTrip(ms: seq<Match>)
    requires forall k :: 0 <= k < |ms| ==> Printable(ms[k])
    ensures ParseResults(FormatResults(ms)) == ms
  {
    if ms == [] {
      assert Split("", '\n') == [""];
      assert Split("", ' ') == [""];
    } else {
      var lines := FormatLines(ms);
      forall k | 0 <= k < |lines|
        ensures '\n' !in lines[k]
      {
        assert lines[k] == FormatLine(ms[k]);
      }
      SplitJoin(lines, '\n');
      ParseFormatLines(ms);
    }
  }
}
