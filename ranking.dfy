/** `getTotalPoints`: each roster user's total, the users sorted by total,
    ranks handed out down the sorted array, and the result keyed by user. */
module Ranking {
  import opened Results
  import opened Points

  /** The number of entries of `totals` strictly greater than `t`. */
  function CountAbove(totals: seq<int>, t: int): (n: nat)
    ensures n <= |totals|
    ensures n == 0 <==> forall k :: 0 <= k < |totals| ==> totals[k] <= t
    ensures n == |totals| <==> forall k :: 0 <= k < |totals| ==> totals[k] > t
  {
    if totals == [] then 0
    else (if totals[0] > t then 1 else 0) + CountAbove(totals[1..], t)
  }

  /** Competition rank of the total `t` among `totals`: one more than the
      number of totals strictly ahead of it. */
  function Rank(totals: seq<int>, t: int): (r: int)
    ensures 1 <= r <= |totals| + 1
    ensures r == 1 <==> forall k :: 0 <= k < |totals| ==> totals[k] <= t
  {
    1 + CountAbove(totals, t)
  }

  /** A total that occurs among `totals` is not ahead of itself, so its rank
      lies between 1 and the number of totals. */
  lemma {:induction false} RankBounds(totals: seq<int>, t: int)
    requires t in totals
    ensures 1 <= Rank(totals, t) <= |totals|
  {
    if totals[0] != t {
      RankBounds(totals[1..], t);
    }
  }

  /** Nobody is ahead of a greatest total: it ranks first. */
  lemma {:induction false} RankOfTop(totals: seq<int>, t: int)
    requires forall k :: 0 <= k < |totals| ==> totals[k] <= t
    ensures Rank(totals, t) == 1
  {
    if totals != [] {
      RankOfTop(totals[1..], t);
    }
  }

  /** A lower total never has fewer totals ahead of it. */
  lemma {:induction false} CountAboveAntitone(totals: seq<int>, hi: int, lo: int)
    requires lo <= hi
    ensures CountAbove(totals, hi) <= CountAbove(totals, lo)
  {
    if totals != [] {
      CountAboveAntitone(totals[1..], hi, lo);
    }
  }

  /** A strictly greater total that occurs among `totals` ranks strictly better. */
  lemma {:induction false} RankStrictlyOrdered(totals: seq<int>, hi: int, lo: int)
    requires hi in totals && lo < hi
    ensures Rank(totals, hi) < Rank(totals, lo)
  {
    if totals[0] == hi {
      CountAboveAntitone(totals[1..], hi, lo);
    } else {
      RankStrictlyOrdered(totals[1..], hi, lo);
    }
  }

  /** Totals 10, 10 and 7 rank 1, 1 and 3. */
  lemma RankExample()
    ensures Rank([10, 10, 7], 10) == 1 && Rank([10, 10, 7], 7) == 3
  {
    assert [10, 10, 7][1..] == [10, 7];
    assert [10, 7][1..] == [7];
    assert [7][1..] == [];
  }

  /** `{ user, points, rank }`, one per roster user. */
  datatype Standing = Standing(user: string, points: int, rank: int)

  /** The number of standings with strictly more points than `t`. */
  function Ahead(s: seq<Standing>, t: int): (n: nat)
    ensures n <= |s|
  {
    if s == [] then 0
    else (if s[0].points > t then 1 else 0) + Ahead(s[1..], t)
  }

  lemma {:induction false} AheadAppend(a: seq<Standing>, b: seq<Standing>, t: int)
    ensures Ahead(a + b, t) == Ahead(a, t) + Ahead(b, t)
  {
    if a == [] {
      assert a + b == b;
    } else {
      AheadAppend(a[1..], b, t);
      assert (a + b)[1..] == a[1..] + b;
    }
  }

  /** Taking out the standing at index `k` takes one copy of it out of the multiset. */
  lemma RemoveAt(u: seq<Standing>, k: nat)
    requires k < |u|
    ensures u == u[..k] + [u[k]] + u[k + 1..]
    ensures multiset(u[..k] + u[k + 1..]) == multiset(u) - multiset{u[k]}
  {
    assert u == u[..k] + [u[k]] + u[k + 1..];
    calc {
      multiset(u);
      multiset(u[..k] + [u[k]] + u[k + 1..]);
      multiset(u[..k]) + multiset{u[k]} + multiset(u[k + 1..]);
    }
  }

  /** Taking out the standing at index `k` takes its share out of the count. */
  lemma AheadRemoveAt(u: seq<Standing>, k: nat, t: int)
    requires k < |u|
    ensures Ahead(u, t) == Ahead(u[..k] + u[k + 1..], t) + (if u[k].points > t then 1 else 0)
  {
    assert u == u[..k] + ([u[k]] + u[k + 1..]);
    AheadAppend(u[..k], [u[k]] + u[k + 1..], t);
    assert ([u[k]] + u[k + 1..])[1..] == u[k + 1..];
    AheadAppend(u[..k], u[k + 1..], t);
  }

  /** Reordering the standings does not change how many are ahead of `t`. */
  lemma {:induction false} AheadPermutation(s: seq<Standing>, u: seq<Standing>, t: int)
    requires multiset(s) == multiset(u)
    ensures Ahead(s, t) == Ahead(u, t)
    decreases |s|
  {
    if s == [] {
      assert |u| == |multiset(u)| == 0;
    } else {
      var x := s[0];
      assert x in multiset(u) by {
        assert x in multiset(s);
      }
      var k :| 0 <= k < |u| && u[k] == x;
      var rest := u[..k] + u[k + 1..];
      assert multiset(s[1..]) == multiset(rest) by {
        RemoveAt(u, k);
        RemoveFirst(s);
      }
      AheadPermutation(s[1..], rest, t);
      AheadRemoveAt(u, k, t);
    }
  }

  /** Dropping the first standing takes one copy of it out of the multiset. */
  lemma RemoveFirst(s: seq<Standing>)
    requires s != []
    ensures multiset(s[1..]) == multiset(s) - multiset{s[0]}
  {
    assert s == [s[0]] + s[1..];
  }

  /** When the first `i` standings are exactly those above `t`, `i` are ahead of it. */
  lemma {:induction false} AheadPrefix(s: seq<Standing>, i: nat, t: int)
    requires i <= |s|
    requires forall k :: 0 <= k < i ==> s[k].points > t
    requires forall k :: i <= k < |s| ==> s[k].points <= t
    ensures Ahead(s, t) == i
  {
    if s != [] {
      AheadPrefix(s[1..], if i == 0 then 0 else i - 1, t);
    }
  }

  /** Standings ordered by points, most points first. */
  predicate Descending(s: seq<Standing>)
  {
    forall i, j :: 0 <= i < j < |s| ==> s[i].points >= s[j].points
  }

  /** In a descending array, the first standing of each run of equal points
      has exactly its index many standings ahead of it. */
  lemma AheadAtRunStart(s: seq<Standing>, i: nat)
    requires Descending(s) && i < |s|
    requires i == 0 || s[i - 1].points != s[i].points
    ensures Ahead(s, s[i].points) == i
  {
    AheadPrefix(s, i, s[i].points);
  }

  /** Exchanges the standings at `j - 1` and `j`. */
  method SwapDown(a: array<Standing>, j: nat)
    requires 0 < j < a.Length
    modifies a
    ensures a[..] == old(a[..])[j - 1 := old(a[j])][j := old(a[j - 1])]
    ensures forall k :: j < k < a.Length ==> a[k] == old(a[k])
    ensures multiset(a[..]) == multiset(old(a[..]))
  {
    a[j - 1], a[j] := a[j], a[j - 1];
  }

  /** One insertion step: the standing at `i` moves left past every standing
      with fewer points, so that the first `i + 1` are in descending order.
      The first `i + 1` standings are rearranged among themselves; the rest
      stay where they are. */
  method InsertLast(a: array<Standing>, i: nat)
    requires i < a.Length && Descending(a[..i])
    modifies a
    ensures Descending(a[..i + 1])
    ensures multiset(a[..i + 1]) == multiset(old(a[..i + 1]))
    ensures forall k :: i < k < a.Length ==> a[k] == old(a[k])
    ensures multiset(a[..]) == multiset(old(a[..]))
  {
    SinkLast(a, i);
    PrefixMultiset(a[..], old(a[..]), i + 1);
  }

  /** The loop of the insertion step, swapping the standing at `i` leftwards. */
  method SinkLast(a: array<Standing>, i: nat)
    requires i < a.Length && Descending(a[..i])
    modifies a
    ensures Descending(a[..i + 1])
    ensures forall k :: i < k < a.Length ==> a[k] == old(a[k])
    ensures multiset(a[..]) == multiset(old(a[..]))
  {
    var j := i;
    while j > 0 && a[j - 1].points < a[j].points
      invariant 0 <= j <= i
      invariant multiset(a[..]) == multiset(old(a[..]))
      invariant forall k :: i < k < a.Length ==> a[k] == old(a[k])
      invariant forall k, l :: 0 <= k < l <= i && k != j && l != j ==> a[k].points >= a[l].points
      invariant forall l :: j < l <= i ==> a[j].points > a[l].points
    {
      SwapDown(a, j);
      j := j - 1;
    }
  }

  /** Two sequences that are permutations of each other and agree from `n`
      on are permutations of each other up to `n`. */
  lemma PrefixMultiset(x: seq<Standing>, y: seq<Standing>, n: nat)
    requires n <= |x| == |y|
    requires multiset(x) == multiset(y)
    requires forall k :: n <= k < |x| ==> x[k] == y[k]
    ensures multiset(x[..n]) == multiset(y[..n])
  {
    assert x[n..] == y[n..];
    assert x == x[..n] + x[n..];
    assert y == y[..n] + y[n..];
    calc {
      multiset(x[..n]);
      multiset(x[..n]) + multiset(x[n..]) - multiset(x[n..]);
      multiset(x) - multiset(x[n..]);
      multiset(y) - multiset(y[n..]);
      multiset(y[..n]) + multiset(y[n..]) - multiset(y[n..]);
      multiset(y[..n]);
    }
  }

  /** `data.sort((a, b) => b.points - a.points)`, by insertion: afterwards
      the array is ordered by points, most first, and holds the same standings. */
  method SortByPoints(a: array<Standing>)
    modifies a
    ensures Descending(a[..])
    ensures multiset(a[..]) == multiset(old(a[..]))
  {
    for i := 0 to a.Length
      invariant Descending(a[..i])
      invariant multiset(a[..]) == multiset(old(a[..]))
    {
      InsertLast(a, i);
    }
    assert a[..a.Length] == a[..];
  }

  /** The rank loop: walking the descending array, a standing whose points
      differ from its predecessor's takes its 1-based position as rank, and
      otherwise shares its predecessor's rank. Afterwards every standing's
      rank is one more than the number of standings with more points. */
  method AssignRanks(a: array<Standing>)
    requires Descending(a[..])
    modifies a
    ensures forall k :: 0 <= k < a.Length ==>
      a[k] == old(a[k]).(rank := 1 + Ahead(old(a[..]), old(a[k]).points))
  {
    ghost var s := a[..];
    var rank := 1;
    for i := 0 to a.Length
      invariant forall k :: 0 <= k < i ==> a[k] == s[k].(rank := 1 + Ahead(s, s[k].points))
      invariant forall k :: i <= k < a.Length ==> a[k] == s[k]
      invariant i == 0 ==> rank == 1
      invariant 0 < i ==> rank == 1 + Ahead(s, s[i - 1].points)
    {
      if i > 0 && a[i].points != a[i - 1].points {
        rank := i + 1;
      }
      assert rank == 1 + Ahead(s, s[i].points) by {
        if i == 0 || s[i - 1].points != s[i].points {
          AheadAtRunStart(s, i);
        }
      }
      a[i] := a[i].(rank := rank);
    }
  }

  /** Every roster user has a prediction in every match. */
  predicate RosterPredicted(matches: seq<Match>)
  {
    forall u :: u in Roster ==> PredictedBy(matches, u)
  }

  /** The roster's totals, in roster order. */
  function UserTotals(matches: seq<Match>): (totals: seq<int>)
    requires RosterPredicted(matches)
    ensures |totals| == |Users|
    ensures forall i :: 0 <= i < |Users| ==> 0 <= totals[i] <= 6 * |matches|
  {
    seq(|Users|, i requires 0 <= i < |Users| => Total(matches, Users[i]))
  }

  /** `users.map(user => ({ user, points, rank: 0 }))`. */
  function InitialStandings(matches: seq<Match>): (s: seq<Standing>)
    requires RosterPredicted(matches)
    ensures |s| == |Users|
    ensures forall i :: 0 <= i < |s| ==>
      s[i].user == Users[i] && s[i].points == UserTotals(matches)[i] && s[i].rank == 0
  {
    seq(|Users|, i requires 0 <= i < |Users| => Standing(Users[i], Total(matches, Users[i]), 0))
  }

  /** Counting standings ahead is counting the totals ahead. */
  lemma {:induction false} AheadIsCountAbove(s: seq<Standing>, totals: seq<int>, t: int)
    requires |s| == |totals|
    requires forall k :: 0 <= k < |s| ==> s[k].points == totals[k]
    ensures Ahead(s, t) == CountAbove(totals, t)
  {
    if s != [] {
      AheadIsCountAbove(s[1..], totals[1..], t);
    }
  }

  /** What the result holds for roster user `u`: their total and one more
      than the number of roster users with a strictly greater total. */
  function Outcome(matches: seq<Match>, u: string): (int, int)
    requires RosterPredicted(matches) && u in Roster
  {
    (Total(matches, u), Rank(UserTotals(matches), Total(matches, u)))
  }

  /** A standing whose points are its user's total and whose rank is that
      total's rank. */
  predicate Scored(matches: seq<Match>, x: Standing)
    requires RosterPredicted(matches)
  {
    x.user in Roster && (x.points, x.rank) == Outcome(matches, x.user)
  }

  /** A standing of the sorted permutation, once ranked, carries its user's outcome. */
  lemma RankedStandingScored(matches: seq<Match>, sorted: seq<Standing>, k: nat)
    requires RosterPredicted(matches)
    requires multiset(sorted) == multiset(InitialStandings(matches))
    requires k < |sorted|
    ensures Scored(matches, sorted[k].(rank := 1 + Ahead(sorted, sorted[k].points)))
  {
    var initial, totals := InitialStandings(matches), UserTotals(matches);
    assert sorted[k] in multiset(initial);
    var i :| 0 <= i < |initial| && initial[i] == sorted[k];
    AheadPermutation(sorted, initial, sorted[k].points);
    AheadIsCountAbove(initial, totals, sorted[k].points);
  }

  /** Every roster user has a standing in a permutation of the initial standings. */
  lemma RosterCovered(matches: seq<Match>, sorted: seq<Standing>, j: nat)
    requires RosterPredicted(matches)
    requires multiset(sorted) == multiset(InitialStandings(matches))
    requires j < |Users|
    ensures exists k :: 0 <= k < |sorted| && sorted[k].user == Users[j]
  {
    var initial := InitialStandings(matches);
    assert initial[j] in multiset(sorted);
    var k :| 0 <= k < |sorted| && sorted[k] == initial[j];
    assert sorted[k].user == Users[j];
  }

  /** The users of the standings. */
  function UsersOf(s: seq<Standing>): (users: set<string>)
    ensures forall k :: 0 <= k < |s| ==> s[k].user in users
  {
    if s == [] then {} else UsersOf(s[..|s| - 1]) + {s[|s| - 1].user}
  }

  /** The users of the standings are exactly the `user` fields, no more. */
  lemma {:induction false} UsersOfExactly(s: seq<Standing>)
    ensures UsersOf(s) == set k | 0 <= k < |s| :: s[k].user
  {
    if s != [] {
      var p := s[..|s| - 1];
      UsersOfExactly(p);
      assert (set k | 0 <= k < |s| :: s[k].user) == (set k | 0 <= k < |p| :: p[k].user) + {s[|s| - 1].user};
    }
  }

  /** The rank loop's output on a permutation of the initial standings:
      every standing carries its user's outcome, and the users are those of
      the permutation, in the same order. */
  lemma RankedStandingsScored(matches: seq<Match>, sorted: seq<Standing>, ranked: seq<Standing>)
    requires RosterPredicted(matches)
    requires multiset(sorted) == multiset(InitialStandings(matches))
    requires |ranked| == |sorted|
    requires forall k :: 0 <= k < |ranked| ==>
      ranked[k] == sorted[k].(rank := 1 + Ahead(sorted, sorted[k].points))
    ensures forall k :: 0 <= k < |ranked| ==> Scored(matches, ranked[k])
    ensures UsersOf(ranked) == Roster
  {
    forall k | 0 <= k < |ranked|
      ensures Scored(matches, ranked[k])
    {
      RankedStandingScored(matches, sorted, k);
    }
    RankedUsersAreRoster(matches, sorted, ranked);
  }

  /** The users of standings whose users all lie in `r` lie in `r`. */
  lemma {:induction false} UsersOfWithin(s: seq<Standing>, r: set<string>)
    requires forall k :: 0 <= k < |s| ==> s[k].user in r
    ensures UsersOf(s) <= r
  {
    if s != [] {
      UsersOfWithin(s[..|s| - 1], r);
    }
  }

  /** Roster standings that carry the users of a permutation of the initial
      standings, in any order, have exactly the roster as users. */
  lemma RankedUsersAreRoster(matches: seq<Match>, sorted: seq<Standing>, ranked: seq<Standing>)
    requires RosterPredicted(matches)
    requires multiset(sorted) == multiset(InitialStandings(matches))
    requires |ranked| == |sorted|
    requires forall k :: 0 <= k < |ranked| ==> ranked[k].user == sorted[k].user && ranked[k].user in Roster
    ensures UsersOf(ranked) == Roster
  {
    UsersOfWithin(ranked, Roster);
    forall j | 0 <= j < |Users|
      ensures Users[j] in UsersOf(ranked)
    {
      RosterCovered(matches, sorted, j);
      var k :| 0 <= k < |sorted| && sorted[k].user == Users[j];
      assert ranked[k].user == Users[j];
    }
  }

  /** `new Map(data.map(x => [x.user, [x.points, x.rank]]))`: one entry per
      user of the standings, each holding that user's points and rank. */
  method ToResultMap(matches: seq<Match>, a: array<Standing>) returns (result: map<string, (int, int)>)
    requires RosterPredicted(matches)
    requires forall k :: 0 <= k < a.Length ==> Scored(matches, a[k])
    ensures result.Keys == UsersOf(a[..])
    ensures forall u :: u in result ==> u in Roster && result[u] == Outcome(matches, u)
  {
    result := map[];
    for i := 0 to a.Length
      invariant result.Keys == UsersOf(a[..i])
      invariant forall u :: u in result ==> u in Roster && result[u] == Outcome(matches, u)
    {
      assert a[..i + 1][..i] == a[..i];
      result := result[a[i].user := (a[i].points, a[i].rank)];
    }
    assert a[..a.Length] == a[..];
  }

  /** A map from every roster user to their outcome, read by roster index. */
  lemma OutcomesByRosterIndex(matches: seq<Match>, result: map<string, (int, int)>)
    requires RosterPredicted(matches)
    requires result.Keys == Roster
    requires forall u :: u in result ==> result[u] == Outcome(matches, u)
    ensures forall i :: 0 <= i < |Users| ==>
      result[Users[i]] == (UserTotals(matches)[i], Rank(UserTotals(matches), UserTotals(matches)[i]))
  {
  }

  /** `getTotalPoints`: every roster user is mapped to their total over all
      matches and to one more than the number of roster users with a strictly
      greater total, whatever order the sort leaves tied users in. */
  method GetTotalPoints(matches: seq<Match>) returns (result: map<string, (int, int)>)
    requires RosterPredicted(matches)
    ensures result.Keys == Roster
    ensures forall i :: 0 <= i < |Users| ==>
      result[Users[i]] == (UserTotals(matches)[i], Rank(UserTotals(matches), UserTotals(matches)[i]))
  {
    var initial := InitialStandings(matches);
    var data := new Standing[|initial|](k requires 0 <= k < |initial| => initial[k]);
    assert data[..] == initial;
    SortByPoints(data);
    ghost var sorted := data[..];
    AssignRanks(data);
    RankedStandingsScored(matches, sorted, data[..]);
    result := ToResultMap(matches, data);
    OutcomesByRosterIndex(matches, result);
  }

  /** Whatever text is parsed, every roster user has a prediction in every
      resulting match, so `getTotalPoints` may be applied to it. */
  lemma ParsedResultsArePredicted(text: string)
    ensures RosterPredicted(ParseResults(text))
  {
    forall u | u in Roster
      ensures PredictedBy(ParseResults(text), u)
    {
      ParsedMatchesAreRosterKeyed(text);
    }
  }

  /** The application's pipeline: the fetched results text is parsed and the
      parsed matches are scored. Every roster user gets their total over the
      parsed matches and its rank among all users' totals. */
  method ScoreResults(text: string) returns (result: map<string, (int, int)>)
    ensures RosterPredicted(ParseResults(text))
    ensures result.Keys == Roster
    ensures forall i :: 0 <= i < |Users| ==>
      result[Users[i]] == (Total(ParseResults(text), Users[i]),
                           Rank(UserTotals(ParseResults(text)), Total(ParseResults(text), Users[i])))
  {
    var matches := ParseResults(text);
    ParsedResultsArePredicted(text);
    result := GetTotalPoints(matches);
  }
}
