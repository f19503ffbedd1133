/** Season filter, the "played so far" prefix and the season roster (app.py, get_live_predictions). */
module Snapshot {
  import opened Tables
  import opened Seqs

  /** The matches of `year`, in table order (`all_matches_df[all_matches_df['year'] == year]`). */
  function SeasonMatches(year: int, matches: seq<Match>): (r: seq<Match>)
    ensures |r| <= |matches|
    ensures forall m :: m in r <==> m in matches && m.year == year
  {
    Filter(matches, (m: Match) => m.year == year)
  }

  /** The end index that Python's slice `s[:n]` uses on a sequence of length `len`;
      a negative `n` counts back from the end. */
  function SliceEnd(n: int, len: nat): (k: nat)
    ensures k <= len
  {
    if n >= 0 then (if n <= len then n else len)
    else if len + n >= 0 then len + n else 0
  }

  /** `s[:n]` / `df.iloc[:n]`. */
  function TakePrefix<T>(s: seq<T>, n: int): (r: seq<T>)
    ensures r <= s
  {
    s[..SliceEnd(n, |s|)]
  }

  /** The snapshot: the first `atMatchNumber` matches of the season of `year`. */
  function SnapshotMatches(year: int, atMatchNumber: int, matches: seq<Match>): (r: seq<Match>)
    ensures r <= SeasonMatches(year, matches)
    ensures 0 <= atMatchNumber ==>
      |r| == if atMatchNumber <= |SeasonMatches(year, matches)| then atMatchNumber else |SeasonMatches(year, matches)|
    ensures atMatchNumber < 0 ==>
      |r| == if |SeasonMatches(year, matches)| + atMatchNumber >= 0 then |SeasonMatches(year, matches)| + atMatchNumber else 0
    ensures forall m :: m in r ==> m in matches && m.year == year
  {
    TakePrefix(SeasonMatches(year, matches), atMatchNumber)
  }

  /** The teams of the season, each once, in pandas' `unique` order over
      `concat([Team1, Team2])`: every first side before every second side. */
  function Roster(season: seq<Match>): (r: seq<Team>)
    ensures NoDuplicates(r)
    ensures |r| <= 2 * |season|
  {
    DistinctLength(FirstSides(season) + SecondSides(season));
    Distinct(FirstSides(season) + SecondSides(season))
  }

  function FirstSides(season: seq<Match>): (r: seq<Team>)
    ensures |r| == |season| && forall i :: 0 <= i < |season| ==> r[i] == season[i].team1
  {
    seq(|season|, i requires 0 <= i < |season| => season[i].team1)
  }

  function SecondSides(season: seq<Match>): (r: seq<Team>)
    ensures |r| == |season| && forall i :: 0 <= i < |season| ==> r[i] == season[i].team2
  {
    seq(|season|, i requires 0 <= i < |season| => season[i].team2)
  }

  /** Season matches keep the table's order: the season of a concatenation is the
      concatenation of the seasons, and a table of one year is its own season. */
  lemma SeasonMatchesOrder(year: int, a: seq<Match>, b: seq<Match>)
    ensures SeasonMatches(year, a + b) == SeasonMatches(year, a) + SeasonMatches(year, b)
    ensures (forall i :: 0 <= i < |a| ==> a[i].year == year) ==> SeasonMatches(year, a) == a
  {
    FilterConcat(a, b, (m: Match) => m.year == year);
    if forall i :: 0 <= i < |a| ==> a[i].year == year {
      FilterAll(a, (m: Match) => m.year == year);
    }
  }

  /** A cutoff at or past the season length gives the whole season. */
  lemma SnapshotWholeSeason(year: int, atMatchNumber: int, matches: seq<Match>)
    requires atMatchNumber >= |SeasonMatches(year, matches)|
    ensures SnapshotMatches(year, atMatchNumber, matches) == SeasonMatches(year, matches)
  {
  }

  /** The snapshot is empty exactly when the season is empty, the cutoff is 0,
      or a negative cutoff reaches back past the season's first match. */
  lemma SnapshotEmptyIff(year: int, atMatchNumber: int, matches: seq<Match>)
    ensures SnapshotMatches(year, atMatchNumber, matches) == [] <==>
      (SeasonMatches(year, matches) == [] || atMatchNumber == 0 ||
       atMatchNumber <= -|SeasonMatches(year, matches)|)
  {
  }

  /** A later cutoff extends an earlier one: snapshots grow by appending matches. */
  lemma SnapshotMonotone(year: int, n: int, n': int, matches: seq<Match>)
    requires 0 <= n <= n'
    ensures SnapshotMatches(year, n, matches) <= SnapshotMatches(year, n', matches)
  {
  }

  /** The roster holds each team that plays in the season, and nothing else, exactly once. */
  lemma {:induction false} RosterMembers(season: seq<Match>, team: Team)
    ensures NoDuplicates(Roster(season))
    ensures team in Roster(season) <==> exists m :: m in season && Involves(m, team)
  {
    var sides := FirstSides(season) + SecondSides(season);
    if team in sides {
      var k :| 0 <= k < |sides| && sides[k] == team;
      if k < |season| {
        assert Involves(season[k], team);
      } else {
        assert Involves(season[k - |season|], team);
      }
    }
    if m :| m in season && Involves(m, team) {
      var k :| 0 <= k < |season| && season[k] == m;
      if m.team1 == team {
        assert sides[k] == team;
      } else {
        assert sides[|season| + k] == team;
      }
    }
  }

  /** First sides come first: the first sides' own distinct list is a prefix of the roster. */
  lemma RosterFirstSidesFirst(season: seq<Match>)
    ensures Distinct(FirstSides(season)) <= Roster(season)
  {
    DistinctPrefix(FirstSides(season), SecondSides(season));
  }

  /** The roster follows first appearance in the first-sides-then-second-sides list. */
  lemma RosterOrder(season: seq<Match>, i: nat, j: nat)
    requires i < j < |Roster(season)|
    ensures FirstIndex(FirstSides(season) + SecondSides(season), Roster(season)[i]) <
            FirstIndex(FirstSides(season) + SecondSides(season), Roster(season)[j])
  {
    DistinctFirstAppearanceOrder(FirstSides(season) + SecondSides(season), i, j);
  }
}
