/** The three snapshot points offered for a season (app.py lines 104-108). */
module SnapshotPoints {
  import opened Tables
  import opened Snapshot

  /** The last matches of a season are taken to be playoffs, outside the league stage. */
  const PlayoffMatches: int := 4

  /** The cutoffs offered: end of the league stage, its half and its three quarters. */
  datatype Points = Points(leagueStageEnd: int, halfway: int, threeQuarter: int)

  /** Python's `int(x)`: truncation toward zero. */
  function Truncate(x: real): (r: int)
    ensures 0.0 <= x ==> r as real <= x < r as real + 1.0
    ensures x < 0.0 ==> r as real - 1.0 < x <= r as real
  {
    if x >= 0.0 then x.Floor else -((-x).Floor)
  }

  /** The points for a season of `totalMatches` matches: `L = T - 4`, `L // 2` and `int(L * 0.75)`. */
  function PointsFor(totalMatches: nat): (p: Points)
    ensures p.leagueStageEnd == totalMatches - PlayoffMatches
    ensures 2 * p.halfway <= p.leagueStageEnd < 2 * p.halfway + 2
  {
    var leagueEnd := totalMatches - PlayoffMatches;
    Points(leagueEnd, leagueEnd / 2, Truncate(leagueEnd as real * 0.75))
  }

  /** The three-quarter point is three quarters of the league stage, rounded toward zero. */
  lemma ThreeQuarterRounding(totalMatches: nat)
    ensures var p := PointsFor(totalMatches);
      && (p.leagueStageEnd >= 0 ==> 4 * p.threeQuarter <= 3 * p.leagueStageEnd < 4 * p.threeQuarter + 4)
      && (p.leagueStageEnd < 0 ==> 4 * p.threeQuarter - 4 < 3 * p.leagueStageEnd <= 4 * p.threeQuarter)
  {
  }

  /** Once the season has its four playoff matches, the points come in order:
      0 <= halfway <= three quarters <= end of league. */
  lemma PointsOrdered(totalMatches: nat)
    requires totalMatches >= PlayoffMatches
    ensures 0 <= PointsFor(totalMatches).halfway <= PointsFor(totalMatches).threeQuarter
            <= PointsFor(totalMatches).leagueStageEnd
  {
  }

  /** For such a season each point is a cutoff inside the season: the snapshot at that point
      holds exactly that many matches. */
  lemma PointsWithinSeason(season: seq<Match>)
    requires |season| >= PlayoffMatches
    ensures |TakePrefix(season, PointsFor(|season|).halfway)| == PointsFor(|season|).halfway
    ensures |TakePrefix(season, PointsFor(|season|).threeQuarter)| == PointsFor(|season|).threeQuarter
    ensures |TakePrefix(season, PointsFor(|season|).leagueStageEnd)| == PointsFor(|season|).leagueStageEnd
  {
  }

  /** A season shorter than the playoffs gives a negative end of league; as a slice bound
      it drops matches from the end instead of selecting none (three matches give two). */
  lemma ShortSeasonLeagueEnd(season: seq<Match>)
    requires |season| < PlayoffMatches
    ensures PointsFor(|season|).leagueStageEnd < 0
    ensures |TakePrefix(season, PointsFor(|season|).leagueStageEnd)|
            == if |season| >= 2 then 2 * |season| - PlayoffMatches else 0
  {
  }

  /** The case the source's comment names: a 74-match season ends its league at match 70. */
  lemma SeventyFourMatchSeason()
    ensures PointsFor(74) == Points(70, 35, 52)
  {
  }
}
