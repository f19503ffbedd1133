/** Per-team live features (app.py, get_live_predictions, the loop over the season's teams). */
module Features {
  import opened Tables
  import opened Seqs

  /** One rupee crore: the divisor that turns a price total into `squad_cost_crores`. */
  const CroreDivisor: int := 10_000_000
  /** A purchase strictly above this price counts towards `star_player_index`. */
  const StarThreshold: int := 80_000_000

  /** One row of `live_features_list`. */
  datatype TeamFeatures = TeamFeatures(
    team: Team,
    pointsMidSeason: int,
    winPctMidSeason: real,
    squadCostCrores: real,
    starPlayerIndex: int)

  /** The snapshot matches in which `team` is one of the two sides. */
  function TeamMatches(team: Team, snapshot: seq<Match>): (r: seq<Match>)
    ensures |r| <= |snapshot|
    ensures forall m :: m in r <==> m in snapshot && Involves(m, team)
  {
    Filter(snapshot, (m: Match) => Involves(m, team))
  }

  /** The rows of `matches` whose recorded winner is `team`. */
  function WonBy(team: Team, matches: seq<Match>): (r: seq<Match>)
    ensures |r| <= |matches|
    ensures forall m :: m in r <==> m in matches && m.winner == team
  {
    Filter(matches, (m: Match) => m.winner == team)
  }

  /** `len(team_matches_fh)`. */
  function Played(team: Team, snapshot: seq<Match>): (r: nat)
    ensures r <= |snapshot|
  {
    |TeamMatches(team, snapshot)|
  }

  /** `(team_matches_fh['WinningTeam'] == team).sum()`. */
  function Wins(team: Team, snapshot: seq<Match>): (r: nat)
    ensures r <= Played(team, snapshot)
  {
    |WonBy(team, TeamMatches(team, snapshot))|
  }

  /** `wins / played`, or 0 when nothing has been played (no division by zero). */
  function WinPct(wins: nat, played: nat): (r: real)
    requires wins <= played
    ensures 0.0 <= r <= 1.0
    ensures played == 0 ==> r == 0.0
    ensures played > 0 ==> r * played as real == wins as real
  {
    if played > 0 then wins as real / played as real else 0.0
  }

  /** The season's auction rows bought by `team`. */
  function TeamAuctionRows(team: Team, seasonAuction: seq<AuctionRow>): (r: seq<AuctionRow>)
    ensures |r| <= |seasonAuction|
    ensures forall a :: a in r <==> a in seasonAuction && a.team == team
  {
    Filter(seasonAuction, (a: AuctionRow) => a.team == team)
  }

  /** `price.sum()`, 0 for no rows. */
  function TotalPrice(rows: seq<AuctionRow>): (r: int)
    ensures (forall i :: 0 <= i < |rows| ==> rows[i].price >= 0) ==> r >= 0
  {
    if rows == [] then 0 else rows[0].price + TotalPrice(rows[1..])
  }

  /** `(price > 8_00_00_000).sum()`. */
  function StarCount(rows: seq<AuctionRow>): (r: nat)
    ensures r <= |rows|
  {
    |Filter(rows, (a: AuctionRow) => a.price > StarThreshold)|
  }

  /** The feature record the loop appends for `team`. */
  function FeaturesOf(team: Team, snapshot: seq<Match>, seasonAuction: seq<AuctionRow>): (r: TeamFeatures)
    ensures r.team == team
    ensures 0 <= r.pointsMidSeason <= 2 * Played(team, snapshot)
    ensures 0.0 <= r.winPctMidSeason <= 1.0
    ensures 0 <= r.starPlayerIndex <= |TeamAuctionRows(team, seasonAuction)|
  {
    var wins := Wins(team, snapshot);
    var teamRows := TeamAuctionRows(team, seasonAuction);
    TeamFeatures(
      team,
      wins * 2,
      WinPct(wins, Played(team, snapshot)),
      TotalPrice(teamRows) as real / CroreDivisor as real,
      StarCount(teamRows))
  }

  /** The whole feature table: one record per roster team, in roster order. */
  function FeatureTable(roster: seq<Team>, snapshot: seq<Match>, seasonAuction: seq<AuctionRow>): (r: seq<TeamFeatures>)
    ensures |r| == |roster|
  {
    seq(|roster|, i requires 0 <= i < |roster| => FeaturesOf(roster[i], snapshot, seasonAuction))
  }

  /** The loop of get_live_predictions: for each team, filter its matches and its auction rows,
      derive the five features and append the record. */
  method BuildFeatures(roster: seq<Team>, snapshot: seq<Match>, seasonAuction: seq<AuctionRow>)
    returns (rows: seq<TeamFeatures>)
    ensures rows == FeatureTable(roster, snapshot, seasonAuction)
  {
    rows := [];
    var i := 0;
    while i < |roster|
      invariant 0 <= i <= |roster|
      invariant rows == FeatureTable(roster[..i], snapshot, seasonAuction)
    {
      var team := roster[i];
      var teamMatches := TeamMatches(team, snapshot);
      var wins := |WonBy(team, teamMatches)|;
      var points := wins * 2;
      var winPct := if |teamMatches| > 0 then wins as real / |teamMatches| as real else 0.0;
      var teamRows := TeamAuctionRows(team, seasonAuction);
      var squadCost := TotalPrice(teamRows) as real / CroreDivisor as real;
      var starPlayerIndex := StarCount(teamRows);
      var record := TeamFeatures(team, points, winPct, squadCost, starPlayerIndex);
      assert record == FeaturesOf(team, snapshot, seasonAuction);
      assert roster[..i + 1] == roster[..i] + [team];
      rows := rows + [record];
      i := i + 1;
    }
    assert roster[..i] == roster;
  }

  /** Wins count only the matches the team took part in: a recorded winner that was
      not one of the two sides does not count. */
  lemma {:induction false} WinsAreWonMatchesPlayed(team: Team, snapshot: seq<Match>)
    ensures Wins(team, snapshot) <= Played(team, snapshot)
    ensures Wins(team, snapshot) ==
      |Filter(snapshot, (m: Match) => Involves(m, team) && m.winner == team)|
  {
    FilterFilter(snapshot, (m: Match) => Involves(m, team), (m: Match) => m.winner == team,
                 (m: Match) => Involves(m, team) && m.winner == team);
  }

  /** What each record promises about results: one record for the team, two points a win,
      and a win percentage in [0, 1] that is 0 without a match played. */
  lemma FeaturesOfResults(team: Team, snapshot: seq<Match>, seasonAuction: seq<AuctionRow>)
    ensures FeaturesOf(team, snapshot, seasonAuction).team == team
    ensures FeaturesOf(team, snapshot, seasonAuction).pointsMidSeason == 2 * Wins(team, snapshot)
    ensures 0 <= FeaturesOf(team, snapshot, seasonAuction).pointsMidSeason <= 2 * Played(team, snapshot)
    ensures 0.0 <= FeaturesOf(team, snapshot, seasonAuction).winPctMidSeason <= 1.0
    ensures Played(team, snapshot) == 0 ==>
      FeaturesOf(team, snapshot, seasonAuction).winPctMidSeason == 0.0 &&
      FeaturesOf(team, snapshot, seasonAuction).pointsMidSeason == 0
    ensures Played(team, snapshot) > 0 ==>
      FeaturesOf(team, snapshot, seasonAuction).winPctMidSeason
        == Wins(team, snapshot) as real / Played(team, snapshot) as real
  {
  }

  /** What each record promises about the auction: the squad cost is that team's price total
      in crores and the star index counts some of that team's purchases. */
  lemma FeaturesOfAuction(team: Team, snapshot: seq<Match>, seasonAuction: seq<AuctionRow>)
    ensures FeaturesOf(team, snapshot, seasonAuction).squadCostCrores * CroreDivisor as real
      == TotalPrice(TeamAuctionRows(team, seasonAuction)) as real
    ensures 0 <= FeaturesOf(team, snapshot, seasonAuction).starPlayerIndex <= |TeamAuctionRows(team, seasonAuction)|
  {
  }

  /** A team no snapshot match involves has no points and a win percentage of exactly 0. */
  lemma UnplayedTeam(team: Team, snapshot: seq<Match>, seasonAuction: seq<AuctionRow>)
    requires forall m :: m in snapshot ==> !Involves(m, team)
    ensures FeaturesOf(team, snapshot, seasonAuction).pointsMidSeason == 0
    ensures FeaturesOf(team, snapshot, seasonAuction).winPctMidSeason == 0.0
  {
    FilterNone(snapshot, (m: Match) => Involves(m, team));
  }

  /** The star index counts purchase by purchase: it adds up over concatenated rows, and a single
      purchase counts exactly when its price is strictly above 80,000,000. */
  lemma StarCountCounts(a: seq<AuctionRow>, b: seq<AuctionRow>, row: AuctionRow)
    ensures StarCount(a + b) == StarCount(a) + StarCount(b)
    ensures StarCount([row]) == if row.price > StarThreshold then 1 else 0
  {
    FilterConcat(a, b, (x: AuctionRow) => x.price > StarThreshold);
    assert [row][1..] == [];
  }

  /** A purchase of exactly 80,000,000 is no star; one rupee more is. */
  lemma StarThresholdBoundary(year: int, team: Team)
    ensures StarCount([AuctionRow(year, team, 80_000_000)]) == 0
    ensures StarCount([AuctionRow(year, team, 80_000_001)]) == 1
  {
    StarCountCounts([], [], AuctionRow(year, team, 80_000_000));
    StarCountCounts([], [], AuctionRow(year, team, 80_000_001));
  }

  /** Sum of prices over a concatenation. */
  lemma {:induction false} TotalPriceConcat(a: seq<AuctionRow>, b: seq<AuctionRow>)
    ensures TotalPrice(a + b) == TotalPrice(a) + TotalPrice(b)
  {
    if a != [] {
      assert (a + b)[1..] == a[1..] + b;
      TotalPriceConcat(a[1..], b);
    } else {
      assert a + b == b;
    }
  }

  /** With no negative price, the squad cost is at least each single purchase and never negative. */
  lemma {:induction false} TotalPriceBounds(rows: seq<AuctionRow>)
    requires forall a :: a in rows ==> a.price >= 0
    ensures TotalPrice(rows) >= 0
    ensures forall a :: a in rows ==> a.price <= TotalPrice(rows)
  {
    if rows != [] {
      TotalPriceBounds(rows[1..]);
    }
  }

  /** Changing a purchase of another team (its price, its year or its buyer, so long as
      the buyer stays another team) leaves this team's auction features unchanged. */
  lemma AuctionFeaturesIsolated(team: Team, seasonAuction: seq<AuctionRow>, i: nat, row: AuctionRow,
                                snapshot: seq<Match>)
    requires i < |seasonAuction|
    requires seasonAuction[i].team != team && row.team != team
    ensures FeaturesOf(team, snapshot, seasonAuction[i := row]) == FeaturesOf(team, snapshot, seasonAuction)
  {
    FilterUpdateUnselected(seasonAuction, (a: AuctionRow) => a.team == team, i, row);
  }

  /** Each roster team gets exactly one record, in roster order. */
  lemma FeatureTableTeams(roster: seq<Team>, snapshot: seq<Match>, seasonAuction: seq<AuctionRow>)
    requires NoDuplicates(roster)
    ensures forall i :: 0 <= i < |roster| ==> FeatureTable(roster, snapshot, seasonAuction)[i].team == roster[i]
    ensures forall i, j :: 0 <= i < j < |roster| ==>
      FeatureTable(roster, snapshot, seasonAuction)[i].team != FeatureTable(roster, snapshot, seasonAuction)[j].team
  {
  }

  /** A later snapshot never lowers a team's points or its played count. */
  lemma PointsMonotone(team: Team, early: seq<Match>, late: seq<Match>, seasonAuction: seq<AuctionRow>)
    requires early <= late
    ensures Played(team, early) <= Played(team, late)
    ensures FeaturesOf(team, early, seasonAuction).pointsMidSeason <= FeaturesOf(team, late, seasonAuction).pointsMidSeason
  {
    FilterPrefixMonotone(early, late, (m: Match) => Involves(m, team));
    FilterPrefixMonotone(TeamMatches(team, early), TeamMatches(team, late), (m: Match) => m.winner == team);
  }

  /** The three matches of a small season: A beats B twice, then B beats A. */
  function ThreeMatches(): seq<Match>
  {
    [Match(2020, "A", "B", "A"), Match(2020, "B", "A", "A"), Match(2020, "A", "B", "B")]
  }

  /** In the three-match season A plays all three matches and wins the first two. */
  lemma ThreeMatchCountsWinner()
    ensures Wins("A", ThreeMatches()) == 2 && Played("A", ThreeMatches()) == 3
  {
    var s := ThreeMatches();
    FilterThree(s[0], s[1], s[2], (m: Match) => Involves(m, "A"));
    assert TeamMatches("A", s) == s;
    FilterThree(s[0], s[1], s[2], (m: Match) => m.winner == "A");
    assert WonBy("A", s) == [s[0], s[1]];
  }

  /** In the three-match season B plays all three matches and wins the last. */
  lemma ThreeMatchCountsRunnerUp()
    ensures Wins("B", ThreeMatches()) == 1 && Played("B", ThreeMatches()) == 3
  {
    var s := ThreeMatches();
    FilterThree(s[0], s[1], s[2], (m: Match) => Involves(m, "B"));
    assert TeamMatches("B", s) == s;
    FilterThree(s[0], s[1], s[2], (m: Match) => m.winner == "B");
    assert WonBy("B", s) == [s[2]];
  }

  /** With the whole three-match season as snapshot, A has 4 points and 2/3 and B has 2 points and 1/3. */
  lemma ThreeMatchScenario()
    ensures FeaturesOf("A", ThreeMatches(), []).pointsMidSeason == 4
    ensures FeaturesOf("A", ThreeMatches(), []).winPctMidSeason == 2.0 / 3.0
    ensures FeaturesOf("B", ThreeMatches(), []).pointsMidSeason == 2
    ensures FeaturesOf("B", ThreeMatches(), []).winPctMidSeason == 1.0 / 3.0
  {
    ThreeMatchCountsWinner();
    ThreeMatchCountsRunnerUp();
    assert WinPct(2, 3) == 2.0 / 3.0;
    assert WinPct(1, 3) == 1.0 / 3.0;
  }

  /** Purchases of 90,000,000 and 50,000,000: a squad cost of 14 crores and one star. */
  lemma AuctionScenario()
    ensures var rows := [AuctionRow(2020, "A", 90_000_000), AuctionRow(2020, "A", 50_000_000)];
      && FeaturesOf("A", [], rows).squadCostCrores == 14.0
      && FeaturesOf("A", [], rows).starPlayerIndex == 1
  {
  }
}
