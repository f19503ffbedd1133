/** get_live_predictions (app.py lines 26-79): snapshot, features, classifier, ranking. */
module LivePredictions {
  import opened Tables
  import opened Seqs
  import opened Snapshot
  import opened Features
  import opened Ranking

  /** The message returned when the snapshot holds no match. */
  const NotEnoughMessage: string := "Not enough matches have been played yet."

  /** What get_live_predictions hands back. */
  datatype LiveOutcome =
    | NotEnoughMatches(message: string)
      /** the classifier gave a different number of probabilities than there are teams */
    | PredictionCountMismatch(teams: nat, probabilities: nat)
    | Ranked(predictions: seq<Prediction>)

  /** The auction rows of `year` (`all_auction_df[all_auction_df['year'] == year]`). */
  function SeasonAuction(year: int, auctions: seq<AuctionRow>): (r: seq<AuctionRow>)
    ensures |r| <= |auctions|
    ensures forall a :: a in r <==> a in auctions && a.year == year
  {
    Filter(auctions, (a: AuctionRow) => a.year == year)
  }

  /** The team column of a feature table. */
  function TeamsOf(features: seq<TeamFeatures>): (r: seq<Team>)
    ensures |r| == |features| && forall i :: 0 <= i < |features| ==> r[i] == features[i].team
  {
    seq(|features|, i requires 0 <= i < |features| => features[i].team)
  }

  /** The live predictions for `year` after `atMatchNumber` matches. `classify` stands for
      the frozen classifier's positive-class probabilities, one per feature row. */
  method GetLivePredictions(year: int, atMatchNumber: int, matches: seq<Match>, auctions: seq<AuctionRow>,
                            classify: seq<TeamFeatures> -> seq<real>)
    returns (r: LiveOutcome)
    ensures r.NotEnoughMatches? <==> SnapshotMatches(year, atMatchNumber, matches) == []
    ensures r.NotEnoughMatches? ==> r.message == NotEnoughMessage
    ensures var roster := Roster(SeasonMatches(year, matches));
      var table := FeatureTable(roster, SnapshotMatches(year, atMatchNumber, matches), SeasonAuction(year, auctions));
      && (r.PredictionCountMismatch? <==>
            SnapshotMatches(year, atMatchNumber, matches) != [] && |classify(table)| != |roster|)
      && (r.Ranked? ==>
            |classify(table)| == |roster| &&
            NonIncreasing(r.predictions) &&
            multiset(r.predictions) == multiset(Label(roster, classify(table))))
  {
    var season := SeasonMatches(year, matches);
    var seasonAuction := SeasonAuction(year, auctions);
    var current := TakePrefix(season, atMatchNumber);
    if |current| == 0 {
      return NotEnoughMatches(NotEnoughMessage);
    }
    var teams := Roster(season);
    var features := BuildFeatures(teams, current, seasonAuction);
    var probs := classify(features);
    if |probs| != |features| {
      return PredictionCountMismatch(|features|, |probs|);
    }
    FeatureTableTeams(teams, current, seasonAuction);
    assert TeamsOf(features) == teams;
    var results := Label(TeamsOf(features), probs);
    r := Ranked(SortByProbability(results));
  }

  /** Every season team gets exactly one ranked prediction, and every prediction is for a season team. */
  lemma RankedOncePerTeam(season: seq<Match>, probs: seq<real>, ranked: seq<Prediction>, team: Team)
    requires |probs| == |Roster(season)|
    requires multiset(ranked) == multiset(Label(Roster(season), probs))
    ensures |ranked| == |Roster(season)|
    ensures (exists p :: p in ranked && p.team == team) <==> exists m :: m in season && Involves(m, team)
  {
    var roster := Roster(season);
    var labelled := Label(roster, probs);
    RosterMembers(season, team);
    assert |ranked| == |multiset(ranked)| == |multiset(labelled)| == |labelled|;
    if p :| p in ranked && p.team == team {
      assert p in multiset(labelled);
      var k :| 0 <= k < |labelled| && labelled[k] == p;
      assert roster[k] == team;
    }
    if team in roster {
      var k :| 0 <= k < |roster| && roster[k] == team;
      assert labelled[k] in multiset(ranked);
    }
  }

  /** No cross-team leakage: changing an auction row that is not this team's for this year
      (its price, its team or its year) leaves the team's features unchanged. */
  lemma AuctionRowIsolated(year: int, team: Team, auctions: seq<AuctionRow>, i: nat, row: AuctionRow,
                           snapshot: seq<Match>)
    requires i < |auctions|
    requires !(auctions[i].year == year && auctions[i].team == team)
    requires !(row.year == year && row.team == team)
    ensures FeaturesOf(team, snapshot, SeasonAuction(year, auctions[i := row]))
         == FeaturesOf(team, snapshot, SeasonAuction(year, auctions))
  {
    var inYear := (a: AuctionRow) => a.year == year;
    var ofTeam := (a: AuctionRow) => a.team == team;
    var both := (a: AuctionRow) => a.year == year && a.team == team;
    FilterFilter(auctions, inYear, ofTeam, both);
    FilterFilter(auctions[i := row], inYear, ofTeam, both);
    FilterUpdateUnselected(auctions, both, i, row);
    assert TeamAuctionRows(team, SeasonAuction(year, auctions[i := row]))
        == TeamAuctionRows(team, SeasonAuction(year, auctions));
  }
}
